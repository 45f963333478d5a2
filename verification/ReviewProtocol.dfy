/**
 One visual review in flight at a time: the coordinator of
 uav_agent/agents/visual_review_coordinator.py with the parts of
 uav_agent/runtime/review_scheduler.py and uav_agent/runtime/frame_store.py
 it relies on.  Frames, workers, detectors and missions are inputs.
 */
module ReviewProtocol {
  import opened Common

  datatype Ticket = Ticket(request: nat, review: nat, mission: nat, version: nat, submitted: real, blocking: bool)

  datatype Decision = Backwards | InFlight | NotDue | Cooldown | Scheduled(ticket: Ticket)

  /** A vehicle's entry in the scheduler: the ledger of reservations and releases is the specification's. */
  datatype Ledger = Ledger(inflight: Option<Ticket>, last: Option<real>, cooldownUntil: real, nextId: nat,
                           reserved: seq<nat>, released: seq<nat>)
  {
    /** Every reservation ever made was released exactly once, in order, except the one in flight. */
    predicate Valid() {
      && reserved == released + (if inflight.Some? then [inflight.value.request] else [])
      && |reserved| == nextId && (forall i | 0 <= i < |reserved| :: reserved[i] == i)
      && (inflight.Some? ==> last.Some? && inflight.value.submitted <= last.value)
    }

    function Decide(mission: nat, version: nat, now: real, triggered: bool, blocking: bool): Decision {
      if last.Some? && now < last.value then Backwards
      else if inflight.Some? then InFlight
      else if !triggered then NotDue
      else if now < cooldownUntil then Cooldown
      else Scheduled(Ticket(nextId, nextId, mission, version, now, blocking))
    }

    function Decided(d: Decision, now: real, cooldown: real): Ledger {
      match d
      case Backwards => this
      case Scheduled(ticket) => Ledger(Some(ticket), Some(now), now + cooldown, nextId + 1, reserved + [nextId], released)
      case _ => this.(last := Some(now))
    }

    predicate Finishes(request: nat, review: nat, now: real) {
      && inflight.Some? && inflight.value.request == request && inflight.value.review == review
      && now >= inflight.value.submitted && (last.Some? ==> now >= last.value)
    }

    function Finished(request: nat, review: nat, now: real, cooldown: real): Ledger {
      if !Finishes(request, review, now) then this
      else this.(inflight := None, last := Some(now), cooldownUntil := MaxReal(cooldownUntil, now + cooldown),
                 released := released + [request])
    }

    function Cleared(): Ledger { if inflight.Some? then this else this.(last := None, cooldownUntil := 0.0) }
  }

  /** `ReviewScheduler`, for one vehicle.  The ghost ledger records every reservation and release. */
  class ReviewScheduler {
    const cooldown: real
    var inflight: Option<Ticket>
    var last: Option<real>
    var cooldownUntil: real
    var nextId: nat
    ghost var reserved: seq<nat>
    ghost var released: seq<nat>

    ghost function Now(): Ledger
      reads this
    {
      Ledger(inflight, last, cooldownUntil, nextId, reserved, released)
    }

    ghost predicate Valid()
      reads this
    {
      Now().Valid()
    }

    constructor (cooldown: real)
      ensures Valid() && this.cooldown == cooldown && inflight.None? && last.None? && reserved == []
    {
      this.cooldown, inflight, last, cooldownUntil, nextId := cooldown, None, None, 0.0, 0;
      reserved, released := [], [];
    }

    method Schedule(mission: nat, version: nat, now: real, triggered: bool, blocking: bool) returns (d: Decision)
      requires Valid()
      modifies this
      ensures Valid() && released == old(released)
      ensures d == old(Now()).Decide(mission, version, now, triggered, blocking)
      ensures Now() == old(Now()).Decided(d, now, cooldown)
      ensures d.Backwards? <==> old(last).Some? && now < old(last).value
      ensures d.Backwards? ==> last == old(last)
      ensures !d.Backwards? ==> last == Some(now)
      ensures !d.Backwards? ==> (d.InFlight? <==> old(inflight).Some?)
      ensures d.Scheduled? ==> inflight == Some(d.ticket) && d.ticket.submitted == now && d.ticket.mission == mission
                               && d.ticket.version == version && d.ticket.request == |old(reserved)|
                               && reserved == old(reserved) + [d.ticket.request]
      ensures d.Scheduled? <==>
        (old(last).Some? ==> now >= old(last).value) && old(inflight).None? && triggered && now >= old(cooldownUntil)
      ensures d.Scheduled? ==> cooldownUntil == now + cooldown && d.ticket.blocking == blocking
      ensures d.Cooldown? ==> triggered
      ensures !d.Scheduled? ==> inflight == old(inflight) && reserved == old(reserved)
                                && cooldownUntil == old(cooldownUntil)
    {
      if last.Some? && now < last.value {
        return Backwards;
      }
      last := Some(now);
      if inflight.Some? {
        return InFlight;
      }
      if !triggered {
        return NotDue;
      }
      if now < cooldownUntil {
        return Cooldown;
      }
      var ticket := Ticket(nextId, nextId, mission, version, now, blocking);
      reserved := reserved + [nextId];
      inflight, cooldownUntil, nextId := Some(ticket), now + cooldown, nextId + 1;
      return Scheduled(ticket);
    }

    /** `mark_completed` and `mark_timed_out`; `ok` is false where the source raises. */
    method Finish(request: nat, review: nat, now: real) returns (ok: bool)
      requires Valid()
      modifies this
      ensures Valid() && reserved == old(reserved)
      ensures Now() == old(Now()).Finished(request, review, now, cooldown)
      ensures ok <==>
        (&& old(inflight).Some? && old(inflight).value.request == request && old(inflight).value.review == review
         && now >= old(last).value && now >= old(inflight).value.submitted)
      ensures ok ==> inflight.None? && released == old(released) + [request] && last == Some(now)
                     && cooldownUntil == MaxReal(old(cooldownUntil), now + cooldown)
      ensures !ok ==> inflight == old(inflight) && released == old(released) && last == old(last)
                      && cooldownUntil == old(cooldownUntil)
    {
      if inflight.None? || inflight.value.request != request || inflight.value.review != review
         || now < inflight.value.submitted || now < last.value {
        return false;
      }
      last, inflight, cooldownUntil := Some(now), None, MaxReal(cooldownUntil, now + cooldown);
      released := released + [request];
      return true;
    }

    /** `reset_uav`, refused while a review is in flight. */
    method Reset() returns (ok: bool)
      requires Valid()
      modifies this
      ensures Valid() && Now() == old(Now()).Cleared()
      ensures reserved == old(reserved) && released == old(released) && inflight == old(inflight)
      ensures ok <==> inflight.None?
      ensures ok ==> last.None? && cooldownUntil == 0.0
      ensures !ok ==> last == old(last) && cooldownUntil == old(cooldownUntil)
    {
      if inflight.Some? {
        return false;
      }
      last, cooldownUntil := None, 0.0;
      return true;
    }
  }

  /** The frames stored for a vehicle, and who still needs them. */
  datatype Shelf = Shelf(frames: set<nat>, pins: map<nat, nat>, nextFrame: nat) {
    predicate Valid() {
      pins.Keys <= frames && forall id | id in frames :: id < nextFrame
    }

    function Added(evictable: set<nat>): Shelf {
      this.(frames := (frames + {nextFrame}) - (evictable - pins.Keys), nextFrame := nextFrame + 1)
    }

    function Pinned(id: nat): Shelf {
      if id !in frames then this else this.(pins := pins[id := (if id in pins then pins[id] else 0) + 1])
    }

    function Unpinned(id: nat, evictable: set<nat>): Shelf {
      if id !in pins then this
      else
        var rest := if pins[id] <= 1 then pins - {id} else pins[id := pins[id] - 1];
        this.(pins := rest, frames := frames - (evictable - rest.Keys))
    }

    function Emptied(): Shelf { this.(frames := {}, pins := map[]) }
  }

  /** `FrameStore`, for one vehicle: eviction spares pinned frames, clearing does not. */
  class FrameStore {
    var frames: set<nat>
    var pins: map<nat, nat>
    var nextFrame: nat

    function Now(): Shelf
      reads this
    {
      Shelf(frames, pins, nextFrame)
    }

    predicate Valid()
      reads this
    {
      Now().Valid()
    }

    constructor ()
      ensures Valid() && frames == {} && pins == map[]
    {
      frames, pins, nextFrame := {}, map[], 0;
    }

    method AddFrame(evictable: set<nat>) returns (id: nat)
      requires Valid()
      modifies this
      ensures Valid() && pins == old(pins) && id == old(nextFrame) && nextFrame == id + 1
      ensures Now() == old(Now()).Added(evictable)
      ensures frames == (old(frames) + {id}) - (evictable - pins.Keys)
    {
      id := nextFrame;
      frames, nextFrame := (frames + {id}) - (evictable - pins.Keys), nextFrame + 1;
    }

    method Pin(id: nat) returns (ok: bool)
      requires Valid()
      modifies `pins
      ensures Valid() && Now() == old(Now()).Pinned(id)
      ensures ok <==> id in frames
      ensures pins == if ok then old(pins)[id := (if id in old(pins) then old(pins)[id] else 0) + 1] else old(pins)
    {
      ok := id in frames;
      if ok {
        pins := pins[id := (if id in pins then pins[id] else 0) + 1];
      }
    }

    method Unpin(id: nat, evictable: set<nat>) returns (ok: bool)
      requires Valid()
      modifies `pins, `frames
      ensures Valid() && Now() == old(Now()).Unpinned(id, evictable)
      ensures ok <==> id in old(pins)
      ensures !ok ==> pins == old(pins) && frames == old(frames)
      ensures ok ==> pins == (if old(pins)[id] <= 1 then old(pins) - {id} else old(pins)[id := old(pins)[id] - 1])
      ensures ok ==> frames == old(frames) - (evictable - pins.Keys)
    {
      if id !in pins {
        return false;
      }
      pins := if pins[id] <= 1 then pins - {id} else pins[id := pins[id] - 1];
      frames := frames - (evictable - pins.Keys);
      return true;
    }

    method Clear()
      modifies `frames, `pins
      ensures Now() == old(Now()).Emptied()
      ensures old(Valid()) ==> Valid()
    {
      frames, pins := {}, map[];
    }
  }

  // ------------------------------------------------------------- messages

  datatype Content = ModelFailed | Unparsable | Reviewed(accepted: bool)

  datatype Result = Result(request: nat, review: nat, mission: nat, version: nat, workerStale: bool, content: Content)

  datatype Polled = WorkerRaised | Nothing | Arrived(result: Result)

  datatype Pending = Pending(ticket: Ticket, frame: nat, frameTime: real, step: nat, target: Option<nat>)

  datatype Cause = Completed | PollFailed | TimedOut | Aborted | SubmitFailed | WasReset

  datatype Closure = Closure(request: nat, cause: Cause)

  function Requests(closures: seq<Closure>): seq<nat> {
    seq(|closures|, i requires 0 <= i < |closures| => closures[i].request)
  }

  lemma RequestsAppended(closures: seq<Closure>, c: Closure)
    ensures Requests(closures + [c]) == Requests(closures) + [c.request]
  {
  }

  datatype Record =
    | Finished(request: nat, stale: bool, accepted: bool)
    | Failed(request: nat, cause: Cause)
    | Orphan(request: nat)

  /** Who the caller says is flying what, at a tick. */
  datatype Context = Context(mission: nat, version: nat, step: Option<nat>, target: Option<nat>)

  /** How the attempt to build and submit a request goes. */
  datatype Submission = BuildRaises | WorkerRefuses | HoverRaises | BindingRaises | Submitted

  datatype TickInput = TickInput(now: real, context: Context, storeRaises: bool, evictable: set<nat>,
                                 safetyContinues: bool, polled: Polled, paused: bool, reviewable: bool,
                                 candidateReady: bool, triggered: bool, blocking: bool,
                                 submission: Submission, drained: Polled)

  datatype TickOutcome = Returned | Raised

  datatype StaleReason = WorkerMarkedStale | MissionChanged | VersionChanged | StepChanged | TargetChanged
                       | ResultTooOld | FrameEvicted | RequestMismatch | ReviewMismatch

  /** Mission, version, step, target, age, frame and ids are all as when the review was submitted. */
  predicate StillValid(r: Result, p: Pending, c: Context, now: real, maxAge: real, retained: bool) {
    && !r.workerStale && r.request == p.ticket.request && r.review == p.ticket.review
    && c.mission == p.ticket.mission == r.mission
    && c.version == p.ticket.version == r.version
    && c.step == Some(p.step) && c.target == p.target
    && now <= p.frameTime + maxAge && retained
  }

  predicate Applies(reason: StaleReason, r: Result, p: Pending, c: Context, now: real, maxAge: real, retained: bool) {
    match reason
    case WorkerMarkedStale => r.workerStale
    case MissionChanged => c.mission != p.ticket.mission || r.mission != p.ticket.mission
    case VersionChanged => c.version != p.ticket.version || r.version != p.ticket.version
    case StepChanged => c.step != Some(p.step)
    case TargetChanged => c.target != p.target
    case ResultTooOld => now - p.frameTime > maxAge
    case FrameEvicted => !retained
    case RequestMismatch => r.request != p.ticket.request
    case ReviewMismatch => r.review != p.ticket.review
  }

  /** `_collect_stale_reasons`; the order they are listed in is not modelled. */
  function StaleReasons(r: Result, p: Pending, c: Context, now: real, maxAge: real, retained: bool)
    : (reasons: set<StaleReason>)
    ensures reasons == {} <==> StillValid(r, p, c, now, maxAge, retained)
  {
    SomeReasonIff(r, p, c, now, maxAge, retained);
    var reasons := set reason | Applies(reason, r, p, c, now, maxAge, retained);
    assert forall reason :: Applies(reason, r, p, c, now, maxAge, retained) ==> reason in reasons;
    reasons
  }

  lemma SomeReasonIff(r: Result, p: Pending, c: Context, now: real, maxAge: real, retained: bool)
    ensures (exists reason :: Applies(reason, r, p, c, now, maxAge, retained))
            <==> !StillValid(r, p, c, now, maxAge, retained)
  {
    var ids := if r.workerStale then WorkerMarkedStale else if r.request != p.ticket.request then RequestMismatch
               else ReviewMismatch;
    var route := if Applies(MissionChanged, r, p, c, now, maxAge, retained) then MissionChanged
                 else if Applies(VersionChanged, r, p, c, now, maxAge, retained) then VersionChanged
                 else if Applies(StepChanged, r, p, c, now, maxAge, retained) then StepChanged else TargetChanged;
    var rest := if retained then ResultTooOld else FrameEvicted;
    assert !StillValid(r, p, c, now, maxAge, retained) ==>
      || Applies(ids, r, p, c, now, maxAge, retained) || Applies(route, r, p, c, now, maxAge, retained)
      || Applies(rest, r, p, c, now, maxAge, retained);
  }

  /** The result carries the ids of the pending request and no stale mark. */
  predicate Owns(r: Result, p: Pending) {
    !r.workerStale && r.request == p.ticket.request && r.review == p.ticket.review
  }

  /** What a poll leaves on record about the pending review, and about anything else that arrived. */
  function PollRecords(p: Pending, polled: Polled, c: Context, now: real, maxAge: real, retained: bool): seq<Record> {
    match polled
    case WorkerRaised => [Failed(p.ticket.request, PollFailed)]
    case Nothing => []
    case Arrived(r) =>
      if !Owns(r, p) then [Orphan(r.request)]
      else
        var valid := StillValid(r, p, c, now, maxAge, retained);
        [Finished(p.ticket.request, !valid, valid && r.content == Reviewed(true))]
  }

  /** The same for a tick, which also ends a review that has not been answered in time. */
  function AnswerRecords(p: Pending, polled: Polled, c: Context, now: real, maxAge: real, timeout: real, retained: bool)
    : seq<Record>
  {
    PollRecords(p, polled, c, now, maxAge, retained) +
    if AnswerCause(p, polled, now, timeout) == Some(TimedOut) then [Failed(p.ticket.request, TimedOut)] else []
  }

  /** Why that poll closes the pending review, if it does. */
  function AnswerCause(p: Pending, polled: Polled, now: real, timeout: real): Option<Cause> {
    if polled.WorkerRaised? then Some(PollFailed)
    else if polled.Arrived? && Owns(polled.result, p) then Some(Completed)
    else if now - p.ticket.submitted >= timeout then Some(TimedOut)
    else None
  }

  /** The tick accepted the answer to this review. */
  predicate AcceptedBy(input: TickInput, p: Pending, maxAge: real) {
    && input.polled.Arrived? && input.polled.result.content == Reviewed(true)
    && StillValid(input.polled.result, p, input.context, input.now, maxAge, true)
  }

  /** Every record from `from` on that accepts a review was made by this tick, about this pending review. */
  predicate AcceptsOnly(records: seq<Record>, from: nat, pending: Option<Pending>, input: TickInput, maxAge: real) {
    forall k | from <= k < |records| && records[k].Finished? && records[k].accepted ::
      pending.Some? && records[k].request == pending.value.ticket.request && AcceptedBy(input, pending.value, maxAge)
  }

  /** The review was submitted by this tick, under its context. */
  predicate SubmittedBy(input: TickInput, p: Pending, frame: nat) {
    && p.ticket.mission == input.context.mission && p.ticket.version == input.context.version
    && input.context.step == Some(p.step) && input.context.target == p.target
    && p.ticket.submitted == p.frameTime == input.now && p.ticket.blocking == input.blocking && p.frame == frame
  }

  /** With nothing pending, a review is wanted and may be reserved now. */
  predicate Reserves(input: TickInput, last: Option<real>, cooldownUntil: real) {
    && !input.paused && input.reviewable && input.context.step.Some? && input.candidateReady
    && input.triggered && input.now >= cooldownUntil && (last.Some? ==> input.now >= last.value)
  }

  /** With nothing pending, the worker is asked for a late result instead. */
  predicate Drains(input: TickInput, last: Option<real>, cooldownUntil: real) {
    && !input.paused
    && (!input.reviewable || (input.context.step.Some? &&
          (!input.candidateReady || ((last.Some? ==> input.now >= last.value) && !Reserves(input, last, cooldownUntil)))))
  }

  // -------------------------------------------- what the operations leave

  datatype Limits = Limits(cooldown: real, timeout: real, maxResultAge: real)

  datatype End = End(desk: Desk, outcome: TickOutcome)

  datatype Step =
    | Ticked(input: TickInput)
    | AbortCalled(timestamp: Option<real>)
    | ResetCalled
    | StoreCleared

  predicate BindingFailed(s: Step) { s.Ticked? && s.input.submission.BindingRaises? }

  /** The coordinator with its scheduler entry and its frames. */
  datatype Desk = Desk(ledger: Ledger, shelf: Shelf, pending: Option<Pending>, lastFrame: Option<real>,
                       records: seq<Record>, staleCount: nat, closures: seq<Closure>, submitted: map<nat, Pending>)
  {
    predicate Wired() {
      && ledger.Valid() && shelf.Valid() && ledger.released == Requests(closures)
      && forall id | id in submitted :: id < |ledger.reserved|
    }

    /** A review is pending exactly while its ticket is outstanding, with its frame pinned once while retained. */
    predicate Valid() {
      && Wired()
      && (pending.None? <==> ledger.inflight.None?)
      && (pending.Some? ==>
            && ledger.inflight == Some(pending.value.ticket) && ledger.last == Some(pending.value.ticket.submitted)
            && lastFrame.Some? && pending.value.ticket.submitted <= lastFrame.value
            && pending.value.frame < shelf.nextFrame
            && pending.value.ticket.request in submitted && submitted[pending.value.ticket.request] == pending.value)
      && shelf.pins == (if pending.Some? && pending.value.frame in shelf.frames then map[pending.value.frame := 1]
                        else map[])
    }

    /** A ticket is outstanding that no pending review owns. */
    predicate Leaked() { Wired() && pending.None? && ledger.inflight.Some? }

    /** The frame of the pending review is still in the store. */
    predicate Retained() { pending.Some? ==> pending.value.frame in shelf.frames }

    /** The pending review ends: ticket and pin are released, and one record is left. */
    function Closed(now: real, cause: Cause, record: Record, evictable: set<nat>, l: Limits): Desk
      requires pending.Some?
    {
      var p := pending.value;
      this.(ledger := ledger.Finished(p.ticket.request, p.ticket.review, now, l.cooldown),
            shelf := if p.frame in shelf.frames then shelf.Unpinned(p.frame, evictable) else shelf,
            pending := None, records := records + [record], closures := closures + [Closure(p.ticket.request, cause)])
    }

    function Erred(now: real, cause: Cause, evictable: set<nat>, l: Limits): Desk
      requires pending.Some?
    {
      Closed(now, cause, Failed(pending.value.ticket.request, cause), evictable, l)
    }

    function AbortedAt(timestamp: Option<real>, evictable: set<nat>, l: Limits): Desk {
      if pending.None? then this
      else
        var selected := if timestamp.Some? then timestamp else lastFrame;
        Erred(MaxReal(pending.value.ticket.submitted, if selected.Some? then selected.value else 0.0), Aborted, evictable, l)
    }

    function Orphaned(request: nat): Desk {
      this.(staleCount := staleCount + 1, records := records + [Orphan(request)])
    }

    function Judged(r: Result, c: Context, now: real, evictable: set<nat>, l: Limits): Desk
      requires pending.Some?
    {
      var valid := StillValid(r, pending.value, c, now, l.maxResultAge, pending.value.frame in shelf.frames);
      var record := Finished(pending.value.ticket.request, !valid, valid && r.content == Reviewed(true));
      Closed(now, Completed, record, evictable, l).(staleCount := if valid then staleCount else staleCount + 1)
    }

    function PolledOn(polled: Polled, c: Context, now: real, evictable: set<nat>, l: Limits): Desk {
      if pending.None? then this
      else
        match polled
        case WorkerRaised => Erred(now, PollFailed, evictable, l)
        case Nothing => this
        case Arrived(r) => if Owns(r, pending.value) then Judged(r, c, now, evictable, l) else Orphaned(r.request)
    }

    predicate Overdue(now: real, l: Limits) { pending.Some? && now - pending.value.ticket.submitted >= l.timeout }

    function ExpiredAt(now: real, evictable: set<nat>, l: Limits): Desk {
      if Overdue(now, l) then Erred(now, TimedOut, evictable, l) else this
    }

    function Drained(polled: Polled): End {
      if pending.Some? then End(this, Returned)
      else
        match polled
        case WorkerRaised => End(this, Raised)
        case Nothing => End(this, Returned)
        case Arrived(r) => End(Orphaned(r.request), Returned)
    }

    function Answered(input: TickInput, l: Limits): Desk {
      PolledOn(input.polled, input.context, input.now, input.evictable, l).ExpiredAt(input.now, input.evictable, l)
    }

    /** A failed poll and a timeout end the tick; a judged result does not. */
    predicate Stops(input: TickInput, l: Limits) {
      pending.Some? &&
      (input.polled.WorkerRaised? ||
       PolledOn(input.polled, input.context, input.now, input.evictable, l).Overdue(input.now, l))
    }

    function Refunded(ticket: Ticket, now: real, l: Limits): Desk {
      this.(ledger := ledger.Finished(ticket.request, ticket.review, now, l.cooldown),
            closures := closures + [Closure(ticket.request, SubmitFailed)])
    }

    /** The reservation transaction: refunded if it fails, except in putting together the pending record. */
    function Committed(ticket: Ticket, frame: nat, input: TickInput, l: Limits): End
      requires input.context.step.Some?
    {
      var kept := this.(shelf := shelf.Pinned(frame));
      if frame !in shelf.frames || input.submission.BuildRaises? then End(Refunded(ticket, input.now, l), Raised)
      else if input.submission.WorkerRefuses? || input.submission.HoverRaises? then
        End(this.(shelf := shelf.Pinned(frame).Unpinned(frame, input.evictable)).Refunded(ticket, input.now, l), Raised)
      else if input.submission.BindingRaises? then End(kept, Raised)
      else
        var p := Pending(ticket, frame, input.now, input.context.step.value, input.context.target);
        End(kept.(pending := Some(p), submitted := submitted[ticket.request := p]), Returned)
    }

    function Booked(frame: nat, input: TickInput, l: Limits): End
      requires input.context.step.Some?
    {
      var d := ledger.Decide(input.context.mission, input.context.version, input.now, input.triggered, input.blocking);
      var next := this.(ledger := ledger.Decided(d, input.now, l.cooldown));
      match d
      case Backwards => End(next, Raised)
      case Scheduled(ticket) => next.Committed(ticket, frame, input, l)
      case _ => next.Drained(input.drained)
    }

    /** With nothing pending any more. */
    function Considered(frame: nat, input: TickInput, l: Limits): End {
      if input.paused then End(this, Returned)
      else if pending.Some? || !input.reviewable then Drained(input.drained)
      else if input.context.step.None? then End(this, Raised)
      else if !input.candidateReady then Drained(input.drained)
      else Booked(frame, input, l)
    }

    function FrameReviewed(frame: nat, input: TickInput, l: Limits): End {
      if Stops(input, l) then End(Answered(input, l), Returned)
      else Answered(input, l).Considered(frame, input, l)
    }

    /** The tick brings a new frame that can be stored. */
    predicate Reaches(input: TickInput) { (lastFrame.None? || lastFrame.value < input.now) && !input.storeRaises }

    function TickedOn(input: TickInput, l: Limits): End {
      if lastFrame.Some? && input.now <= lastFrame.value then
        End(this, if input.now == lastFrame.value then Returned else Raised)
      else if input.storeRaises then End(this, Raised)
      else
        var seen := this.(shelf := shelf.Added(input.evictable), lastFrame := Some(input.now));
        if !input.safetyContinues then End(seen.AbortedAt(Some(input.now), input.evictable, l), Returned)
        else seen.FrameReviewed(shelf.nextFrame, input, l)
    }

    /** A reset that the scheduler refuses leaves everything but the pending review. */
    function Forgotten(l: Limits): Desk {
      var ended := if pending.None? then this
        else
          var t := pending.value.ticket;
          var completion := MaxReal(t.submitted, if lastFrame.Some? then lastFrame.value else 0.0);
          this.(ledger := ledger.Finished(t.request, t.review, completion, l.cooldown), pending := None,
                closures := closures + [Closure(t.request, WasReset)]);
      if ended.ledger.inflight.Some? then ended
      else ended.(ledger := ended.ledger.Cleared(), shelf := shelf.Emptied(), records := [], lastFrame := None,
                  staleCount := 0)
    }

    function After(s: Step, l: Limits): Desk {
      match s
      case Ticked(input) => TickedOn(input, l).desk
      case AbortCalled(timestamp) => AbortedAt(timestamp, {}, l)
      case ResetCalled => Forgotten(l)
      case StoreCleared => this.(shelf := shelf.Emptied())
    }

    /** After the first n steps. */
    function AfterAll(steps: seq<Step>, n: nat, l: Limits): Desk
      requires n <= |steps|
    {
      if n == 0 then this else AfterAll(steps, n - 1, l).After(steps[n - 1], l)
    }
  }

  // ----------------------------------------------------- what they keep

  /** Ending a review at a time not before it was submitted keeps the books. */
  lemma ClosedValid(d: Desk, now: real, cause: Cause, record: Record, evictable: set<nat>, l: Limits)
    requires d.Valid() && d.pending.Some? && now >= d.pending.value.ticket.submitted
    ensures var e := d.Closed(now, cause, record, evictable, l);
      e.Valid() && e.pending.None? && e.ledger.reserved == d.ledger.reserved && e.ledger.last == Some(now)
  {
    var c := Closure(d.pending.value.ticket.request, cause);
    RequestsAppended(d.closures, c);
  }

  lemma PolledValid(d: Desk, polled: Polled, c: Context, now: real, evictable: set<nat>, l: Limits)
    requires d.Valid() && (d.pending.Some? ==> now >= d.pending.value.ticket.submitted)
    ensures var e := d.PolledOn(polled, c, now, evictable, l);
      && e.Valid() && e.ledger.reserved == d.ledger.reserved
      && (e.pending.Some? ==> e.pending == d.pending && e.shelf == d.shelf)
  {
    if d.pending.Some? {
      match polled
      case WorkerRaised =>
        ClosedValid(d, now, PollFailed, Failed(d.pending.value.ticket.request, PollFailed), evictable, l);
      case Nothing =>
      case Arrived(r) =>
        var valid := StillValid(r, d.pending.value, c, now, l.maxResultAge, d.pending.value.frame in d.shelf.frames);
        ClosedValid(d, now, Completed, Finished(d.pending.value.ticket.request, !valid, valid && r.content == Reviewed(true)),
                    evictable, l);
    }
  }

  /** What a tick leaves of the pending review, and on record about it, is what its answer calls for. */
  lemma AnsweredMeans(d: Desk, input: TickInput, l: Limits)
    requires d.Valid() && d.lastFrame == Some(input.now)
    ensures var e := d.Answered(input, l);
      && e.Valid() && e.ledger.reserved == d.ledger.reserved && e.submitted == d.submitted && e.lastFrame == d.lastFrame
      && (e.pending.Some? ==> e.pending == d.pending && e.shelf == d.shelf
                              && input.now - e.pending.value.ticket.submitted < l.timeout)
      && (d.pending.None? ==> e == d)
      && (d.pending.Some? ==>
            var (p, kept) := (d.pending.value, d.pending.value.frame in d.shelf.frames);
            var cause := AnswerCause(p, input.polled, input.now, l.timeout);
            && (e.pending.None? <==> cause.Some?) && (d.Stops(input, l) <==> cause.Some? && cause != Some(Completed))
            && e.closures == d.closures + (if cause.Some? then [Closure(p.ticket.request, cause.value)] else [])
            && e.records == d.records + AnswerRecords(p, input.polled, input.context, input.now, l.maxResultAge, l.timeout, kept))
  {
    PolledValid(d, input.polled, input.context, input.now, input.evictable, l);
    var polled := d.PolledOn(input.polled, input.context, input.now, input.evictable, l);
    if polled.Overdue(input.now, l) {
      ClosedValid(polled, input.now, TimedOut, Failed(polled.pending.value.ticket.request, TimedOut), input.evictable, l);
    }
  }

  /** A refused submission releases ticket and pin; only putting together the pending record may leak them. */
  lemma CommittedMeans(d: Desk, ticket: Ticket, frame: nat, input: TickInput, l: Limits)
    requires d.Wired() && d.pending.None? && d.ledger.inflight == Some(ticket) && d.ledger.last == Some(ticket.submitted)
    requires ticket.submitted == input.now && d.lastFrame == Some(input.now) && ticket.request < |d.ledger.reserved|
    requires d.shelf.pins == map[] && frame < d.shelf.nextFrame && input.context.step.Some?
    ensures var e := d.Committed(ticket, frame, input, l);
      && (e.desk.Valid() || e.desk.Leaked()) && e.desk.Retained()
      && (e.desk.Leaked() <==> frame in d.shelf.frames && input.submission.BindingRaises?)
      && (e.outcome.Returned? <==> frame in d.shelf.frames && input.submission.Submitted?)
      && (e.outcome.Returned? <==> e.desk.pending.Some?)
      && (e.outcome.Returned? ==>
            && e.desk.pending == Some(Pending(ticket, frame, input.now, input.context.step.value, input.context.target))
            && e.desk.submitted == d.submitted[ticket.request := e.desk.pending.value])
      && (e.outcome.Raised? ==> e.desk.submitted == d.submitted)
      && (e.outcome.Raised? && e.desk.Valid() ==> e.desk.closures == d.closures + [Closure(ticket.request, SubmitFailed)])
      && (e.outcome.Returned? || e.desk.Leaked() ==> e.desk.closures == d.closures)
      && e.desk.records == d.records && e.desk.lastFrame == d.lastFrame && e.desk.ledger.reserved == d.ledger.reserved
  {
    RequestsAppended(d.closures, Closure(ticket.request, SubmitFailed));
  }

  /** Reserving keeps the books, unless the ticket leaks. */
  lemma BookedValid(d: Desk, frame: nat, input: TickInput, l: Limits)
    requires (d.Valid() || d.Leaked()) && d.pending.None? && d.lastFrame == Some(input.now) && frame < d.shelf.nextFrame
    requires input.context.step.Some?
    ensures var e := d.Booked(frame, input, l).desk;
      && (e.Valid() || e.Leaked()) && (d.Leaked() ==> e.Leaked() && e.ledger.reserved == d.ledger.reserved)
      && (d.Valid() && !input.submission.BindingRaises? ==> e.Valid())
      && e.Retained() && e.lastFrame == d.lastFrame
  {
    var decision := d.ledger.Decide(input.context.mission, input.context.version, input.now, input.triggered, input.blocking);
    var next := d.(ledger := d.ledger.Decided(decision, input.now, l.cooldown));
    assert next.ledger.Valid();
    if decision.Scheduled? {
      CommittedMeans(next, decision.ticket, frame, input, l);
    }
  }

  /** What reserving adds: at most one closure, one drained result, and one review submitted by this tick. */
  lemma BookedAdds(d: Desk, frame: nat, input: TickInput, l: Limits)
    requires (d.Valid() || d.Leaked()) && d.pending.None? && input.context.step.Some?
    ensures var e := d.Booked(frame, input, l).desk;
      && (e.pending.Some? ==> SubmittedBy(input, e.pending.value, frame))
      && (forall id | id in d.submitted :: id in e.submitted && e.submitted[id] == d.submitted[id])
      && d.closures <= e.closures && |e.closures| <= |d.closures| + 1
      && (e.records == d.records
          || (input.drained.Arrived? && e.records == d.records + [Orphan(input.drained.result.request)]))
  {
  }

  /** A review is reserved exactly when it is wanted and none is outstanding; otherwise a late result is drained. */
  lemma BookedMeans(d: Desk, frame: nat, input: TickInput, l: Limits)
    requires d.Valid() && d.pending.None? && d.lastFrame == Some(input.now) && frame < d.shelf.nextFrame
    requires input.context.step.Some? && !input.paused && input.reviewable && input.candidateReady
    ensures var e := d.Booked(frame, input, l).desk;
      && (e.pending.Some? <==>
            Reserves(input, d.ledger.last, d.ledger.cooldownUntil) && frame in d.shelf.frames && input.submission.Submitted?)
      && e.records == if input.drained.Arrived? && Drains(input, d.ledger.last, d.ledger.cooldownUntil)
                      then d.records + [Orphan(input.drained.result.request)] else d.records
  {
  }

  /** The records and the pending review that looking for a new review leaves. */
  lemma ConsideredMeans(d: Desk, frame: nat, input: TickInput, l: Limits)
    requires (d.Valid() || d.Leaked()) && d.lastFrame == Some(input.now) && frame < d.shelf.nextFrame
    ensures var e := d.Considered(frame, input, l).desk;
      && (e.Valid() || e.Leaked()) && (d.Leaked() ==> e.Leaked() && e.ledger.reserved == d.ledger.reserved)
      && (d.Valid() && !input.submission.BindingRaises? ==> e.Valid())
      && (d.Retained() ==> e.Retained()) && e.lastFrame == d.lastFrame
      && (d.pending.Some? ==> e.pending == d.pending)
      && (d.pending.None? && e.pending.Some? ==> SubmittedBy(input, e.pending.value, frame))
      && d.closures <= e.closures && |e.closures| <= |d.closures| + 1
      && (e.records == d.records
          || (input.drained.Arrived? && e.records == d.records + [Orphan(input.drained.result.request)]))
      && (forall id | id in d.submitted :: id in e.submitted && e.submitted[id] == d.submitted[id])
      && (d.pending.None? && d.Valid() ==>
            && (e.pending.Some? <==>
                  Reserves(input, d.ledger.last, d.ledger.cooldownUntil) && frame in d.shelf.frames && input.submission.Submitted?)
            && (e.records == if input.drained.Arrived? && Drains(input, d.ledger.last, d.ledger.cooldownUntil)
                             then d.records + [Orphan(input.drained.result.request)] else d.records))
  {
    if !input.paused && d.pending.None? && input.reviewable && input.context.step.Some? && input.candidateReady {
      BookedValid(d, frame, input, l);
      BookedAdds(d, frame, input, l);
      if d.Valid() {
        BookedMeans(d, frame, input, l);
      }
    }
  }

  /** An answer accepts nothing but the review that was pending, and only under this tick's own context. */
  lemma AnswerAccepts(records: seq<Record>, more: seq<Record>, p: Pending, input: TickInput, l: Limits, kept: bool)
    requires var found := records + AnswerRecords(p, input.polled, input.context, input.now, l.maxResultAge, l.timeout, kept);
      more == found || (input.drained.Arrived? && more == found + [Orphan(input.drained.result.request)])
    ensures AcceptsOnly(more, |records|, Some(p), input, l.maxResultAge)
  {
    var polled := PollRecords(p, input.polled, input.context, input.now, l.maxResultAge, kept);
    forall k | |records| <= k < |more| && more[k].Finished? && more[k].accepted
      ensures more[k].request == p.ticket.request && AcceptedBy(input, p, l.maxResultAge)
    {
      assert more[k] == polled[0];
    }
  }

  /** A tick that safety lets go on: answered first, and then a new review considered. */
  lemma FrameReviewedMeans(d: Desk, frame: nat, input: TickInput, l: Limits)
    requires (d.Valid() || d.Leaked()) && d.lastFrame == Some(input.now) && frame < d.shelf.nextFrame && l.timeout > 0.0
    ensures var e := d.FrameReviewed(frame, input, l).desk;
      && (e.Valid() || e.Leaked()) && (d.Leaked() ==> e.Leaked() && e.ledger.reserved == d.ledger.reserved)
      && (d.Valid() && !input.submission.BindingRaises? ==> e.Valid())
      && (d.Retained() ==> e.Retained()) && e.lastFrame == d.lastFrame
      && (e.pending.Some? ==> input.now - e.pending.value.ticket.submitted < l.timeout)
      && (e.pending.Some? && e.pending != d.pending ==> SubmittedBy(input, e.pending.value, frame))
      && (forall id | id in d.submitted :: id in e.submitted && e.submitted[id] == d.submitted[id])
      && (d.pending.None? && d.Valid() ==>
            && (e.pending.Some? <==>
                  Reserves(input, d.ledger.last, d.ledger.cooldownUntil) && frame in d.shelf.frames && input.submission.Submitted?)
            && (e.records == if input.drained.Arrived? && Drains(input, d.ledger.last, d.ledger.cooldownUntil)
                             then d.records + [Orphan(input.drained.result.request)] else d.records))
  {
    if d.Valid() {
      AnsweredMeans(d, input, l);
    }
    ConsideredMeans(d.Answered(input, l), frame, input, l);
  }

  /** The closures and the records of such a tick. */
  lemma FrameReviewedRecords(d: Desk, frame: nat, input: TickInput, l: Limits)
    requires (d.Valid() || d.Leaked()) && d.lastFrame == Some(input.now) && frame < d.shelf.nextFrame && l.timeout > 0.0
    ensures var e := d.FrameReviewed(frame, input, l).desk;
      && d.closures <= e.closures && |e.closures| <= |d.closures| + 2
      && AcceptsOnly(e.records, |d.records|, d.pending, input, l.maxResultAge) && d.records <= e.records
      && (d.pending.Some? ==>
            var (p, kept) := (d.pending.value, d.pending.value.frame in d.shelf.frames);
            var cause := AnswerCause(p, input.polled, input.now, l.timeout);
            && (cause.None? ==> e.pending == d.pending)
            && (cause.Some? ==> |e.closures| > |d.closures|
                                && e.closures[|d.closures|] == Closure(p.ticket.request, cause.value)
                                && (e.pending.Some? ==> e.pending.value.ticket.request != p.ticket.request))
            && d.records + AnswerRecords(p, input.polled, input.context, input.now, l.maxResultAge, l.timeout, kept)
                 <= e.records)
  {
    var answered := d.Answered(input, l);
    if d.Valid() {
      AnsweredMeans(d, input, l);
    }
    ConsideredMeans(answered, frame, input, l);
    if d.pending.Some? {
      AnswerAccepts(d.records, d.FrameReviewed(frame, input, l).desk.records, d.pending.value, input, l,
                    d.pending.value.frame in d.shelf.frames);
      if answered.pending.None? {
        NewRequest(answered, frame, input, l);
        assert d.ledger.reserved[|d.ledger.reserved| - 1] == d.pending.value.ticket.request;
      }
    }
  }

  /** A review reserved now has a number of its own. */
  lemma NewRequest(d: Desk, frame: nat, input: TickInput, l: Limits)
    requires d.pending.None?
    ensures var e := d.Considered(frame, input, l).desk;
      e.pending.Some? ==> e.pending.value.ticket.request == d.ledger.nextId
  {
  }

  lemma AbortedMeans(d: Desk, timestamp: Option<real>, evictable: set<nat>, l: Limits)
    requires d.Valid() || d.Leaked()
    ensures var e := d.AbortedAt(timestamp, evictable, l);
      && e.pending.None? && e.lastFrame == d.lastFrame && (if d.Valid() then e.Valid() else e.Leaked())
      && (d.pending.Some? ==>
            && e.closures == d.closures + [Closure(d.pending.value.ticket.request, Aborted)]
            && e.records == d.records + [Failed(d.pending.value.ticket.request, Aborted)])
      && (d.pending.None? ==> e == d) && e.submitted == d.submitted && e.ledger.reserved == d.ledger.reserved
  {
    if d.pending.Some? {
      var selected := if timestamp.Some? then timestamp else d.lastFrame;
      var now := MaxReal(d.pending.value.ticket.submitted, if selected.Some? then selected.value else 0.0);
      ClosedValid(d, now, Aborted, Failed(d.pending.value.ticket.request, Aborted), evictable, l);
    }
  }

  lemma ForgottenMeans(d: Desk, l: Limits)
    requires d.Valid() || d.Leaked()
    ensures var e := d.Forgotten(l);
      && (if d.Valid() then e.Valid() && e.ledger.inflight.None? && e.lastFrame.None? && e.shelf.frames == {} && e.records == []
          else e == d)
      && e.pending.None? && e.submitted == d.submitted && e.ledger.reserved == d.ledger.reserved
      && e.closures == d.closures + (if d.pending.Some? then [Closure(d.pending.value.ticket.request, WasReset)] else [])
  {
    if d.pending.Some? {
      RequestsAppended(d.closures, Closure(d.pending.value.ticket.request, WasReset));
    }
  }

  /** A new frame only adds to the store, and evicts nothing that is pinned. */
  lemma FrameSeen(d: Desk, input: TickInput)
    requires (d.Valid() || d.Leaked()) && d.Reaches(input)
    ensures var seen := d.(shelf := d.shelf.Added(input.evictable), lastFrame := Some(input.now));
      && (d.Valid() ==> seen.Valid()) && (d.Leaked() ==> seen.Leaked()) && (d.Retained() ==> seen.Retained())
      && (d.pending.Some? ==> (d.pending.value.frame in seen.shelf.frames <==> d.pending.value.frame in d.shelf.frames))
      && (d.Valid() && d.pending.None? ==> (d.shelf.nextFrame in seen.shelf.frames <==> d.shelf.nextFrame !in input.evictable))
  {
  }

  /** What any tick keeps, however it goes. */
  predicate TickKeeps(d: Desk, input: TickInput, l: Limits, e: Desk, o: TickOutcome) {
    && (e.Valid() || e.Leaked()) && (d.Leaked() ==> e.Leaked() && e.ledger.reserved == d.ledger.reserved)
    && (d.Valid() && !input.submission.BindingRaises? ==> e.Valid())
    && (d.Retained() ==> e.Retained())
    && (o.Returned? && (d.lastFrame.None? || d.lastFrame.value < input.now) && e.pending.Some? ==>
          input.safetyContinues && input.now - e.pending.value.ticket.submitted < l.timeout)
    && (d.lastFrame.Some? && input.now <= d.lastFrame.value ==> e == d && (o.Raised? <==> input.now < d.lastFrame.value))
    && (e.pending.Some? && e.pending != d.pending ==> SubmittedBy(input, e.pending.value, d.shelf.nextFrame))
    && (forall id | id in d.submitted :: id in e.submitted && e.submitted[id] == d.submitted[id])
    && e.lastFrame == (if d.Reaches(input) then Some(input.now) else d.lastFrame)
  }

  /** What a tick leaves on record: the answer to the pending review, or the result drained in its absence. */
  ghost predicate TickRecords(d: Desk, input: TickInput, l: Limits, e: Desk) {
    && d.closures <= e.closures && |e.closures| <= |d.closures| + 2
    && AcceptsOnly(e.records, |d.records|, d.pending, input, l.maxResultAge) && d.records <= e.records
    && (d.Reaches(input) && input.safetyContinues && d.pending.Some? ==>
          var (p, kept) := (d.pending.value, d.pending.value.frame in d.shelf.frames);
          var cause := AnswerCause(p, input.polled, input.now, l.timeout);
          && (cause.None? ==> e.pending == d.pending)
          && (cause.Some? ==> |e.closures| > |d.closures|
                              && e.closures[|d.closures|] == Closure(p.ticket.request, cause.value)
                              && (e.pending.Some? ==> e.pending.value.ticket.request != p.ticket.request))
          && d.records + AnswerRecords(p, input.polled, input.context, input.now, l.maxResultAge, l.timeout, kept)
               <= e.records)
    && (d.Reaches(input) && !input.safetyContinues ==>
          && e.pending.None?
          && e.closures == d.closures + (if d.pending.Some? then [Closure(d.pending.value.ticket.request, Aborted)] else [])
          && e.records == d.records + if d.pending.Some? then [Failed(d.pending.value.ticket.request, Aborted)] else [])
    && (d.pending.None? && d.Valid() && d.Reaches(input) ==>
          && (e.pending.Some? <==>
                input.safetyContinues && Reserves(input, d.ledger.last, d.ledger.cooldownUntil)
                && d.shelf.nextFrame !in input.evictable && input.submission.Submitted?)
          && (e.records == if input.safetyContinues && input.drained.Arrived?
                              && Drains(input, d.ledger.last, d.ledger.cooldownUntil)
                           then d.records + [Orphan(input.drained.result.request)] else d.records))
  }

  lemma TickedKeeps(d: Desk, input: TickInput, l: Limits)
    requires (d.Valid() || d.Leaked()) && l.timeout > 0.0
    ensures TickKeeps(d, input, l, d.TickedOn(input, l).desk, d.TickedOn(input, l).outcome)
  {
    if d.Reaches(input) {
      FrameSeen(d, input);
      var seen := d.(shelf := d.shelf.Added(input.evictable), lastFrame := Some(input.now));
      if input.safetyContinues {
        FrameReviewedMeans(seen, d.shelf.nextFrame, input, l);
      } else {
        AbortedMeans(seen, Some(input.now), input.evictable, l);
      }
    }
  }

  lemma TickedRecords(d: Desk, input: TickInput, l: Limits)
    requires (d.Valid() || d.Leaked()) && l.timeout > 0.0
    ensures TickRecords(d, input, l, d.TickedOn(input, l).desk)
  {
    if d.Reaches(input) {
      FrameSeen(d, input);
      var seen := d.(shelf := d.shelf.Added(input.evictable), lastFrame := Some(input.now));
      if input.safetyContinues {
        FrameReviewedMeans(seen, d.shelf.nextFrame, input, l);
        FrameReviewedRecords(seen, d.shelf.nextFrame, input, l);
      } else {
        AbortedMeans(seen, Some(input.now), input.evictable, l);
      }
    }
  }

  // ------------------------------------------------------------- whole runs

  /** Every accepted review on record was answered in the first n steps, under its own mission, version, step and target. */
  ghost predicate Accounted(records: seq<Record>, submitted: map<nat, Pending>, steps: seq<Step>, n: nat, maxAge: real)
    requires n <= |steps|
  {
    forall k | 0 <= k < |records| && records[k].Finished? && records[k].accepted ::
      && records[k].request in submitted
      && exists i: nat :: i < n && AcceptedAt(steps, i, submitted[records[k].request], maxAge)
  }

  predicate AcceptedAt(steps: seq<Step>, i: nat, p: Pending, maxAge: real) {
    i < |steps| && steps[i].Ticked? && AcceptedBy(steps[i].input, p, maxAge)
  }

  /** What one step may do to the records: it forgets them, or adds only reviews accepted by its own tick. */
  ghost predicate Recorded(d: Desk, e: Desk, s: Step, maxAge: real) {
    && (d.pending.Some? ==> d.pending.value.ticket.request in d.submitted
                            && d.submitted[d.pending.value.ticket.request] == d.pending.value)
    && (forall id | id in d.submitted :: id in e.submitted && e.submitted[id] == d.submitted[id])
    && (e.records == [] ||
        (d.records <= e.records &&
         forall k | |d.records| <= k < |e.records| && e.records[k].Finished? && e.records[k].accepted ::
           s.Ticked? && d.pending.Some? && e.records[k].request == d.pending.value.ticket.request
           && AcceptedBy(s.input, d.pending.value, maxAge)))
  }

  lemma AccountedNext(d: Desk, e: Desk, steps: seq<Step>, i: nat, maxAge: real)
    requires i < |steps| && Accounted(d.records, d.submitted, steps, i, maxAge) && Recorded(d, e, steps[i], maxAge)
    ensures Accounted(e.records, e.submitted, steps, i + 1, maxAge)
  {
    forall k | 0 <= k < |e.records| && e.records[k].Finished? && e.records[k].accepted
      ensures e.records[k].request in e.submitted
      ensures exists j: nat :: j < i + 1 && AcceptedAt(steps, j, e.submitted[e.records[k].request], maxAge)
    {
      if k < |d.records| {
        assert e.records[k] == d.records[k];
      } else {
        assert AcceptedAt(steps, i, e.submitted[e.records[k].request], maxAge);
      }
    }
  }

  /** A ticket leaks only where putting together a pending record raises, and then for good. */
  lemma AfterKeeps(d: Desk, s: Step, l: Limits)
    requires (d.Valid() || d.Leaked()) && l.timeout > 0.0
    ensures var e := d.After(s, l);
      && (e.Valid() || e.Leaked()) && (d.Valid() && e.Leaked() ==> BindingFailed(s))
      && (d.Leaked() ==> e.Leaked() && e.ledger.reserved == d.ledger.reserved)
      && (d.Retained() && s != StoreCleared ==> e.Retained())
  {
    match s
    case Ticked(input) => TickedKeeps(d, input, l);
    case AbortCalled(timestamp) => AbortedMeans(d, timestamp, {}, l);
    case ResetCalled => ForgottenMeans(d, l);
    case StoreCleared =>
  }

  lemma AfterRecorded(d: Desk, s: Step, l: Limits)
    requires (d.Valid() || d.Leaked()) && l.timeout > 0.0
    ensures Recorded(d, d.After(s, l), s, l.maxResultAge)
  {
    match s
    case Ticked(input) =>
      TickedKeeps(d, input, l);
      TickedRecords(d, input, l);
    case AbortCalled(timestamp) => AbortedMeans(d, timestamp, {}, l);
    case ResetCalled => ForgottenMeans(d, l);
    case StoreCleared =>
  }

  /** Over the first n steps of any run. */
  lemma {:induction false} RunKeeps(d: Desk, steps: seq<Step>, n: nat, l: Limits)
    requires d.Valid() && l.timeout > 0.0 && n <= |steps|
    ensures var e := d.AfterAll(steps, n, l);
      && (e.Valid() || e.Leaked()) && (e.Leaked() ==> exists i :: 0 <= i < n && BindingFailed(steps[i]))
      && (d.Retained() && StoreCleared !in steps ==> e.Retained())
  {
    if n > 0 {
      RunKeeps(d, steps, n - 1, l);
      AfterKeeps(d.AfterAll(steps, n - 1, l), steps[n - 1], l);
    }
  }

  lemma {:induction false} RunAccounted(d: Desk, steps: seq<Step>, n: nat, l: Limits)
    requires d.Valid() && d.records == [] && l.timeout > 0.0 && n <= |steps|
    ensures var e := d.AfterAll(steps, n, l); Accounted(e.records, e.submitted, steps, n, l.maxResultAge)
  {
    if n > 0 {
      var before := d.AfterAll(steps, n - 1, l);
      RunKeeps(d, steps, n - 1, l);
      RunAccounted(d, steps, n - 1, l);
      AfterRecorded(before, steps[n - 1], l);
      AccountedNext(before, before.After(steps[n - 1], l), steps, n - 1, l.maxResultAge);
    }
  }

  /**
   Should a ticket ever leak, nothing but a new coordinator helps: whatever is
   called afterwards, nothing is reserved again and every reset is refused.
   */
  lemma {:induction false} LeakIsPermanent(d: Desk, steps: seq<Step>, n: nat, l: Limits)
    requires d.Leaked() && l.timeout > 0.0 && n <= |steps|
    ensures var e := d.AfterAll(steps, n, l);
      e.Leaked() && e.ledger.reserved == d.ledger.reserved && e.Forgotten(l) == e
  {
    if n > 0 {
      LeakIsPermanent(d, steps, n - 1, l);
      AfterKeeps(d.AfterAll(steps, n - 1, l), steps[n - 1], l);
    }
    ForgottenMeans(d.AfterAll(steps, n, l), l);
  }

  class VisualReviewCoordinator {
    const scheduler: ReviewScheduler
    const store: FrameStore
    const timeout: real
    const maxResultAge: real
    var pending: Option<Pending>
    var lastFrame: Option<real>
    var records: seq<Record>
    var staleCount: nat
    ghost var closures: seq<Closure>
    ghost var submitted: map<nat, Pending>     // every review ever submitted, by request

    function Limited(): Limits { Limits(scheduler.cooldown, timeout, maxResultAge) }

    ghost function Now(): Desk
      reads this, scheduler, store
    {
      Desk(scheduler.Now(), store.Now(), pending, lastFrame, records, staleCount, closures, submitted)
    }

    ghost predicate Valid()
      reads this, scheduler, store
    {
      timeout > 0.0 && Now().Valid()
    }

    ghost predicate Leaked()
      reads this, scheduler, store
    {
      timeout > 0.0 && Now().Leaked()
    }

    constructor (scheduler: ReviewScheduler, store: FrameStore, timeout: real, maxResultAge: real)
      requires scheduler.Valid() && scheduler.reserved == [] && scheduler.inflight.None?
      requires store.Valid() && store.pins == map[] && timeout > 0.0
      ensures Valid() && this.scheduler == scheduler && this.store == store && closures == [] && pending.None?
      ensures records == [] && lastFrame.None? && this.timeout == timeout && this.maxResultAge == maxResultAge
    {
      this.scheduler, this.store, this.timeout, this.maxResultAge := scheduler, store, timeout, maxResultAge;
      pending, lastFrame, records, staleCount, closures, submitted := None, None, [], 0, [], map[];
    }

    /** The end of the pending review: the ticket, and the frame unless an explicit clear has already dropped its pin. */
    method Close(now: real, cause: Cause, record: Record, evictable: set<nat>)
      requires scheduler.Valid() && store.Valid() && pending.Some?
      modifies this, scheduler, store`frames, store`pins
      ensures scheduler.Valid() && store.Valid() && Now() == old(Now()).Closed(now, cause, record, evictable, Limited())
    {
      var p := pending.value;
      var ok := scheduler.Finish(p.ticket.request, p.ticket.review, now);
      if p.frame in store.frames {
        ok := store.Unpin(p.frame, evictable);
      }
      pending, records, closures := None, records + [record], closures + [Closure(p.ticket.request, cause)];
    }

    /** `_finish_pending_with_error`. */
    method FinishWithError(now: real, cause: Cause, evictable: set<nat>)
      requires Valid() && pending.Some? && now >= pending.value.ticket.submitted
      modifies this, scheduler, store`frames, store`pins
      ensures Valid() && pending.None? && Now() == old(Now()).Erred(now, cause, evictable, Limited())
      ensures closures == old(closures) + [Closure(old(pending).value.ticket.request, cause)]
      ensures records == old(records) + [Failed(old(pending).value.ticket.request, cause)]
    {
      ClosedValid(Now(), now, cause, Failed(pending.value.ticket.request, cause), evictable, Limited());
      Close(now, cause, Failed(pending.value.ticket.request, cause), evictable);
    }

    /** `abort_pending`. */
    method AbortPending(timestamp: Option<real>, evictable: set<nat>)
      requires Valid() || Leaked()
      modifies this, scheduler, store`frames, store`pins
      ensures Now() == old(Now()).AbortedAt(timestamp, evictable, Limited())
      ensures pending.None? && if old(Valid()) then Valid() else Leaked()
      ensures old(pending).Some? ==>
        && closures == old(closures) + [Closure(old(pending).value.ticket.request, Aborted)]
        && records == old(records) + [Failed(old(pending).value.ticket.request, Aborted)]
    {
      AbortedMeans(Now(), timestamp, evictable, Limited());
      if pending.None? {
        return;
      }
      var selected := if timestamp.Some? then timestamp else lastFrame;
      var now := MaxReal(pending.value.ticket.submitted, if selected.Some? then selected.value else 0.0);
      FinishWithError(now, Aborted, evictable);
    }

    /**
     `_poll_result`.  Only a result that owns the request, or a failing worker,
     closes it; any other result is logged as an orphan.
     */
    method PollResult(polled: Polled, c: Context, now: real, evictable: set<nat>) returns (failed: bool)
      requires Valid() && (pending.Some? ==> now >= pending.value.ticket.submitted)
      modifies this, scheduler, store`frames, store`pins
      ensures Valid() && Now() == old(Now()).PolledOn(polled, c, now, evictable, Limited())
      ensures failed <==> old(pending).Some? && polled.WorkerRaised?
      ensures old(pending).Some? ==>
        && (pending.None? <==> polled.WorkerRaised? || (polled.Arrived? && Owns(polled.result, old(pending).value)))
        && records == old(records) + PollRecords(old(pending).value, polled, c, now, maxResultAge,
                                                 old(pending.value.frame in store.frames))
    {
      PolledValid(Now(), polled, c, now, evictable, Limited());
      if pending.None? {
        return false;
      }
      var p := pending.value;
      if polled.WorkerRaised? {
        FinishWithError(now, PollFailed, evictable);
        return true;
      }
      if polled.Nothing? {
        return false;
      }
      var r := polled.result;
      if r.workerStale || r.request != p.ticket.request || r.review != p.ticket.review {
        staleCount, records := staleCount + 1, records + [Orphan(r.request)];
        return false;
      }
      var reasons := StaleReasons(r, p, c, now, maxResultAge, p.frame in store.frames);
      var stale := reasons != {};
      var accepted := !stale && r.content.Reviewed? && r.content.accepted;
      if stale {
        staleCount := staleCount + 1;
      }
      Close(now, Completed, Finished(p.ticket.request, stale, accepted), evictable);
      return false;
    }

    /** `_handle_timeout`. */
    method HandleTimeout(now: real, evictable: set<nat>) returns (timedOut: bool)
      requires Valid() && (pending.Some? ==> now >= pending.value.ticket.submitted)
      modifies this, scheduler, store`frames, store`pins
      ensures Valid() && Now() == old(Now()).ExpiredAt(now, evictable, Limited())
      ensures timedOut <==> old(pending).Some? && now - old(pending).value.ticket.submitted >= timeout
      ensures timedOut ==>
        && pending.None? && closures == old(closures) + [Closure(old(pending).value.ticket.request, TimedOut)]
        && records == old(records) + [Failed(old(pending).value.ticket.request, TimedOut)]
    {
      if pending.None? || now - pending.value.ticket.submitted < timeout {
        return false;
      }
      FinishWithError(now, TimedOut, evictable);
      return true;
    }

    /** `_drain_orphan_result`; the worker's exception is not caught here. */
    method DrainOrphan(polled: Polled) returns (o: TickOutcome)
      modifies `records, `staleCount
      ensures End(Now(), o) == old(Now()).Drained(polled)
    {
      if pending.Some? || polled.Nothing? {
        return Returned;
      }
      if polled.WorkerRaised? {
        return Raised;
      }
      staleCount, records := staleCount + 1, records + [Orphan(polled.result.request)];
      return Returned;
    }

    /**
     The reservation transaction at the end of `tick`.  A failure inside it
     releases the ticket and the pin.  `BindingRaises` is the assumption that
     putting together the pending record, after the transaction, may raise too;
     only that leaks them.
     */
    method SubmitReserved(ticket: Ticket, frame: nat, input: TickInput) returns (o: TickOutcome)
      requires scheduler.Valid() && store.Valid() && input.context.step.Some?
      modifies this, scheduler, store`frames, store`pins
      ensures scheduler.Valid() && store.Valid() && End(Now(), o) == old(Now()).Committed(ticket, frame, input, Limited())
    {
      var pinned := false;
      var failed := true;
      if frame in store.frames && !input.submission.BuildRaises? {
        pinned := store.Pin(frame);
        failed := input.submission.WorkerRefuses? || input.submission.HoverRaises?;
      }
      if failed {
        if pinned {
          var ok := store.Unpin(frame, input.evictable);
        }
        var ok := scheduler.Finish(ticket.request, ticket.review, input.now);
        closures := closures + [Closure(ticket.request, SubmitFailed)];
        return Raised;
      }
      if input.submission.BindingRaises? {
        return Raised;
      }
      pending := Some(Pending(ticket, frame, input.now, input.context.step.value, input.context.target));
      submitted := submitted[ticket.request := pending.value];
      return Returned;
    }

    /** The two ways a tick can answer the pending request; `stop` ends the tick. */
    method Answer(input: TickInput) returns (stop: bool)
      requires Valid() && pending.Some? && lastFrame == Some(input.now)
      modifies this, scheduler, store`frames, store`pins
      ensures Valid() && Now() == old(Now()).Answered(input, Limited())
      ensures stop <==> old(Now()).Stops(input, Limited())
    {
      var failed := PollResult(input.polled, input.context, input.now, input.evictable);
      var timedOut := HandleTimeout(input.now, input.evictable);
      stop := failed || timedOut;
    }

    /** What `tick` does with a new frame once safety lets it continue. */
    method ReviewFrame(frame: nat, input: TickInput) returns (o: TickOutcome)
      requires (Valid() || Leaked()) && lastFrame == Some(input.now) && frame < store.nextFrame
      modifies this, scheduler, store`frames, store`pins
      ensures End(Now(), o) == old(Now()).FrameReviewed(frame, input, Limited())
    {
      if pending.Some? {
        var stop := Answer(input);
        if stop {
          return Returned;
        }
      }
      o := Consider(frame, input);
    }

    /** With the pending review answered, or still waiting. */
    method Consider(frame: nat, input: TickInput) returns (o: TickOutcome)
      requires scheduler.Valid() && store.Valid()
      modifies this, scheduler, store`frames, store`pins
      ensures End(Now(), o) == old(Now()).Considered(frame, input, Limited())
    {
      if input.paused {
        return Returned;
      }
      if pending.Some? || !input.reviewable {
        o := DrainOrphan(input.drained);
        return;
      }
      if input.context.step.None? {
        return Raised;
      }
      if !input.candidateReady {
        o := DrainOrphan(input.drained);
        return;
      }
      o := ReserveAndSubmit(frame, input);
    }

    /** At most one reservation, and only when none is in flight. */
    method ReserveAndSubmit(frame: nat, input: TickInput) returns (o: TickOutcome)
      requires scheduler.Valid() && store.Valid() && input.context.step.Some?
      modifies this, scheduler, store`frames, store`pins
      ensures End(Now(), o) == old(Now()).Booked(frame, input, Limited())
    {
      var d := scheduler.Schedule(input.context.mission, input.context.version, input.now, input.triggered, input.blocking);
      match d
      case Backwards => o := Raised;
      case Scheduled(ticket) => o := SubmitReserved(ticket, frame, input);
      case _ => o := DrainOrphan(input.drained);
    }

    /** `tick`. */
    method Tick(input: TickInput) returns (o: TickOutcome)
      requires Valid() || Leaked()
      modifies this, scheduler, store
      ensures (Valid() || Leaked()) && End(Now(), o) == old(Now()).TickedOn(input, Limited())
      ensures TickKeeps(old(Now()), input, Limited(), Now(), o) && TickRecords(old(Now()), input, Limited(), Now())
    {
      TickedKeeps(Now(), input, Limited());
      TickedRecords(Now(), input, Limited());
      o := TickNow(input);
    }

    /** The steps of a tick. */
    method TickNow(input: TickInput) returns (o: TickOutcome)
      requires Valid() || Leaked()
      modifies this, scheduler, store
      ensures End(Now(), o) == old(Now()).TickedOn(input, Limited())
    {
      if lastFrame.Some? && input.now <= lastFrame.value {
        return if input.now == lastFrame.value then Returned else Raised;
      }
      if input.storeRaises {
        return Raised;
      }
      FrameSeen(Now(), input);
      var frame := store.AddFrame(input.evictable);
      lastFrame := Some(input.now);
      if !input.safetyContinues {
        if pending.Some? {
          AbortPending(Some(input.now), input.evictable);
        }
        return Returned;
      }
      o := ReviewFrame(frame, input);
    }

    /** `reset`; refused, as the scheduler's own reset is, exactly when a ticket has leaked. */
    method Reset() returns (ok: bool)
      requires Valid() || Leaked()
      modifies this, scheduler, store
      ensures Now() == old(Now()).Forgotten(Limited())
      ensures ok <==> !old(Leaked())
      ensures if ok then Valid() && pending.None? && lastFrame.None? && store.frames == {} && records == [] else Leaked()
    {
      ForgottenMeans(Now(), Limited());
      if pending.Some? {
        var p := pending.value;
        var completion := MaxReal(p.ticket.submitted, if lastFrame.Some? then lastFrame.value else 0.0);
        var finished := scheduler.Finish(p.ticket.request, p.ticket.review, completion);
        pending, closures := None, closures + [Closure(p.ticket.request, WasReset)];
      }
      ok := scheduler.Reset();
      if !ok {
        return;
      }
      store.Clear();
      records, lastFrame, staleCount := [], None, 0;
    }
  }

  /**
   Any run of ticks, aborts, resets and outside clears of the frame store.
   Every reservation has been released exactly once, in order, except the
   outstanding one; that one belongs to the pending review, whose frame has
   survived every eviction, unless putting together a pending record has raised.
   */
  method Run(c: VisualReviewCoordinator, steps: seq<Step>)
    requires c.Valid()
    modifies c, c.scheduler, c.store
    ensures c.Now() == old(c.Now()).AfterAll(steps, |steps|, c.Limited())
    ensures c.Valid() || c.Leaked()
    ensures c.Leaked() ==> exists i :: 0 <= i < |steps| && BindingFailed(steps[i])
    ensures c.Valid() ==> (c.pending.Some? <==> c.scheduler.inflight.Some?)
    ensures c.scheduler.reserved == Requests(c.closures) +
      (if c.scheduler.inflight.Some? then [c.scheduler.inflight.value.request] else [])
    ensures forall i, j | 0 <= i < j < |c.scheduler.reserved| :: c.scheduler.reserved[i] != c.scheduler.reserved[j]
    ensures old(c.Now()).Retained() && StoreCleared !in steps ==> c.Now().Retained()
    ensures old(c.records) == [] ==> Accounted(c.records, c.submitted, steps, |steps|, c.maxResultAge)
  {
    PlaySteps(c, steps);
    RunKeeps(old(c.Now()), steps, |steps|, c.Limited());
    if old(c.records) == [] {
      RunAccounted(old(c.Now()), steps, |steps|, c.Limited());
    }
  }

  method PlaySteps(c: VisualReviewCoordinator, steps: seq<Step>)
    requires c.Valid()
    modifies c, c.scheduler, c.store
    ensures c.Valid() || c.Leaked()
    ensures c.Now() == old(c.Now()).AfterAll(steps, |steps|, c.Limited())
  {
    for i := 0 to |steps|
      invariant (c.Valid() || c.Leaked()) && c.Now() == old(c.Now()).AfterAll(steps, i, c.Limited())
    {
      OneStep(c, steps[i]);
    }
  }

  method OneStep(c: VisualReviewCoordinator, s: Step)
    requires c.Valid() || c.Leaked()
    modifies c, c.scheduler, c.store
    ensures (c.Valid() || c.Leaked()) && c.Now() == old(c.Now()).After(s, c.Limited())
  {
    AfterKeeps(c.Now(), s, c.Limited());
    match s
    case Ticked(input) =>
      var o := c.Tick(input);
    case AbortCalled(timestamp) =>
      c.AbortPending(timestamp, {});
    case ResetCalled =>
      var ok := c.Reset();
    case StoreCleared =>
      c.store.Clear();
  }
}

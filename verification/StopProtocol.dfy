/** Stopping an execution: the status row, the worker that runs the job and the requests that stop it.
    Every read and every write of the row is one atomic step; everything between two of them interleaves freely. */
module StopProtocol {

  datatype Status = Pending | Running | Completed | Failed | Canceled

  /** Where the worker stands. `Waiting` is for a delivery of the job; `PickedUp` has read the row and will mark it as
      running; `Deciding` will read the row before the next node; `Executing` has passed that check; `Concluding` will
      write the outcome of the run and `Stopping` will write canceled; `Failing` is in the outer catch block, will
      write failed and hand the job back to the queue. */
  datatype Worker =
    | Waiting | PickedUp | Preparing | Deciding | Executing
    | Concluding(success: bool) | Stopping | Failing | Gone

  /** `deliveries` counts how often the queue may still deliver the job, `stops` the stop requests that read a status
      they may cancel and have not written yet; `starts` and `finished` count the nodes that passed the start check
      and those that ran to their end. */
  datatype System = System(row: Status, worker: Worker, deliveries: nat, stops: nat, starts: nat, finished: nat)

  datatype Event =
    | PickUp | MarkRunning
    | Prepare | FailToPrepare | WorkflowMissing
    | StartNode | FinishNode | Conclude(success: bool) | WriteOutcome
    | ReadForStop | WriteCanceled
    | LoseAccess  // the worker's next access to the row throws

  /** The queue delivers a job up to three times. */
  const START := System(Pending, Waiting, 3, 0, 0, 0)

  predicate IsFinal(status: Status) {
    status.Completed? || status.Failed? || status.Canceled?
  }

  /** The job has thrown: the queue delivers it again while it may. */
  function Rethrow(s: System): System {
    s.(worker := if s.deliveries > 0 then Waiting else Gone)
  }

  /** One atomic step; an event that is not possible now changes nothing. */
  function Step(s: System, e: Event): System {
    match (e, s.worker)
    case (PickUp, Waiting) =>
      if s.deliveries == 0 then s
      else s.(deliveries := s.deliveries - 1, worker := if s.row.Canceled? then Gone else PickedUp)
    case (MarkRunning, PickedUp) => s.(row := Running, worker := Preparing)
    case (Prepare, Preparing) => s.(worker := Deciding)
    case (FailToPrepare, Preparing) => s.(worker := Failing)
    case (WorkflowMissing, Preparing) => s.(worker := Stopping)
    // the error of a refused start is caught by the engine, whose result is a failed run
    case (StartNode, Deciding) =>
      if s.row.Canceled? then s.(worker := Concluding(false)) else s.(worker := Executing, starts := s.starts + 1)
    case (FinishNode, Executing) => s.(worker := Deciding, finished := s.finished + 1)
    case (Conclude(success), Executing) => s.(worker := Concluding(success), finished := s.finished + 1)
    case (Conclude(success), Deciding) => s.(worker := Concluding(success))
    case (WriteOutcome, Concluding(success)) => s.(row := if success then Completed else Failed, worker := Gone)
    case (WriteOutcome, Stopping) => s.(row := Canceled, worker := Gone)
    case (WriteOutcome, Failing) => Rethrow(s.(row := Failed))
    case (ReadForStop, _) => if IsFinal(s.row) then s else s.(stops := s.stops + 1)
    case (WriteCanceled, _) => if s.stops > 0 then s.(row := Canceled, stops := s.stops - 1) else s
    case (LoseAccess, Waiting) => if s.deliveries == 0 then s else Rethrow(s.(deliveries := s.deliveries - 1))
    case (LoseAccess, PickedUp) => Rethrow(s)
    case (LoseAccess, Deciding) => s.(worker := Concluding(false))
    case (LoseAccess, Concluding(_)) => s.(worker := Failing)
    case (LoseAccess, Stopping) => Rethrow(s)
    case (LoseAccess, Failing) => Rethrow(s)
    case _ => s
  }

  function Exec(s: System, events: seq<Event>): System {
    if |events| == 0 then s else Step(Exec(s, events[..|events| - 1]), events[|events| - 1])
  }

  /** Every access of the worker to the row succeeds. */
  predicate Reliable(events: seq<Event>) {
    LoseAccess !in events
  }

  lemma Then(s: System, events: seq<Event>, e: Event) returns (longer: seq<Event>)
    ensures Exec(s, longer) == Step(Exec(s, events), e)
    ensures Reliable(events) && e != LoseAccess ==> Reliable(longer)
  {
    longer := events + [e];
    assert longer[..|events|] == events;
  }

  // ----- when can a node start after a cancel

  /** The worker is about to overwrite the row without looking at it and to go on to the nodes. */
  ghost predicate MayStart(s: System, reliable: bool) {
    || s.worker.PickedUp?
    || (s.deliveries > 0 &&
         (s.worker.Preparing? || s.worker.Failing? ||
           (!reliable && (s.worker.Deciding? || s.worker.Executing? || s.worker.Concluding?))))
  }

  /** No node starts any more: the row says canceled and nothing leads around it, or no delivery is left at all. */
  ghost predicate Stopped(s: System, reliable: bool) {
    || (s.row.Canceled? && !MayStart(s, reliable))
    || s.worker.Gone?
  }

  ghost predicate StillStopped(s: System, r: System, reliable: bool) {
    && Stopped(r, reliable) && r.starts == s.starts
    && r.finished + (if r.worker.Executing? then 1 else 0) <= s.finished + (if s.worker.Executing? then 1 else 0)
  }

  lemma StoppedStep(s: System, e: Event, reliable: bool)
    requires Stopped(s, reliable) && (reliable ==> e != LoseAccess)
    ensures StillStopped(s, Step(s, e), reliable)
  {
  }

  lemma {:induction false} StoppedStays(s: System, events: seq<Event>, reliable: bool)
    requires Stopped(s, reliable) && (reliable ==> Reliable(events))
    ensures StillStopped(s, Exec(s, events), reliable)
  {
    if |events| > 0 {
      var init, e := events[..|events| - 1], events[|events| - 1];
      assert reliable ==> e in events && Reliable(init);
      hide Step;
      StoppedStays(s, init, reliable);
      StoppedStep(Exec(s, init), e, reliable);
    }
  }

  /** After `events` the worker is on its way to the nodes with the row overwritten, or about to overwrite it. */
  lemma GoOn(s: System, events: seq<Event>) returns (longer: seq<Event>)
    requires var t := Exec(s, events);
      || t.worker.PickedUp?
      || (t.deliveries > 0 && (t.worker.Failing? || (t.worker.Waiting? && !t.row.Canceled?)))
    ensures Exec(s, longer).starts == Exec(s, events).starts + 1
    ensures Reliable(events) ==> Reliable(longer)
  {
    hide Exec;
    hide Reliable;
    longer := events;
    if Exec(s, longer).worker.Failing? { longer := Then(s, longer, WriteOutcome); }
    if Exec(s, longer).worker.Waiting? { longer := Then(s, longer, PickUp); }
    longer := Then(s, longer, MarkRunning);
    longer := Then(s, longer, Prepare);
    longer := Then(s, longer, StartNode);
  }

  /** The worker can come to its outer catch block without starting another node. */
  lemma ComeToFail(s: System) returns (events: seq<Event>)
    requires !(s.worker.Waiting? || s.worker.PickedUp? || s.worker.Stopping? || s.worker.Gone?)
    ensures var t := Exec(s, events); t.worker.Failing? && t.deliveries == s.deliveries && t.starts == s.starts
    ensures s.worker.Preparing? || s.worker.Failing? ==> Reliable(events)
  {
    events := [];
    assert Exec(s, []) == s && Reliable([]);
    hide Exec;
    hide Reliable;
    if s.worker.Preparing? {
      events := Then(s, events, FailToPrepare);
    } else if !s.worker.Failing? {
      if !s.worker.Concluding? { events := Then(s, events, Conclude(false)); }
      events := Then(s, events, LoseAccess);
    }
  }

  /** From such a state a run starts a node. */
  lemma LostCancel(s: System, reliable: bool) returns (events: seq<Event>)
    requires s.row.Canceled? && MayStart(s, reliable)
    ensures Exec(s, events).starts == s.starts + 1
    ensures reliable ==> Reliable(events)
  {
    assert Exec(s, []) == s && Reliable([]);
    hide Exec;
    hide Reliable;
    hide Step;
    if s.worker.PickedUp? {
      events := GoOn(s, []);
    } else {
      events := ComeToFail(s);
      events := GoOn(s, events);
    }
  }

  /** Once canceled stands in the row, no node passes its start check any more in any interleaving, and at most the one
      whose check had passed still runs. While the worker can reach the row, this holds exactly unless it has read the
      row and not yet marked it as running, or can still fail to prepare the run and be handed the job again. */
  lemma NoStartAfterCancel(s: System)
    requires s.row.Canceled?
    ensures (forall events | Reliable(events) :: Exec(s, events).starts == s.starts)
       <==> !(s.worker.PickedUp? || (s.deliveries > 0 && (s.worker.Preparing? || s.worker.Failing?)))
    ensures !MayStart(s, true) ==> forall events | Reliable(events) :: Exec(s, events).finished <= s.finished + 1
  {
    if MayStart(s, true) {
      var events := LostCancel(s, true);
      assert Reliable(events) && Exec(s, events).starts != s.starts;
    } else {
      forall events | Reliable(events)
        ensures Exec(s, events).starts == s.starts && Exec(s, events).finished <= s.finished + 1
      {
        StoppedStays(s, events, true);
      }
    }
  }

  /** When accesses to the row may fail, a cancel holds exactly if the worker waits for the job, is about to write
      canceled itself or has left, or if no delivery is left and the row is already marked as running. */
  lemma NoStartAfterCancelUnreliably(s: System)
    requires s.row.Canceled?
    ensures (forall events :: Exec(s, events).starts == s.starts)
       <==> || s.worker.Waiting? || s.worker.Stopping? || s.worker.Gone?
            || (s.deliveries == 0 && !s.worker.PickedUp?)
    ensures !MayStart(s, false) ==> forall events :: Exec(s, events).finished <= s.finished + 1
  {
    if MayStart(s, false) {
      var events := LostCancel(s, false);
      assert Exec(s, events).starts != s.starts;
    } else {
      forall events ensures Exec(s, events).starts == s.starts && Exec(s, events).finished <= s.finished + 1 {
        StoppedStays(s, events, false);
      }
    }
  }

  /** A complete stop request, after which a node starts although every access to the row succeeds. */
  ghost predicate StartsAfterCancel(before: seq<Event>, later: seq<Event>) {
    var s := Exec(START, before);
    && Reliable(before) && Reliable(later)
    && s.row.Canceled? && s.starts == 0 && Exec(s, later).starts == 1
  }

  /** The first gap is hit: the stop request falls between the worker's read and its write of running. */
  lemma LostCancelIsReachable()
    ensures exists before, later :: StartsAfterCancel(before, later) && Exec(START, before).worker.PickedUp?
  {
    assert Exec(START, []) == START && Reliable([]);
    hide Exec;
    hide Reliable;
    var before := Then(START, [], PickUp);
    before := Then(START, before, ReadForStop);
    before := Then(START, before, WriteCanceled);
    var later := LostCancel(Exec(START, before), true);
    assert StartsAfterCancel(before, later) && Exec(START, before).worker.PickedUp?;
  }

  /** So is the second: a preparation that fails after the cancel writes failed over it, and the job is repeated. */
  lemma RepeatedCancelIsReachable()
    ensures exists before, later :: StartsAfterCancel(before, later) && Exec(START, before).worker.Preparing?
  {
    assert Exec(START, []) == START && Reliable([]);
    hide Exec;
    hide Reliable;
    var before := Then(START, [], PickUp);
    before := Then(START, before, MarkRunning);
    before := Then(START, before, ReadForStop);
    before := Then(START, before, WriteCanceled);
    var later := LostCancel(Exec(START, before), true);
    assert StartsAfterCancel(before, later) && Exec(START, before).worker.Preparing?;
  }

  // ----- when is canceled the last word

  /** The worker waits for a job it will then drop, is about to write canceled itself, or has left. */
  predicate Settled(s: System) {
    s.worker.Waiting? || s.worker.Stopping? || s.worker.Gone?
  }

  lemma {:induction false} SettledStays(s: System, events: seq<Event>)
    requires s.row.Canceled? && Settled(s)
    ensures Exec(s, events).row.Canceled? && Settled(Exec(s, events))
  {
    if |events| > 0 { SettledStays(s, events[..|events| - 1]); }
  }

  /** From every other state the row is overwritten, even if every access succeeds. */
  lemma Overwritten(s: System) returns (events: seq<Event>)
    requires !Settled(s)
    ensures Reliable(events) && !Exec(s, events).row.Canceled?
  {
    events := [];
    assert Exec(s, []) == s && Reliable([]);
    hide Exec;
    hide Reliable;
    if s.worker.PickedUp? {
      events := Then(s, events, MarkRunning);
    } else {
      if s.worker.Preparing? {
        events := Then(s, events, FailToPrepare);
      } else if s.worker.Deciding? || s.worker.Executing? {
        events := Then(s, events, Conclude(false));
      }
      events := Then(s, events, WriteOutcome);
    }
  }

  /** A cancel is the last word, whatever happens, exactly in these states; it makes no difference whether accesses to
      the row may fail. */
  lemma CancelLasts(s: System)
    requires s.row.Canceled?
    ensures (forall events :: Exec(s, events).row.Canceled?) <==> Settled(s)
    ensures (forall events | Reliable(events) :: Exec(s, events).row.Canceled?) <==> Settled(s)
  {
    if Settled(s) {
      forall events ensures Exec(s, events).row.Canceled? { SettledStays(s, events); }
    } else {
      var events := Overwritten(s);
      assert Reliable(events) && !Exec(s, events).row.Canceled?;
    }
  }

  /** The engine is running the canceled execution, and no stop request is under way. */
  ghost predicate CanceledUnderway(s: System) {
    && s.stops == 0
    && if s.worker.Gone? then s.row.Completed? || s.row.Failed?
       else s.row.Canceled? && (s.worker.Deciding? || s.worker.Executing? || s.worker.Concluding?)
  }

  /** A cancel that lands while the engine runs stands in the row exactly until the worker leaves: the outcome of the
      run, failed or completed, then replaces it. */
  lemma {:induction false} CancelIsOverwritten(s: System, events: seq<Event>)
    requires CanceledUnderway(s) && Reliable(events)
    ensures CanceledUnderway(Exec(s, events))
    ensures Exec(s, events).row.Canceled? <==> !Exec(s, events).worker.Gone?
  {
    if |events| > 0 {
      var init, e := events[..|events| - 1], events[|events| - 1];
      assert e in events && Reliable(init);
      CancelIsOverwritten(s, init);
    }
  }

  /** Such a state is reached by a complete stop request. */
  lemma CancelUnderwayIsReachable()
    ensures exists events ::
      && Reliable(events)
      && CanceledUnderway(Exec(START, events)) && Exec(START, events).worker.Deciding?
  {
    assert Exec(START, []) == START && Reliable([]);
    hide Exec;
    hide Reliable;
    var events := Then(START, [], PickUp);
    assert Exec(START, events) == System(Pending, PickedUp, 2, 0, 0, 0);
    events := Then(START, events, MarkRunning);
    assert Exec(START, events) == System(Running, Preparing, 2, 0, 0, 0);
    events := Then(START, events, Prepare);
    assert Exec(START, events) == System(Running, Deciding, 2, 0, 0, 0);
    events := Then(START, events, ReadForStop);
    assert Exec(START, events) == System(Running, Deciding, 2, 1, 0, 0);
    events := Then(START, events, WriteCanceled);
    assert Exec(START, events) == System(Canceled, Deciding, 2, 0, 0, 0);
    assert Reliable(events) && CanceledUnderway(Exec(START, events)) && Exec(START, events).worker.Deciding?;
  }

  /** After the worker has left, the row can still become canceled exactly if it is, or if a stop request that read the
      row earlier has not written yet. */
  lemma LateStopWins(s: System)
    requires s.worker.Gone?
    ensures (exists events :: Exec(s, events).row.Canceled?)
       <==> s.row.Canceled? || s.stops > 0 || !IsFinal(s.row)
  {
    hide Step;
    if s.row.Canceled? {
      assert Exec(s, []).row.Canceled?;
    } else if s.stops > 0 || !IsFinal(s.row) {
      var events := LateStop(s);
      assert Exec(s, events).row.Canceled?;
    } else {
      forall events ensures Exec(s, events) == s { NothingHappens(s, events); }
    }
  }

  lemma LateStop(s: System) returns (events: seq<Event>)
    requires s.stops > 0 || !IsFinal(s.row)
    ensures Exec(s, events).row.Canceled?
  {
    assert Exec(s, []) == s;
    hide Exec;
    events := Then(s, [], ReadForStop);
    events := Then(s, events, WriteCanceled);
  }

  lemma {:induction false} NothingHappens(s: System, events: seq<Event>)
    requires s.worker.Gone? && s.stops == 0 && IsFinal(s.row)
    ensures Exec(s, events) == s
  {
    if |events| > 0 { NothingHappens(s, events[..|events| - 1]); }
  }

  /** The start check has been refused: the row says canceled until the worker has left, and failed from then on. */
  ghost predicate Refused(s: System) {
    && s.stops == 0
    && if s.worker.Gone? then s.row.Failed? else s.row.Canceled? && s.worker == Concluding(false)
  }

  /** When the worker comes to a start check after the cancel and no other stop request is under way, every continuation
      leads to failed and to nothing else. */
  lemma {:induction false} RefusedStartEndsFailed(s: System, events: seq<Event>)
    requires s.row.Canceled? && s.worker.Deciding? && s.stops == 0 && Reliable(events)
    ensures Refused(Exec(Step(s, StartNode), events))
  {
    if |events| > 0 {
      var init, e := events[..|events| - 1], events[|events| - 1];
      assert e in events && Reliable(init);
      RefusedStartEndsFailed(s, init);
    }
  }

  // ----- every run

  /** Of every reachable state: nodes run one at a time, before the row says running nothing has started, completed
      is final for the worker, and there are at most three deliveries. */
  lemma {:induction false} NodesRunOneAtATime(events: seq<Event>)
    ensures var s := Exec(START, events);
      && s.finished <= s.starts <= s.finished + 1
      && (s.starts == s.finished + 1 <==> s.worker.Executing?)
      && (s.row.Pending? ==> s.starts == 0 && (s.worker.Waiting? || s.worker.PickedUp? || s.worker.Gone?))
      && (s.row.Completed? ==> s.worker.Gone?)
      && (s.worker.Waiting? ==> s.deliveries > 0)
      && s.deliveries + (if s.worker.Waiting? then 0 else 1) <= 3
  {
    if |events| > 0 { NodesRunOneAtATime(events[..|events| - 1]); }
  }

  /** The queue does deliver three times, and not a fourth time. */
  lemma ThreeDeliveries()
    ensures var s := Exec(START, [PickUp, LoseAccess, PickUp, LoseAccess, PickUp]);
      s.worker.PickedUp? && s.starts == 0 && Step(s, LoseAccess).worker.Gone?
  {
    var events := [PickUp, LoseAccess, PickUp, LoseAccess, PickUp];
    hide Exec;
    Unroll(START, [], PickUp);
    Unroll(START, [PickUp], LoseAccess);
    Unroll(START, [PickUp, LoseAccess], PickUp);
    Unroll(START, [PickUp, LoseAccess, PickUp], LoseAccess);
    Unroll(START, [PickUp, LoseAccess, PickUp, LoseAccess], PickUp);
    assert [] + [PickUp] == [PickUp] && [PickUp] + [LoseAccess] == [PickUp, LoseAccess];
    assert [PickUp, LoseAccess] + [PickUp] == [PickUp, LoseAccess, PickUp];
    assert [PickUp, LoseAccess, PickUp] + [LoseAccess] == [PickUp, LoseAccess, PickUp, LoseAccess];
    assert [PickUp, LoseAccess, PickUp, LoseAccess] + [PickUp] == events;
    assert Exec(START, []) == START by { NoEvents(START); }
  }

  lemma NoEvents(s: System)
    ensures Exec(s, []) == s
  {
  }

  lemma Unroll(s: System, events: seq<Event>, e: Event)
    ensures Exec(s, events + [e]) == Step(Exec(s, events), e)
  {
    assert (events + [e])[..|events|] == events;
  }

  ghost predicate OnceStarted(s: System) {
    s.starts > 0 ==> s.worker.Deciding? || s.worker.Executing? || s.worker.Concluding? || s.worker.Gone?
  }

  lemma StepOnceStarted(s: System, e: Event)
    requires OnceStarted(s) && e != LoseAccess
    ensures OnceStarted(Step(s, e))
  {
  }

  /** While every access succeeds, a job whose nodes have started is never delivered again. */
  lemma {:induction false} StartedOnce(events: seq<Event>)
    requires Reliable(events)
    ensures OnceStarted(Exec(START, events))
  {
    if |events| > 0 {
      var init, e := events[..|events| - 1], events[|events| - 1];
      assert e in events && Reliable(init);
      hide Step;
      StartedOnce(init);
      StepOnceStarted(Exec(START, init), e);
    }
  }
}

/**
 Waiting for events over whole runs: a call waits unchanged until the first matching fire, which queues it with the
 fire's data, and nothing else releases it.
 */
module SchedulerEvents {
  import opened Optional
  import opened Scheduler
  import opened SchedulerOwnership
  import opened SchedulerInvariant
  import opened SchedulerEvolution
  import opened SchedulerRuns

  /** What a step does to a call that waits for event `e`: a fire of `e` with the code that it asked
      for, or any fire if it asked for none, queues it with the fire's data, and nothing else moves it. */
  lemma AwaitStep(s: State, a: Action, t: State, c: Id, e: nat)
    requires Inv(s) && IsStep(s, a, t) && e < |s.events| && c in s.events[e].waiting
    ensures c in s.records
    ensures match FiringOf(s, a)
            case Some(f) =>
              if f.event == e && Released(s.records[c], f.code)
              then PhaseOf(t, c) == Ready && c in t.records && t.records[c] == s.records[c].(returnValue := f.data)
              else StillWaits(s, t, c, e)
            case None => StillWaits(s, t, c, e)
  {
    assert s.events[e] in s.events;
    StepInv(s, a);
    StepEvolves(s, a);
    match a
    case Dispatch(oracle) => AwaitDispatch(s, oracle, t, c, e);
    case Interrupt(number) => ScheduleAllEvolves(s, s.interrupts[number], None, [number]);
    case Call(handler, parameters) => RunningUnreferenced(s);
    case Finish(code) => AwaitFinish(s, code, c, e);
    case Fault(arguments) =>
      RunningUnreferenced(s);
      ScheduleAllEvolves(s, s.interrupts[EXCEPTION_SUBSCRIBERS], s.records[s.running.value].respondingTo, arguments);
  }

  lemma AwaitFinish(s: State, code: nat, c: Id, e: nat)
    requires Inv(s) && ThreadRunning(s) && e < |s.events| && c in s.events[e].waiting
    ensures StillWaits(s, DoFinish(s, code), c, e)
  {
    RunningUnreferenced(s);
    assert s.events[e] in s.events && c in s.records && s.records[c].handler == AWAIT;
    assert s.records[s.running.value].respondingTo != Some(c);
  }

  /** Settling the handled call leaves the others as the handler left them. */
  lemma SettleSpares(s: State, t: State, h: State, id: Id, c: Id, e: nat)
    requires id in h.records && t == Settle(h, id) && c != id
    ensures StillWaits(s, h, c, e) ==> StillWaits(s, t, c, e)
    ensures c in h.queue ==> c in t.queue
    ensures c in h.records ==> c in t.records && t.records[c] == h.records[c]
  {
  }

  lemma AwaitHandler(s: State, oracle: Oracle, t: State, c: Id, e: nat)
    requires Linked(s) && Allocated(s) && IsStep(s, Dispatch(oracle), t)
    requires s.queue != [] && c in s.records && c != s.queue[0]
    requires s.queue[0] in s.records && !s.records[s.queue[0]].resume
    requires e < |s.events| && c in s.events[e].waiting
    requires forall i | 0 <= i < |s.events| && i != e :: c !in s.events[i].waiting
    ensures match FiringOf(s, Dispatch(oracle))
            case Some(f) =>
              if f.event == e && Released(s.records[c], f.code)
              then c in t.queue && c in t.records && t.records[c] == s.records[c].(returnValue := f.data)
              else StillWaits(s, t, c, e)
            case None => StillWaits(s, t, c, e)
  {
    var id, u := s.queue[0], s.(queue := s.queue[1..]);
    var h := Handle(u, id, oracle);
    assert ServiceKnown(s, id) && ServiceKnown(u, id) && h.Next?;
    SettleSpares(u, t, h.state, id, c, e);
    match FiringOf(s, Dispatch(oracle))
    case None => QuietHandler(u, id, oracle, c, e);
    case Some(f) => FiringHandler(u, id, oracle, c, e, f);
  }

  lemma AwaitDispatch(s: State, oracle: Oracle, t: State, c: Id, e: nat)
    requires Inv(s) && IsStep(s, Dispatch(oracle), t) && e < |s.events| && c in s.events[e].waiting
    requires c in s.records && Evolves(s, Dispatch(oracle), t)
    ensures match FiringOf(s, Dispatch(oracle))
            case Some(f) =>
              if f.event == e && Released(s.records[c], f.code)
              then PhaseOf(t, c) == Ready && c in t.records && t.records[c] == s.records[c].(returnValue := f.data)
              else StillWaits(s, t, c, e)
            case None => StillWaits(s, t, c, e)
  {
    if s.queue != [] {
      PopGood(s);
      WaiterIsParked(s, c, e);
      WaitsForOneEvent(s, c, e);
      if !s.records[s.queue[0]].resume {
        AwaitHandler(s, oracle, t, c, e);
      }
    }
  }

  /** A call waits for at most one event. */
  lemma WaitsForOneEvent(s: State, c: Id, e: nat)
    requires Inv(s) && e < |s.events| && c in s.events[e].waiting
    ensures forall i | 0 <= i < |s.events| && i != e :: c !in s.events[i].waiting
  {
    var without := s.events[e := s.events[e].(waiting := [])];
    assert Holders(s, c) + One(Owed(s, None, c)) == One(c in s.records);
    WaitingMember(s.events, e, c);
    WaitingUpdate(s.events, e, s.events[e].(waiting := []), c);
    assert Waiting(without, c) == 0;
    forall i | 0 <= i < |s.events| && i != e ensures c !in s.events[i].waiting {
      if c in without[i].waiting { WaitingMember(without, i, c); }
    }
  }

  /** The step fires `e` with a code that releases a call which asked for `wanted`. */
  ghost predicate Releases(s: State, a: Action, e: nat, wanted: nat)
    requires Enabled(s, a)
  {
    var f := FiringOf(s, a);
    f.Some? && f.value.event == e && (wanted == 0 || wanted == f.value.code)
  }

  /** Step `k` of a run does not release a call that waits for `e` with code `wanted`. */
  ghost predicate Spares(states: seq<State>, actions: seq<Action>, k: nat, e: nat, wanted: nat)
    requires k < |actions| <= |states|
  {
    Enabled(states[k], actions[k]) && !Releases(states[k], actions[k], e, wanted)
  }

  lemma WaiterOfRun(states: seq<State>, actions: seq<Action>, k: nat, c: Id, e: nat)
    requires IsRun(states, actions) && k < |states| && e < |states[k].events| && c in states[k].events[e].waiting
    ensures PhaseOf(states[k], c) == Parked
  {
    OwnershipOverRuns(states, actions, k);
    WaiterIsParked(states[k], c, e);
  }

  lemma AwaitStepOfRun(states: seq<State>, actions: seq<Action>, k: nat, c: Id, e: nat, wanted: nat)
    requires IsRun(states, actions) && k < |actions|
    requires e < |states[k].events| && c in states[k].events[e].waiting
    requires c in states[k].records && states[k].records[c].parameters[2] == wanted
    ensures Enabled(states[k], actions[k])
    ensures Spares(states, actions, k, e, wanted) ==> StillWaits(states[k], states[k + 1], c, e)
    ensures !Spares(states, actions, k, e, wanted) ==>
              && PhaseOf(states[k + 1], c) == Ready && c in states[k + 1].records
              && states[k + 1].records[c]
                  == states[k].records[c].(returnValue := FiringOf(states[k], actions[k]).value.data)
  {
    OwnershipOverRuns(states, actions, k);
    RunStep(states, actions, k);
    AwaitStep(states[k], actions[k], states[k + 1], c, e);
  }

  /** Over every run, a waiting call waits unchanged as long as no matching fire happens. */
  lemma {:induction false} WaitsUntilMatchingFire(states: seq<State>, actions: seq<Action>, i: nat, j: nat, c: Id,
                                                  e: nat)
    requires IsRun(states, actions) && i <= j < |states|
    requires e < |states[i].events| && c in states[i].events[e].waiting && c in states[i].records
    requires forall k: nat | i <= k < j :: Spares(states, actions, k, e, states[i].records[c].parameters[2])
    ensures StillWaits(states[i], states[j], c, e)
    decreases j - i
  {
    if i < j {
      WaitsUntilMatchingFire(states, actions, i, j - 1, c, e);
      assert Spares(states, actions, j - 1, e, states[i].records[c].parameters[2]);
      AwaitStepOfRun(states, actions, j - 1, c, e, states[i].records[c].parameters[2]);
    }
  }

  /** Over every run, the first matching fire after the await, and no earlier step, releases the call,
      and the call carries that fire's data. */
  lemma ReleasedByFirstMatchingFire(states: seq<State>, actions: seq<Action>, i: nat, j: nat, c: Id, e: nat)
    requires IsRun(states, actions) && i <= j < |actions|
    requires e < |states[i].events| && c in states[i].events[e].waiting && c in states[i].records
    requires forall k: nat | i <= k < j :: Spares(states, actions, k, e, states[i].records[c].parameters[2])
    ensures Enabled(states[j], actions[j]) && c in states[j + 1].records
    ensures Requeued(states[j], states[j + 1], c)
            <==> Releases(states[j], actions[j], e, states[i].records[c].parameters[2])
    ensures Requeued(states[j], states[j + 1], c)
            ==> states[j + 1].records[c]
                == states[i].records[c].(returnValue := FiringOf(states[j], actions[j]).value.data)
  {
    WaitsUntilMatchingFire(states, actions, i, j, c, e);
    AwaitStepOfRun(states, actions, j, c, e, states[i].records[c].parameters[2]);
    WaiterOfRun(states, actions, j, c, e);
    if Spares(states, actions, j, e, states[i].records[c].parameters[2]) {
      WaiterOfRun(states, actions, j + 1, c, e);
    }
  }

  lemma WaiterIsParked(s: State, c: Id, e: nat)
    requires Inv(s) && e < |s.events| && c in s.events[e].waiting
    ensures PhaseOf(s, c) == Parked
  {
    assert s.events[e] in s.events;
    ExactlyOneHolder(s, c);
    assert InSomeWaitingList(s, c);
  }

  /** No step ever fires the crash event, and the load event fires with code 0 only. */
  lemma KernelEventFires(s: State, a: Action)
    requires Enabled(s, a) && FiringOf(s, a).Some?
    ensures FiringOf(s, a).value.event != CRASH_EVENT
    ensures FiringOf(s, a).value.event == LOAD_INITRD_EVENT ==> FiringOf(s, a).value.code == 0
  {
    var id := HandledBy(s, a).value;
    var r := s.records[id];
    assert ServiceKnown(s, id);
    if r.handler == FIRE_EVENT && FiredEvent(s, r).Some? {
      assert s.services[r.service] in s.services && FiredEvent(s, r).value in s.services[r.service].events;
    }
  }

  /** Over every run, a call that awaits the crash event, or the load event with a nonzero code, is
      never released. */
  lemma NeverReleased(states: seq<State>, actions: seq<Action>, i: nat, j: nat, c: Id, e: nat)
    requires IsRun(states, actions) && i <= j < |states|
    requires e < |states[i].events| && c in states[i].events[e].waiting && c in states[i].records
    requires e == CRASH_EVENT || (e == LOAD_INITRD_EVENT && states[i].records[c].parameters[2] != 0)
    ensures StillWaits(states[i], states[j], c, e)
  {
    forall k: nat | i <= k < j ensures Spares(states, actions, k, e, states[i].records[c].parameters[2]) {
      RunStep(states, actions, k);
      if FiringOf(states[k], actions[k]).Some? {
        KernelEventFires(states[k], actions[k]);
      }
    }
    WaitsUntilMatchingFire(states, actions, i, j, c, e);
  }

  lemma FireKeepsOrder(records: map<Id, Record>, a: seq<Id>, b: seq<Id>, code: nat)
    requires (forall w <- a :: w in records) && (forall w <- b :: w in records)
    ensures forall w <- a + b :: w in records
    ensures Woken(records, a + b, code) == Woken(records, a, code) + Woken(records, b, code)
    ensures StillWaiting(records, a + b, code) == StillWaiting(records, a, code) + StillWaiting(records, b, code)
  {
    WokenConcat(records, a, b, code);
    StillWaitingConcat(records, a, b, code);
  }

  lemma {:induction false} WokenConcat(records: map<Id, Record>, a: seq<Id>, b: seq<Id>, code: nat)
    requires (forall w <- a :: w in records) && (forall w <- b :: w in records)
    ensures forall w <- a + b :: w in records
    ensures Woken(records, a + b, code) == Woken(records, a, code) + Woken(records, b, code)
    decreases |b|
  {
    if b == [] {
      assert a + b == a;
    } else {
      var rest, last := b[..|b| - 1], b[|b| - 1];
      WokenConcat(records, a, rest, code);
      LastWaiter(records, a + rest, last, code);
      assert a + b == (a + rest) + [last];
    }
  }

  lemma {:induction false} StillWaitingConcat(records: map<Id, Record>, a: seq<Id>, b: seq<Id>, code: nat)
    requires (forall w <- a :: w in records) && (forall w <- b :: w in records)
    ensures forall w <- a + b :: w in records
    ensures StillWaiting(records, a + b, code) == StillWaiting(records, a, code) + StillWaiting(records, b, code)
    decreases |b|
  {
    if b == [] {
      assert a + b == a;
    } else {
      var rest, last := b[..|b| - 1], b[|b| - 1];
      StillWaitingConcat(records, a, rest, code);
      LastWaiter(records, a + rest, last, code);
      assert a + b == (a + rest) + [last];
    }
  }

  lemma LastWaiter(records: map<Id, Record>, rest: seq<Id>, last: Id, code: nat)
    requires (forall w <- rest :: w in records) && last in records
    ensures forall w <- rest + [last] :: w in records
    ensures Woken(records, rest + [last], code)
         == Woken(records, rest, code) + if Released(records[last], code) then [last] else []
    ensures StillWaiting(records, rest + [last], code)
         == StillWaiting(records, rest, code) + if Released(records[last], code) then [] else [last]
  {
    assert (rest + [last])[..|rest|] == rest;
  }

  lemma AwaitDispatched(s: State, oracle: Oracle, id: Id, e: nat)
    requires Linked(s) && s.running.None? && s.queue != [] && s.queue[0] == id && id in s.records
    requires var r := s.records[id];
             !r.resume && r.handler == AWAIT && EventPointer(s, r.parameters[0], r.parameters[1]) == Some(e)
    ensures e < |s.events| && DoDispatch(s, oracle).Next?
    ensures var t := DoDispatch(s, oracle).state;
            e < |t.events| && t.events[e].waiting == s.events[e].waiting + [id] && t.running.None?
  {
    var u := s.(queue := s.queue[1..]);
    EventPointerInTable(s, s.records[id].parameters[0], s.records[id].parameters[1]);
    DispatchCases(s, oracle);
    assert EventPointer(u, s.records[id].parameters[0], s.records[id].parameters[1]) == Some(e);
    assert Handle(u, id, oracle) == HandleAwait(u, id);
  }

  /** The outcome of an await's handler: the call waits for the event that it named, behind the earlier ones. */
  lemma AwaitStarts(s: State, oracle: Oracle, e: nat)
    requires Inv(s) && s.running.None? && s.queue != [] && s.queue[0] in s.records
    requires var r := s.records[s.queue[0]];
             !r.resume && r.handler == AWAIT && EventPointer(s, r.parameters[0], r.parameters[1]) == Some(e)
    ensures e < |s.events| && DoDispatch(s, oracle).Next?
    ensures var t, id := DoDispatch(s, oracle).state, s.queue[0];
            && PhaseOf(t, id) == Parked && e < |t.events|
            && t.events[e].waiting == s.events[e].waiting + [id]
  {
    AwaitDispatched(s, oracle, s.queue[0], e);
    DispatchInv(s, oracle);
    WaiterIsParked(DoDispatch(s, oracle).state, s.queue[0], e);
  }
}

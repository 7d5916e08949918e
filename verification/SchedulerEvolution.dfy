/**
 What one step leaves alone.  A step keeps the identity of every live record, appends to the run queue
 and pops at most its head, frees at most the running record, and touches waiting lists only by
 appending to them or by firing their event.
 */
module SchedulerEvolution {
  import opened Optional
  import opened Scheduler
  import opened SchedulerOwnership
  import opened SchedulerInvariant

  /** The fields that say which call a record stands for, and for whom it runs. */
  predicate SameCall(a: Record, b: Record) {
    a.handler == b.handler && a.parameters == b.parameters && a.respondingTo == b.respondingTo
    && a.service == b.service && a.stack == b.stack
  }

  /** Kernel code, up to and including one handler, has run from `s` to `t`. */
  ghost predicate Grows(s: State, t: State) {
    && s.next <= t.next
    && s.queue <= t.queue
    && t.running == s.running
    && |s.events| <= |t.events|
    && (forall id <- s.records :: id in t.records && SameCall(s.records[id], t.records[id])
                               && s.records[id].resume == t.records[id].resume)
    && (forall id <- t.records :: id in s.records || s.next <= id)
  }

  ghost predicate Allocated(s: State) {
    forall id <- s.records :: id < s.next
  }

  lemma {:induction false} ScheduleAllEvolves(s: State, fs: seq<Function>, respondingTo: Option<Id>,
                                              arguments: seq<nat>)
    requires Allocated(s)
    ensures var t := ScheduleAll(s, fs, respondingTo, arguments);
            && Grows(s, t) && Allocated(t) && t.events == s.events
            && (forall id <- s.records :: t.records[id] == s.records[id])
            && (forall id <- t.records | id !in s.records ::
                  t.records[id].resume && t.records[id].respondingTo == respondingTo)
            && t.next == s.next + |fs|
            && (forall k: nat | s.next <= k < t.next :: k in t.records)
            && |t.queue| == |s.queue| + |fs|
    decreases |fs|
  {
    if fs != [] {
      ScheduleAllEvolves(ScheduleFunction(s, fs[0], respondingTo, arguments), fs[1..], respondingTo, arguments);
    }
  }

  lemma ReleaseEvolves(s: State, event: nat, data: nat, code: nat)
    requires event < |s.events| && WaitersLive(s)
    ensures Grows(s, ReleaseWaiters(s, event, data, code))
  {
    ReleaseFrame(s, event, data, code);
  }

  lemma FireEvolves(s: State, event: nat, data: nat, code: nat)
    requires event < |s.events| && WaitersLive(s) && Allocated(s)
    ensures Grows(s, FireEvent(s, event, data, code))
  {
    var fs := s.events[event].subscriptions;
    ScheduleAllEvolves(s, fs, None, [data]);
    var t := ScheduleAll(s, fs, None, [data]);
    ScheduleAllGrows(s, fs, None, [data]);
    ReleaseEvolves(t, event, data, code);
  }

  lemma GrowsTransitive(s: State, t: State, u: State)
    requires Grows(s, t) && Grows(t, u)
    ensures Grows(s, u)
  {
  }

  lemma UpdateEvolves(s: State, id: Id, r: Record)
    requires id in s.records && SameCall(s.records[id], r) && r.resume == s.records[id].resume
    ensures Grows(s, Update(s, id, r))
  {
  }

  lemma LoadServiceEvolves(s: State, program: Program)
    requires Linked(s) && Allocated(s)
    ensures Grows(s, LoadService(s, program)) && Allocated(LoadService(s, program))
  {
    FireEvolves(s, LOAD_INITRD_EVENT, program.nameHash, 0);
    FireAllocated(s, LOAD_INITRD_EVENT, program.nameHash, 0);
  }

  lemma LoadEvolves(s: State, id: Id, oracle: Oracle)
    requires Linked(s) && id in s.records && Allocated(s)
    ensures var h := HandleLoad(s, id, oracle); h.Next? ==> Grows(s, h.state)
  {
    if oracle.program.Some? && oracle.named {
      var service := |s.services|;
      var program := oracle.program.value;
      var t := LoadService(s, program);
      LoadServiceEvolves(s, program);
      var u := t;
      if s.records[id].parameters[1] != 0 {
        u := ScheduleFunction(t, Function(service, program.address), Some(id), []);
        ScheduleEvolves(t, Function(service, program.address), Some(id), []);
        GrowsTransitive(s, t, u);
      }
      var r := u.records[id].(returnValue := service, avoidReschedule := s.records[id].parameters[1] != 0);
      UpdateEvolves(u, id, r);
      GrowsTransitive(s, u, Update(u, id, r));
    }
  }

  lemma FireAllocated(s: State, event: nat, data: nat, code: nat)
    requires event < |s.events| && WaitersLive(s) && Allocated(s)
    ensures Allocated(FireEvent(s, event, data, code))
  {
    var fs := s.events[event].subscriptions;
    ScheduleAllEvolves(s, fs, None, [data]);
    ScheduleAllGrows(s, fs, None, [data]);
    ReleaseFrame(ScheduleAll(s, fs, None, [data]), event, data, code);
  }

  lemma FireHandlerEvolves(s: State, id: Id)
    requires Linked(s) && id in s.records && Allocated(s)
    ensures Grows(s, HandleFireEvent(s, id))
  {
    var r := s.records[id];
    assert ServiceKnown(s, id);
    if FiredEvent(s, r).Some? {
      var event := FiredEvent(s, r).value;
      assert s.services[r.service] in s.services && event in s.services[r.service].events;
      FireEvolves(s, event, r.parameters[1], r.parameters[2]);
    }
  }

  lemma ScheduleEvolves(s: State, f: Function, respondingTo: Option<Id>, arguments: seq<nat>)
    requires Allocated(s)
    ensures Grows(s, ScheduleFunction(s, f, respondingTo, arguments))
  {
  }

  lemma RequestEvolves(s: State, id: Id)
    requires Linked(s) && id in s.records && Allocated(s)
    ensures Grows(s, HandleRequest(s, id))
  {
    var r := s.records[id];
    assert ServiceKnown(s, id);
    if Provider(s, r).Some? {
      var caller := s.services[r.service];
      ScheduleEvolves(s, Provider(s, r).value, Some(id),
                      [r.parameters[2], r.parameters[3], caller.nameHash, caller.id]);
    }
  }

  /** The handlers that only add to a table or answer with a value. */
  lemma AnsweringHandlerEvolves(s: State, id: Id, oracle: Oracle)
    requires Linked(s) && id in s.records && Allocated(s)
    requires s.records[id].handler !in {LOAD_FROM_INITRD, FIRE_EVENT, REQUEST, FORK}
    requires s.records[id].handler !in {AWAIT, SUBSCRIBE_EVENT, CREATE_EVENT}
    ensures var h := Handle(s, id, oracle); h.Next? ==> Grows(s, h.state)
  {
    assert ServiceKnown(s, id);
  }

  lemma EventHandlerEvolves(s: State, id: Id, oracle: Oracle)
    requires Linked(s) && id in s.records && Allocated(s)
    requires s.records[id].handler in {AWAIT, SUBSCRIBE_EVENT, CREATE_EVENT}
    ensures var h := Handle(s, id, oracle); h.Next? ==> Grows(s, h.state)
  {
    assert ServiceKnown(s, id);
  }

  /** The handlers that start no thread and fire no event. */
  lemma PlainHandlerEvolves(s: State, id: Id, oracle: Oracle)
    requires Linked(s) && id in s.records && Allocated(s)
    requires s.records[id].handler !in {LOAD_FROM_INITRD, FIRE_EVENT, REQUEST, FORK}
    ensures var h := Handle(s, id, oracle); h.Next? ==> Grows(s, h.state)
  {
    if s.records[id].handler in {AWAIT, SUBSCRIBE_EVENT, CREATE_EVENT} {
      EventHandlerEvolves(s, id, oracle);
    } else {
      AnsweringHandlerEvolves(s, id, oracle);
    }
  }

  lemma HandleEvolves(s: State, id: Id, oracle: Oracle)
    requires Linked(s) && id in s.records && Allocated(s)
    ensures var h := Handle(s, id, oracle); h.Next? ==> Grows(s, h.state)
  {
    var r := s.records[id];
    if r.handler == LOAD_FROM_INITRD {
      LoadEvolves(s, id, oracle);
    } else if r.handler == FIRE_EVENT {
      FireHandlerEvolves(s, id);
    } else if r.handler == REQUEST {
      RequestEvolves(s, id);
    } else if r.handler == FORK {
      assert ServiceKnown(s, id);
      ScheduleEvolves(s, Function(r.service, r.parameters[0]), None, r.parameters[1..]);
    } else {
      PlainHandlerEvolves(s, id, oracle);
    }
  }

  /** One if the action pops the run queue. */
  function Pops(s: State, a: Action): nat {
    if a.Dispatch? && s.queue != [] then 1 else 0
  }

  /** One step has led from `s` to `t`. */
  ghost predicate Evolves(s: State, a: Action, t: State) {
    && s.next <= t.next
    && Pops(s, a) <= |s.queue|
    && s.queue[Pops(s, a)..] <= t.queue
    && |s.events| <= |t.events|
    && (forall id <- s.records :: id in t.records || (s.running == Some(id) && t.running.None?))
    && (forall id <- s.records | id in t.records ::
          SameCall(s.records[id], t.records[id]) && (s.records[id].resume ==> t.records[id].resume))
    && (forall id <- t.records :: id in s.records || s.next <= id)
    && (t.running.Some? ==> t.running == s.running || (s.queue != [] && t.running == Some(s.queue[0])))
    && (s.running.Some? && t.running != s.running ==> s.running.value !in t.records)
  }

  lemma SettleEvolves(s: State, h: State, id: Id, oracle: Oracle)
    requires s.running.None? && s.queue != [] && s.queue[0] == id && id in s.records
    requires Grows(s.(queue := s.queue[1..]), h)
    ensures id in h.records && Evolves(s, Dispatch(oracle), Settle(h, id))
  {
  }

  lemma HandledDispatchEvolves(s: State, oracle: Oracle, id: Id, t: State, o: Outcome)
    requires Linked(s) && Allocated(s) && s.running.None? && s.queue != [] && s.queue[0] == id && id in s.records
    requires t == s.(queue := s.queue[1..])
    requires o == match Handle(t, id, oracle)
                  case Wild => Wild
                  case Next(h) => if id in h.records then Next(Settle(h, id)) else Wild
    ensures o.Next? ==> Evolves(s, Dispatch(oracle), o.state)
  {
    HandleEvolves(t, id, oracle);
    if o.Next? {
      SettleEvolves(s, Handle(t, id, oracle).state, id, oracle);
    }
  }

  lemma ResumeEvolves(s: State, oracle: Oracle)
    requires s.running.None? && s.queue != []
    ensures Evolves(s, Dispatch(oracle), s.(queue := s.queue[1..], running := Some(s.queue[0])))
  {
  }

  lemma IdleEvolves(s: State, oracle: Oracle)
    requires s.running.None? && s.queue == []
    ensures Evolves(s, Dispatch(oracle), s)
  {
    assert Pops(s, Dispatch(oracle)) == 0 && s.queue[0..] == s.queue;
    assert forall id <- s.records :: SameCall(s.records[id], s.records[id]);
  }

  /** The cases of a dispatch. */
  lemma DispatchCases(s: State, oracle: Oracle)
    requires Linked(s) && s.running.None?
    ensures s.queue == [] ==> DoDispatch(s, oracle) == Next(s)
    ensures s.queue != [] && s.queue[0] !in s.records ==> DoDispatch(s, oracle) == Wild
    ensures s.queue != [] && s.queue[0] in s.records && s.records[s.queue[0]].resume ==>
              DoDispatch(s, oracle) == Next(s.(queue := s.queue[1..], running := Some(s.queue[0])))
    ensures s.queue != [] && s.queue[0] in s.records && !s.records[s.queue[0]].resume ==>
              DoDispatch(s, oracle) == match Handle(s.(queue := s.queue[1..]), s.queue[0], oracle)
                                       case Wild => Wild
                                       case Next(h) =>
                                         if s.queue[0] in h.records then Next(Settle(h, s.queue[0])) else Wild
  {
  }

  lemma DispatchEvolves(s: State, oracle: Oracle)
    requires Linked(s) && Allocated(s) && s.running.None?
    ensures var o := DoDispatch(s, oracle); o.Next? ==> Evolves(s, Dispatch(oracle), o.state)
  {
    var o := DoDispatch(s, oracle);
    DispatchCases(s, oracle);
    if o.Next? {
      if s.queue == [] {
        IdleEvolves(s, oracle);
      } else if s.records[s.queue[0]].resume {
        ResumeEvolves(s, oracle);
      } else {
        HandledDispatchEvolves(s, oracle, s.queue[0], s.(queue := s.queue[1..]), o);
      }
    }
  }

  lemma InterruptEvolves(s: State, number: nat)
    requires Linked(s) && Allocated(s) && number < INTERRUPT_COUNT
    ensures Evolves(s, Interrupt(number), DoInterrupt(s, number))
  {
    ScheduleAllEvolves(s, s.interrupts[number], None, [number]);
  }

  lemma CallEvolves(s: State, handler: nat, parameters: Parameters)
    requires Linked(s) && Aged(s) && ThreadRunning(s)
    ensures Evolves(s, Call(handler, parameters), DoCall(s, handler, parameters))
  {
  }

  lemma FinishEvolves(s: State, code: nat)
    requires UnhandledFresh(s, None) && TargetsParked(s, None) && Aged(s) && ThreadRunning(s)
    ensures Evolves(s, Finish(code), DoFinish(s, code))
  {
    FinishRecords(s, code);
  }

  lemma FaultEvolves(s: State, arguments: seq<nat>)
    requires Linked(s) && Aged(s) && ThreadRunning(s)
    ensures Evolves(s, Fault(arguments), DoFault(s, arguments))
  {
    ScheduleAllEvolves(s, s.interrupts[EXCEPTION_SUBSCRIBERS], s.records[s.running.value].respondingTo, arguments);
  }

  lemma StepEvolves(s: State, a: Action)
    requires Inv(s) && Enabled(s, a)
    ensures Step(s, a).Next? ==> Evolves(s, a, Step(s, a).state)
  {
    match a
    case Dispatch(oracle) => DispatchEvolves(s, oracle);
    case Interrupt(number) => InterruptEvolves(s, number);
    case Call(handler, parameters) => CallEvolves(s, handler, parameters);
    case Finish(code) => FinishEvolves(s, code);
    case Fault(arguments) => FaultEvolves(s, arguments);
  }

  // ----- wild handlers -----------------------------------------------------------------------

  /** There is no event `index` of the kernel (service 0), or of the service. */
  predicate NoSuchEvent(s: State, service: nat, index: nat) {
    if service == 0 then index >= 2 else service >= |s.services| || index >= |s.services[service].events|
  }

  /** The call makes its handler follow a NULL pointer or leave an array: it names an event that does not exist, an
      interrupt beyond the table, for a load an unknown string or a missing program that it wants to start, a service
      that does not exist, or pages beyond the bitmaps. */
  predicate IsWildCall(s: State, r: Record, oracle: Oracle) {
    var p := r.parameters;
    || (r.handler in {AWAIT, SUBSCRIBE_EVENT} && NoSuchEvent(s, p[0], p[1]))
    || (r.handler == SUBSCRIBE_INTERRUPT && p[0] >= 255)
    || (r.handler == LOAD_FROM_INITRD && (!oracle.named || (oracle.program.None? && p[1] != 0)))
    || (r.handler == GET_FUNCTION && oracle.named && p[0] >= |s.services|)
    || (r.handler == GET_EVENT && p[1] != 0 && p[0] != 0 && p[0] >= |s.services|)
    || (r.handler == LOOKUP_SYMBOL && p[0] >= |s.services|)
    || (r.handler == REQUEST_MEMORY && p[1] >= 0x1000 && p[1] / 0x1000 + p[0] > 0x10_0000)
    || (r.handler == REQUEST_MEMORY && p[2] != 0 && p[2] / 0x1000 + p[0] > 0x10_0000)
    || (r.handler == REQUEST_MEMORY && !oracle.paged)
    || (r.handler == INSERT_STRING && p[0] != 0 && !oracle.paged)
    || (r.handler == READ_STRING && !oracle.paged)
  }

  /** The record at the head of the queue is an unhandled call that runs wild. */
  predicate WildCallNext(s: State, oracle: Oracle) {
    && s.queue != [] && s.queue[0] in s.records && !s.records[s.queue[0]].resume
    && IsWildCall(s, s.records[s.queue[0]], oracle)
  }

  lemma EventPointerInTable(s: State, service: nat, index: nat)
    requires Linked(s)
    ensures var e := EventPointer(s, service, index); e.Some? ==> e.value < |s.events|
  {
    if service != 0 && service < |s.services| && index < |s.services[service].events| {
      assert s.services[service] in s.services && s.services[service].events[index] in s.services[service].events;
    }
  }

  lemma NoPointerIff(s: State, service: nat, index: nat)
    requires Linked(s)
    ensures EventPointer(s, service, index).None? <==> NoSuchEvent(s, service, index)
    ensures var e := EventPointer(s, service, index); e.Some? ==> e.value < |s.events|
  {
    EventPointerInTable(s, service, index);
  }

  lemma HandleWildIff(s: State, id: Id, oracle: Oracle)
    requires Linked(s) && id in s.records
    ensures Handle(s, id, oracle).Wild? <==> IsWildCall(s, s.records[id], oracle)
  {
    NoPointerIff(s, s.records[id].parameters[0], s.records[id].parameters[1]);
  }

  lemma HandledDispatchWildIff(s: State, oracle: Oracle, id: Id)
    requires Linked(s) && Allocated(s) && s.running.None? && s.queue != [] && s.queue[0] == id && id in s.records
    requires !s.records[id].resume
    ensures DoDispatch(s, oracle).Wild? <==> IsWildCall(s, s.records[id], oracle)
  {
    var t := s.(queue := s.queue[1..]);
    DispatchCases(s, oracle);
    HandleWildIff(t, id, oracle);
    HandleEvolves(t, id, oracle);
  }

  /** A dispatch ends the run if and only if a wild call is at the head of the queue. */
  lemma DispatchWildIff(s: State, oracle: Oracle)
    requires Inv(s) && s.running.None?
    ensures DoDispatch(s, oracle).Wild? <==> WildCallNext(s, oracle)
  {
    DispatchCases(s, oracle);
    if s.queue != [] {
      PopGood(s);
      if !s.records[s.queue[0]].resume {
        HandledDispatchWildIff(s, oracle, s.queue[0]);
      }
    }
  }

  /** An enabled step leads on to a next state unless it dispatches a wild call. */
  lemma StepWildIff(s: State, a: Action)
    requires Inv(s) && Enabled(s, a)
    ensures Step(s, a).Wild? <==> a.Dispatch? && WildCallNext(s, a.oracle)
  {
    if a.Dispatch? {
      DispatchWildIff(s, a.oracle);
    }
  }

  // ----- waiting lists -----------------------------------------------------------------------

  /** A fire that a step performs. */
  datatype Firing = Firing(event: nat, data: nat, code: nat)

  /** The unhandled call that a dispatch is about to handle. */
  function HandledBy(s: State, a: Action): Option<Id> {
    if a.Dispatch? && s.queue != [] && s.queue[0] in s.records && !s.records[s.queue[0]].resume
    then Some(s.queue[0])
    else None
  }

  /** The fire that a step performs, read off the call that it handles. */
  function FiringOf(s: State, a: Action): Option<Firing>
    requires Enabled(s, a)
  {
    match HandledBy(s, a)
    case None => None
    case Some(id) =>
      var r := s.records[id];
      assert ServiceKnown(s, id);
      if r.handler == FIRE_EVENT && r.parameters[0] < |s.services[r.service].events|
      then Some(Firing(s.services[r.service].events[r.parameters[0]], r.parameters[1], r.parameters[2]))
      else if r.handler == LOAD_FROM_INITRD && a.oracle.program.Some?
      then Some(Firing(LOAD_INITRD_EVENT, a.oracle.program.value.nameHash, 0))
      else None
  }

  /** What a fire does to a call that waits for the fired event. */
  lemma FireReleases(s: State, event: nat, data: nat, code: nat, c: Id)
    requires event < |s.events| && WaitersLive(s) && Allocated(s) && c in s.events[event].waiting
    ensures c in s.records
    ensures var t := FireEvent(s, event, data, code);
            if Released(s.records[c], code)
            then c in t.queue && c in t.records && t.records[c] == s.records[c].(returnValue := data)
            else event < |t.events| && c in t.events[event].waiting && c in t.records && t.records[c] == s.records[c]
  {
    assert s.events[event] in s.events;
    var fs := s.events[event].subscriptions;
    ScheduleAllEvolves(s, fs, None, [data]);
    ScheduleAllGrows(s, fs, None, [data]);
    var u := ScheduleAll(s, fs, None, [data]);
    SplitWaiters(u.records, u.events[event].waiting, code, c);
  }

  /** A fire leaves the waiters of every other event alone. */
  lemma FireSpares(s: State, event: nat, data: nat, code: nat, c: Id, e: nat)
    requires event < |s.events| && WaitersLive(s) && Allocated(s)
    requires e < |s.events| && e != event && c in s.events[e].waiting && c !in s.events[event].waiting
    ensures var t := FireEvent(s, event, data, code);
            && |t.events| == |s.events| && c in t.events[e].waiting
            && c in t.records && c in s.records && t.records[c] == s.records[c]
  {
    assert s.events[e] in s.events;
    var fs := s.events[event].subscriptions;
    ScheduleAllEvolves(s, fs, None, [data]);
    ScheduleAllGrows(s, fs, None, [data]);
    var u := ScheduleAll(s, fs, None, [data]);
    ReleaseFrame(u, event, data, code);
  }

  /** Call `c` still waits for event `e`, and nothing about it has changed. */
  ghost predicate StillWaits(s: State, t: State, c: Id, e: nat) {
    && c in s.records && c in t.records && t.records[c] == s.records[c]
    && e < |t.events| && c in t.events[e].waiting
  }

  /** A handler that fires nothing leaves every waiting call waiting. */
  lemma QuietHandler(s: State, id: Id, oracle: Oracle, c: Id, e: nat)
    requires Linked(s) && Allocated(s) && id in s.records
    requires s.records[id].handler == FIRE_EVENT ==> ServiceKnown(s, id) && FiredEvent(s, s.records[id]).None?
    requires s.records[id].handler == LOAD_FROM_INITRD ==> oracle.program.None?
    requires c != id && c in s.records && e < |s.events| && c in s.events[e].waiting
    ensures var h := Handle(s, id, oracle); h.Next? ==> StillWaits(s, h.state, c, e)
  {
    assert ServiceKnown(s, id);
  }

  /** The handler of a call that fires `f`. */
  lemma FiringHandler(s: State, id: Id, oracle: Oracle, c: Id, e: nat, f: Firing)
    requires Linked(s) && Allocated(s) && ServiceKnown(s, id)
    requires var r := s.records[id];
             || (r.handler == FIRE_EVENT && FiredEvent(s, r).Some?
                 && f == Firing(FiredEvent(s, r).value, r.parameters[1], r.parameters[2]))
             || (r.handler == LOAD_FROM_INITRD && oracle.program.Some?
                 && f == Firing(LOAD_INITRD_EVENT, oracle.program.value.nameHash, 0))
    requires c != id && c in s.records && e < |s.events| && c in s.events[e].waiting
    requires e != f.event && f.event < |s.events| ==> c !in s.events[f.event].waiting
    ensures f.event < |s.events|
    ensures var h := Handle(s, id, oracle);
            h.Next? ==>
              if e == f.event && Released(s.records[c], f.code)
              then && c in h.state.queue && c in h.state.records
                   && h.state.records[c] == s.records[c].(returnValue := f.data)
              else StillWaits(s, h.state, c, e)
  {
    var r := s.records[id];
    if r.handler == FIRE_EVENT {
      assert s.services[r.service] in s.services && f.event in s.services[r.service].events;
    } else {
      LoadServiceEvolves(s, oracle.program.value);
      LoadKeepsCaller(s, id, oracle.program.value);
    }
    if e == f.event {
      FireReleases(s, e, f.data, f.code, c);
    } else {
      FireSpares(s, f.event, f.data, f.code, c, e);
    }
  }
}

/**
 The tables that syscalls fill: functions and events per service, subscriptions per event and per interrupt.  They only
 grow, so an index that a call returned names the same entry in every later state.
 */
module SchedulerTables {
  import opened Optional
  import opened Scheduler
  import opened SchedulerOwnership
  import opened SchedulerInvariant
  import opened SchedulerEvolution
  import opened SchedulerRuns

  // ----- tables only grow --------------------------------------------------------------------

  predicate ServiceGrows(a: Service, b: Service) {
    a.id == b.id && a.nameHash == b.nameHash && a.functions <= b.functions && a.events <= b.events
  }

  predicate EventGrows(a: Event, b: Event) {
    a.name == b.name && a.subscriptions <= b.subscriptions
  }

  /** Entry `k` of the event list of service `v` is one that `s` has, or points to an event that `s` does not have. */
  predicate OldOrNew(s: State, t: State, v: nat, k: nat)
    requires v < |t.services| && k < |t.services[v].events|
  {
    (v < |s.services| && k < |s.services[v].events|) || t.services[v].events[k] >= |s.events|
  }

  ghost predicate TablesGrow(s: State, t: State) {
    && |s.services| <= |t.services| && |s.events| <= |t.events| && |s.interrupts| == |t.interrupts|
    && (forall v | 0 <= v < |s.services| :: ServiceGrows(s.services[v], t.services[v]))
    && (forall e | 0 <= e < |s.events| :: EventGrows(s.events[e], t.events[e]))
    && (forall n | 0 <= n < |s.interrupts| :: s.interrupts[n] <= t.interrupts[n])
    && (forall v: nat, k: nat | v < |t.services| && k < |t.services[v].events| :: OldOrNew(s, t, v, k))
  }

  lemma SameTablesGrow(s: State, t: State)
    requires t.services == s.services && t.events == s.events && t.interrupts == s.interrupts
    ensures TablesGrow(s, t)
  {
  }

  lemma ReleaseTables(s: State, event: nat, data: nat, code: nat)
    requires event < |s.events| && WaitersLive(s)
    ensures var t := ReleaseWaiters(s, event, data, code);
            && t.services == s.services && t.interrupts == s.interrupts && |t.events| == |s.events|
            && (forall e | 0 <= e < |s.events| :: EventGrows(s.events[e], t.events[e]))
  {
  }

  lemma FireTables(s: State, event: nat, data: nat, code: nat)
    requires event < |s.events| && WaitersLive(s)
    ensures var t := FireEvent(s, event, data, code);
            && t.services == s.services && t.interrupts == s.interrupts && |t.events| == |s.events|
            && (forall e | 0 <= e < |s.events| :: EventGrows(s.events[e], t.events[e]))
  {
    var fs := s.events[event].subscriptions;
    ScheduleAllGrows(s, fs, None, [data]);
    ReleaseTables(ScheduleAll(s, fs, None, [data]), event, data, code);
  }

  lemma LoadTables(s: State, id: Id, oracle: Oracle)
    requires Linked(s) && id in s.records
    ensures var h := HandleLoad(s, id, oracle); h.Next? ==> TablesGrow(s, h.state)
  {
    if oracle.program.Some? && oracle.named {
      FireTables(s, LOAD_INITRD_EVENT, oracle.program.value.nameHash, 0);
      LoadKeepsCaller(s, id, oracle.program.value);
    }
  }

  lemma CreateEventTables(s: State, id: Id)
    requires Linked(s) && id in s.records
    ensures TablesGrow(s, HandleCreateEvent(s, id))
  {
    assert ServiceKnown(s, id);
  }

  lemma SubscribeEventTables(s: State, id: Id)
    requires Linked(s) && id in s.records
    ensures var h := HandleSubscribeEvent(s, id); h.Next? ==> TablesGrow(s, h.state)
  {
  }

  lemma FireHandlerTables(s: State, id: Id)
    requires Linked(s) && id in s.records
    ensures TablesGrow(s, HandleFireEvent(s, id))
  {
    var r := s.records[id];
    assert ServiceKnown(s, id);
    if FiredEvent(s, r).Some? {
      var event := FiredEvent(s, r).value;
      assert s.services[r.service] in s.services && event in s.services[r.service].events;
      FireTables(s, event, r.parameters[1], r.parameters[2]);
    }
  }

  /** The handlers that touch no event and load nothing. */
  lemma OtherTables(s: State, id: Id, oracle: Oracle)
    requires Linked(s) && id in s.records
    requires s.records[id].handler !in {LOAD_FROM_INITRD, CREATE_EVENT, SUBSCRIBE_EVENT, FIRE_EVENT}
    ensures var h := Handle(s, id, oracle); h.Next? ==> TablesGrow(s, h.state)
  {
    assert ServiceKnown(s, id);
  }

  lemma HandleTables(s: State, id: Id, oracle: Oracle)
    requires Linked(s) && id in s.records
    ensures var h := Handle(s, id, oracle); h.Next? ==> TablesGrow(s, h.state)
  {
    var f := s.records[id].handler;
    if f == LOAD_FROM_INITRD { LoadTables(s, id, oracle); }
    else if f == CREATE_EVENT { CreateEventTables(s, id); }
    else if f == SUBSCRIBE_EVENT { SubscribeEventTables(s, id); }
    else if f == FIRE_EVENT { FireHandlerTables(s, id); }
    else { OtherTables(s, id, oracle); }
  }

  lemma TablesGrowThrough(s: State, u: State, h: State, t: State)
    requires u.services == s.services && u.events == s.events && u.interrupts == s.interrupts && TablesGrow(u, h)
    requires t.services == h.services && t.events == h.events && t.interrupts == h.interrupts
    ensures TablesGrow(s, t)
  {
    forall v: nat, k: nat | v < |t.services| && k < |t.services[v].events| ensures OldOrNew(s, t, v, k) {
      assert OldOrNew(u, h, v, k);
    }
  }

  lemma DispatchTables(s: State, oracle: Oracle)
    requires Linked(s) && s.running.None?
    ensures var o := DoDispatch(s, oracle); o.Next? ==> TablesGrow(s, o.state)
  {
    var o := DoDispatch(s, oracle);
    DispatchCases(s, oracle);
    if s.queue != [] && s.queue[0] in s.records && !s.records[s.queue[0]].resume && o.Next? {
      var u := s.(queue := s.queue[1..]);
      HandleTables(u, s.queue[0], oracle);
      TablesGrowThrough(s, u, Handle(u, s.queue[0], oracle).state, o.state);
    } else if o.Next? {
      SameTablesGrow(s, o.state);
    }
  }

  /** No step takes anything out of a table. */
  lemma StepTables(s: State, a: Action)
    requires Enabled(s, a)
    ensures Step(s, a).Next? ==> TablesGrow(s, Step(s, a).state)
  {
    match a
    case Dispatch(oracle) => DispatchTables(s, oracle);
    case Interrupt(number) =>
      ScheduleAllGrows(s, s.interrupts[number], None, [number]);
      SameTablesGrow(s, DoInterrupt(s, number));
    case Call(handler, parameters) => SameTablesGrow(s, DoCall(s, handler, parameters));
    case Finish(code) => SameTablesGrow(s, DoFinish(s, code));
    case Fault(arguments) =>
      ScheduleAllGrows(s, s.interrupts[EXCEPTION_SUBSCRIBERS], s.records[s.running.value].respondingTo, arguments);
      SameTablesGrow(s, DoFault(s, arguments));
  }

  // ----- names -------------------------------------------------------------------------------

  /** Function `index` of service `service` enters `address` in that service. */
  predicate NamesFunction(s: State, service: nat, index: nat, address: nat) {
    && service < |s.services| && index < |s.services[service].functions|
    && s.services[service].functions[index] == Function(service, address)
  }

  /** Event `index` of service `service` is event `e`, which is called `name`. */
  predicate NamesEvent(s: State, service: nat, index: nat, e: nat, name: nat) {
    && service < |s.services| && index < |s.services[service].events| && s.services[service].events[index] == e
    && e < |s.events| && s.events[e].name == name
  }

  /** No other pair names event `e`. */
  ghost predicate OnlyName(s: State, service: nat, index: nat, e: nat) {
    forall v: nat, k: nat | v < |s.services| && k < |s.services[v].events| && s.services[v].events[k] == e ::
      v == service && k == index
  }

  /** `f` is among the subscribers of event `e`. */
  predicate Subscribed(s: State, e: nat, f: Function) {
    e < |s.events| && f in s.events[e].subscriptions
  }

  /** `f` is among the subscribers of interrupt `n`. */
  predicate Listens(s: State, n: nat, f: Function) {
    n < |s.interrupts| && f in s.interrupts[n]
  }

  lemma FunctionNameStays(s: State, t: State, service: nat, index: nat, address: nat)
    requires TablesGrow(s, t) && NamesFunction(s, service, index, address)
    ensures NamesFunction(t, service, index, address)
  {
    assert ServiceGrows(s.services[service], t.services[service]);
  }

  lemma EventNameStays(s: State, t: State, service: nat, index: nat, e: nat, name: nat)
    requires TablesGrow(s, t) && NamesEvent(s, service, index, e, name) && OnlyName(s, service, index, e)
    ensures NamesEvent(t, service, index, e, name) && OnlyName(t, service, index, e)
  {
    assert ServiceGrows(s.services[service], t.services[service]) && EventGrows(s.events[e], t.events[e]);
    forall v: nat, k: nat | v < |t.services| && k < |t.services[v].events| && t.services[v].events[k] == e
      ensures v == service && k == index
    {
      assert OldOrNew(s, t, v, k);
      assert ServiceGrows(s.services[v], t.services[v]);
    }
  }

  lemma SubscriberStays(s: State, t: State, e: nat, f: Function)
    requires TablesGrow(s, t) && Subscribed(s, e, f)
    ensures Subscribed(t, e, f)
  {
    assert EventGrows(s.events[e], t.events[e]);
  }

  lemma ListenerStays(s: State, t: State, n: nat, f: Function)
    requires TablesGrow(s, t) && Listens(s, n, f)
    ensures Listens(t, n, f)
  {
    assert s.interrupts[n] <= t.interrupts[n];
  }

  lemma TablesOfRun(states: seq<State>, actions: seq<Action>, k: nat)
    requires IsRun(states, actions) && k < |actions|
    ensures TablesGrow(states[k], states[k + 1])
  {
    RunStep(states, actions, k);
    StepTables(states[k], actions[k]);
  }

  /** Over every run, a pair of service and index goes on naming the same function. */
  lemma {:induction false} FunctionNameOverRuns(states: seq<State>, actions: seq<Action>, i: nat, j: nat,
                                                service: nat, index: nat, address: nat)
    requires IsRun(states, actions) && i <= j < |states| && NamesFunction(states[i], service, index, address)
    ensures NamesFunction(states[j], service, index, address)
    decreases j - i
  {
    if i < j {
      FunctionNameOverRuns(states, actions, i, j - 1, service, index, address);
      TablesOfRun(states, actions, j - 1);
      FunctionNameStays(states[j - 1], states[j], service, index, address);
    }
  }

  /** Over every run, a pair of service and index goes on naming the same event, and no other pair gets to name it. */
  lemma {:induction false} EventNameOverRuns(states: seq<State>, actions: seq<Action>, i: nat, j: nat,
                                             service: nat, index: nat, e: nat, name: nat)
    requires IsRun(states, actions) && i <= j < |states|
    requires NamesEvent(states[i], service, index, e, name) && OnlyName(states[i], service, index, e)
    ensures NamesEvent(states[j], service, index, e, name) && OnlyName(states[j], service, index, e)
    decreases j - i
  {
    if i < j {
      EventNameOverRuns(states, actions, i, j - 1, service, index, e, name);
      TablesOfRun(states, actions, j - 1);
      EventNameStays(states[j - 1], states[j], service, index, e, name);
    }
  }

  /** Over every run, an event keeps its subscribers. */
  lemma {:induction false} SubscriberOverRuns(states: seq<State>, actions: seq<Action>, i: nat, j: nat, e: nat,
                                              f: Function)
    requires IsRun(states, actions) && i <= j < |states| && Subscribed(states[i], e, f)
    ensures Subscribed(states[j], e, f)
    decreases j - i
  {
    if i < j {
      SubscriberOverRuns(states, actions, i, j - 1, e, f);
      TablesOfRun(states, actions, j - 1);
      SubscriberStays(states[j - 1], states[j], e, f);
    }
  }

  /** Over every run, an interrupt keeps its subscribers. */
  lemma {:induction false} ListenerOverRuns(states: seq<State>, actions: seq<Action>, i: nat, j: nat, n: nat,
                                            f: Function)
    requires IsRun(states, actions) && i <= j < |states| && Listens(states[i], n, f)
    ensures Listens(states[j], n, f)
    decreases j - i
  {
    if i < j {
      ListenerOverRuns(states, actions, i, j - 1, n, f);
      TablesOfRun(states, actions, j - 1);
      ListenerStays(states[j - 1], states[j], n, f);
    }
  }
}

/**
 What each kernel entry does, stated on the records, the queue and the tables themselves, with the numbers that threads
 put into the syscall registers; and what the indices mean that calls return, in every later state of every run.
 */
module SchedulerEffects {
  import opened Optional
  import opened Scheduler
  import opened SchedulerOwnership
  import opened SchedulerInvariant
  import opened SchedulerEvolution
  import opened SchedulerRuns
  import opened SchedulerEvents
  import opened SchedulerTables

  // ----- new threads -------------------------------------------------------------------------

  /** Record `id` is a thread about to enter `address` in `service` with `arguments`, and will answer `respondingTo`. */
  predicate IsThread(t: State, id: Id, service: nat, address: nat, arguments: seq<nat>, respondingTo: Option<Id>) {
    && id in t.records && t.records[id].resume && t.records[id].stack == Entering(address, arguments)
    && t.records[id].service == service && t.records[id].respondingTo == respondingTo
  }

  /** The `n` ids from `first` on. */
  function Ids(first: Id, n: nat): (ids: seq<Id>)
    ensures |ids| == n && forall k | 0 <= k < n :: ids[k] == first + k
  {
    seq(n, k requires 0 <= k < n => first + k)
  }

  /** `t` has a new thread for each of `fs`, in order, with the next free ids. */
  ghost predicate ThreadsFor(t: State, first: Id, fs: seq<Function>, arguments: seq<nat>, respondingTo: Option<Id>) {
    forall k: nat | k < |fs| :: IsThread(t, first + k, fs[k].service, fs[k].address, arguments, respondingTo)
  }

  lemma {:induction false} ThreadsStart(s: State, fs: seq<Function>, respondingTo: Option<Id>, arguments: seq<nat>)
    requires Allocated(s)
    ensures var t := ScheduleAll(s, fs, respondingTo, arguments);
            && t.queue == s.queue + Ids(s.next, |fs|) && ThreadsFor(t, s.next, fs, arguments, respondingTo)
            && (forall id <- s.records :: id in t.records && t.records[id] == s.records[id])
    decreases |fs|
  {
    if fs != [] {
      var u := ScheduleFunction(s, fs[0], respondingTo, arguments);
      ThreadsStart(u, fs[1..], respondingTo, arguments);
      FirstAndOthers(s, u, ScheduleAll(s, fs, respondingTo, arguments), fs, respondingTo, arguments);
    }
  }

  lemma FirstAndOthers(s: State, u: State, t: State, fs: seq<Function>, respondingTo: Option<Id>, arguments: seq<nat>)
    requires fs != [] && u == ScheduleFunction(s, fs[0], respondingTo, arguments) && Allocated(s)
    requires t.queue == u.queue + Ids(u.next, |fs| - 1)
    requires ThreadsFor(t, u.next, fs[1..], arguments, respondingTo)
    requires forall id <- u.records :: id in t.records && t.records[id] == u.records[id]
    ensures t.queue == s.queue + Ids(s.next, |fs|) && ThreadsFor(t, s.next, fs, arguments, respondingTo)
  {
    forall k: nat | k < |fs| ensures IsThread(t, s.next + k, fs[k].service, fs[k].address, arguments, respondingTo) {
      if k == 0 {
        assert s.next in u.records;
      } else {
        assert fs[1..][k - 1] == fs[k] && s.next + k == u.next + (k - 1);
      }
    }
  }

  // ----- entries of the running thread and of the hardware -----------------------------------

  /** An interrupt starts one thread per subscriber, in the order of subscription, each with the number of the
      interrupt; they answer nobody, and nothing else changes. */
  lemma InterruptStarts(s: State, number: nat)
    requires Inv(s) && Enabled(s, Interrupt(number))
    ensures var t := Step(s, Interrupt(number)).state;
            && t.queue == s.queue + Ids(s.next, |s.interrupts[number]|)
            && ThreadsFor(t, s.next, s.interrupts[number], [number], None)
            && (forall id <- s.records :: id in t.records && t.records[id] == s.records[id])
            && t.running == s.running && t.services == s.services && t.events == s.events
            && t.interrupts == s.interrupts
  {
    ThreadsStart(s, s.interrupts[number], None, [number]);
    ScheduleAllGrows(s, s.interrupts[number], None, [number]);
  }

  /** An exception starts one thread per subscriber of entry 0 of the interrupt table, each with the saved registers;
      they take over what the faulting thread had to answer, and that thread is gone. */
  lemma FaultStarts(s: State, arguments: seq<nat>)
    requires Inv(s) && Enabled(s, Fault(arguments))
    ensures var t, caller := Step(s, Fault(arguments)).state, s.records[s.running.value].respondingTo;
            && t.queue == s.queue + Ids(s.next, |s.interrupts[0]|)
            && ThreadsFor(t, s.next, s.interrupts[0], arguments, caller)
            && s.running.value !in t.records && t.running.None?
            && (forall id <- s.records | Some(id) != s.running :: id in t.records && t.records[id] == s.records[id])
  {
    var caller := s.records[s.running.value].respondingTo;
    ThreadsStart(s, s.interrupts[EXCEPTION_SUBSCRIBERS], caller, arguments);
    ThreadsSurviveFree(ScheduleAll(s, s.interrupts[0], caller, arguments), s.running.value, s.next, s.interrupts[0],
                       arguments, caller);
  }

  /** Freeing an older record leaves the new threads alone. */
  lemma ThreadsSurviveFree(u: State, id: Id, first: Id, fs: seq<Function>, arguments: seq<nat>,
                           respondingTo: Option<Id>)
    requires ThreadsFor(u, first, fs, arguments, respondingTo) && id < first
    ensures ThreadsFor(Free(u, id), first, fs, arguments, respondingTo)
  {
    forall k: nat | k < |fs|
      ensures IsThread(Free(u, id), first + k, fs[k].service, fs[k].address, arguments, respondingTo)
    {
      assert IsThread(u, first + k, fs[k].service, fs[k].address, arguments, respondingTo);
    }
  }

  /** A syscall leaves a record that holds its number and its parameters, runs for the same service, owes the same
      answer, and waits at the end of the queue to be handled; the record of the thread is gone. */
  lemma CallContinues(s: State, handler: nat, parameters: Parameters)
    requires Inv(s) && Enabled(s, Call(handler, parameters))
    ensures var t, r := Step(s, Call(handler, parameters)).state, s.records[s.running.value];
            && t.queue == s.queue + [s.next] && s.next in t.records
            && t.records[s.next].handler == handler && t.records[s.next].parameters == parameters
            && t.records[s.next].returnValue == 0 && t.records[s.next].stack == Saved && !t.records[s.next].resume
            && t.records[s.next].service == r.service && t.records[s.next].respondingTo == r.respondingTo
            && s.running.value !in t.records && t.running.None?
            && (forall id <- s.records | Some(id) != s.running :: id in t.records && t.records[id] == s.records[id])
  {
    RunningUnreferenced(s);
  }

  /** No reachable state is stuck, and nothing is excluded but faults that do not have one taker for a pending reply:
      without a running thread the loop turns; a running thread may make any call or return; and interrupts 32 to 254
      may always come. */
  lemma EntriesPossible(s: State, oracle: Oracle, number: nat, handler: nat, parameters: Parameters, code: nat,
                        arguments: seq<nat>)
    requires Inv(s)
    ensures Enabled(s, Dispatch(oracle)) <==> s.running.None?
    ensures Enabled(s, Interrupt(number)) <==> 32 <= number < 255
    ensures Enabled(s, Call(handler, parameters)) <==> s.running.Some? && handler != 0
    ensures Enabled(s, Finish(code)) <==> s.running.Some?
    ensures Enabled(s, Fault(arguments)) <==>
              && s.running.Some?
              && (s.records[s.running.value].respondingTo.None? || |s.interrupts[0]| == 1)
  {
    if s.running.Some? {
      RunningUnreferenced(s);
    }
  }

  // ----- handled calls -----------------------------------------------------------------------

  /** The main loop is about to handle a call with this number. */
  predicate Handling(s: State, handler: nat) {
    && s.running.None? && s.queue != [] && s.queue[0] in s.records
    && !s.records[s.queue[0]].resume && s.records[s.queue[0]].handler == handler
  }

  /** The call about to be handled. */
  function Subject(s: State): Record
    requires s.queue != [] && s.queue[0] in s.records
  {
    s.records[s.queue[0]]
  }

  /** The call `id` goes on with `value`, at the end of the queue. */
  predicate GoesOnWith(t: State, id: Id, value: nat) {
    && id in t.records && t.records[id].resume && t.records[id].returnValue == value
    && t.queue != [] && t.queue[|t.queue| - 1] == id
  }

  lemma SubjectFresh(s: State, handler: nat)
    requires Inv(s) && Handling(s, handler)
    ensures ServiceKnown(s, s.queue[0]) && FreshCall(Subject(s)) && s.queue[0] < s.next && s.queue[0] !in s.queue[1..]
  {
    PopGood(s);
    UnheldIsUnreferenced(s.(queue := s.queue[1..]), s.queue[0]);
  }

  /** Handler 1: the returned index names a function of the caller's service that enters the given address. */
  lemma CreateFunctionReturns(s: State, oracle: Oracle)
    requires Inv(s) && Handling(s, 1) && oracle.named
    ensures DoDispatch(s, oracle).Next?
    ensures var t, id, r := DoDispatch(s, oracle).state, s.queue[0], Subject(s);
            && id in t.records && GoesOnWith(t, id, t.records[id].returnValue)
            && NamesFunction(t, r.service, t.records[id].returnValue, r.parameters[1])
  {
    SubjectFresh(s, 1);
  }

  /** From `s` to `t`, the request at the head of the queue came to wait for a new thread that enters `address` in
      `service` with the request's last two arguments and the name and the index of its caller's service. */
  ghost predicate Entered(s: State, t: State, service: nat, address: nat) {
    && s.queue != [] && ServiceKnown(s, s.queue[0])
    && var r := s.records[s.queue[0]];
    && AwaitsReply(t, s.queue[0], s.next)
    && IsThread(t, s.next, service, address,
                [r.parameters[2], r.parameters[3], s.services[r.service].nameHash, r.service], Some(s.queue[0]))
  }

  /** Handler 2: a request for function `index` of service `service` waits for a thread that enters that function. */
  lemma RequestEnters(s: State, oracle: Oracle, address: nat)
    requires Inv(s) && Handling(s, 2) && NamesFunction(s, Subject(s).parameters[0], Subject(s).parameters[1], address)
    ensures DoDispatch(s, oracle).Next?
    ensures var t := DoDispatch(s, oracle).state;
            t.queue == s.queue[1..] + [s.next] && Entered(s, t, Subject(s).parameters[0], address)
  {
    SubjectFresh(s, 2);
    RequestStarts(s, oracle);
  }

  /** Handler 8: the interrupt gets the given address in the caller's service as its last subscriber. */
  lemma SubscribeInterruptListed(s: State, oracle: Oracle)
    requires Inv(s) && Handling(s, 8) && Subject(s).parameters[0] < 255
    ensures DoDispatch(s, oracle).Next?
    ensures var t, id, r := DoDispatch(s, oracle).state, s.queue[0], Subject(s);
            && GoesOnWith(t, id, 0) && |t.interrupts| == |s.interrupts|
            && forall n | 0 <= n < |s.interrupts| ::
                 t.interrupts[n] == s.interrupts[n]
                                    + (if n == r.parameters[0] then [Function(r.service, r.parameters[1])] else [])
  {
    SubjectFresh(s, 8);
  }

  lemma PointersInTable(s: State, v: nat, k: nat)
    requires Linked(s) && v < |s.services| && k < |s.services[v].events|
    ensures s.services[v].events[k] < |s.events|
  {
    assert s.services[v] in s.services && s.services[v].events[k] in s.services[v].events;
  }

  /** Handler 9: the returned index names a new event of the caller's service, with the given name, and nothing else
      names it. */
  lemma CreateEventReturns(s: State, oracle: Oracle)
    requires Inv(s) && Handling(s, 9) && Subject(s).parameters[0] != 0
    ensures DoDispatch(s, oracle).Next?
    ensures var t, id, r := DoDispatch(s, oracle).state, s.queue[0], Subject(s);
            && id in t.records && GoesOnWith(t, id, t.records[id].returnValue)
            && NamesEvent(t, r.service, t.records[id].returnValue, |s.events|, r.parameters[0])
            && OnlyName(t, r.service, t.records[id].returnValue, |s.events|)
            && t.events[|s.events|].subscriptions == [] && t.events[|s.events|].waiting == []
  {
    SubjectFresh(s, 9);
    forall v: nat, k: nat | v < |s.services| && k < |s.services[v].events|
      ensures s.services[v].events[k] < |s.events|
    {
      PointersInTable(s, v, k);
    }
  }

  /** Handler 13: the caller learns the index of its own service. */
  lemma ServiceIdReturned(s: State, oracle: Oracle)
    requires Inv(s) && Handling(s, 13)
    ensures DoDispatch(s, oracle).Next? && GoesOnWith(DoDispatch(s, oracle).state, s.queue[0], Subject(s).service)
  {
    SubjectFresh(s, 13);
  }

  // ----- events ------------------------------------------------------------------------------

  /** The event that an await or a subscription with these two parameters means: entry `index` of the kernel's own
      events, the load event and the crash event, or of the event list of another service than service 0. */
  predicate Means(s: State, service: nat, index: nat, e: nat) {
    if service == 0 then index < 2 && e == index
    else service < |s.services| && index < |s.services[service].events| && s.services[service].events[index] == e
  }

  lemma MeansPointer(s: State, service: nat, index: nat, e: nat)
    requires Linked(s)
    ensures Means(s, service, index, e) <==> EventPointer(s, service, index) == Some(e)
    ensures Means(s, service, index, e) ==> e < |s.events|
  {
    EventPointerInTable(s, service, index);
  }

  /** Handler 12: the event gets the given address in the caller's service as its last subscriber. */
  lemma SubscribeEventListed(s: State, oracle: Oracle, e: nat)
    requires Inv(s) && Handling(s, 12) && Means(s, Subject(s).parameters[0], Subject(s).parameters[1], e)
    ensures DoDispatch(s, oracle).Next? && e < |s.events|
    ensures var t, id, r := DoDispatch(s, oracle).state, s.queue[0], Subject(s);
            && GoesOnWith(t, id, 0) && |t.events| == |s.events|
            && forall i | 0 <= i < |s.events| ::
                 && t.events[i].subscriptions == s.events[i].subscriptions
                                                 + (if i == e then [Function(r.service, r.parameters[2])] else [])
                 && t.events[i].waiting == s.events[i].waiting
  {
    SubjectFresh(s, 12);
    MeansPointer(s, Subject(s).parameters[0], Subject(s).parameters[1], e);
  }

  /** Handler 21: the call waits behind the earlier ones for the event that its parameters mean. */
  lemma AwaitWaits(s: State, oracle: Oracle, e: nat)
    requires Inv(s) && Handling(s, 21) && Means(s, Subject(s).parameters[0], Subject(s).parameters[1], e)
    ensures e < |s.events| && DoDispatch(s, oracle).Next?
    ensures var t, id := DoDispatch(s, oracle).state, s.queue[0];
            PhaseOf(t, id) == Parked && e < |t.events| && t.events[e].waiting == s.events[e].waiting + [id]
  {
    MeansPointer(s, Subject(s).parameters[0], Subject(s).parameters[1], e);
    AwaitStarts(s, oracle, e);
  }

  /** A fire starts one thread per subscriber, in the order of subscription, each with the data. */
  lemma FireStartsThreads(s: State, e: nat, data: nat, code: nat)
    requires Linked(s) && Allocated(s) && e < |s.events|
    ensures var t := FireEvent(s, e, data, code);
            && s.queue + Ids(s.next, |s.events[e].subscriptions|) <= t.queue
            && ThreadsFor(t, s.next, s.events[e].subscriptions, [data], None)
  {
    var fs := s.events[e].subscriptions;
    ThreadsStart(s, fs, None, [data]);
    ScheduleAllGrows(s, fs, None, [data]);
    var u := ScheduleAll(s, fs, None, [data]);
    ReleaseFrame(u, e, data, code);
    assert s.events[e] in s.events;
    forall k: nat | k < |fs|
      ensures IsThread(FireEvent(s, e, data, code), s.next + k, fs[k].service, fs[k].address, [data], None)
    {
      assert IsThread(u, s.next + k, fs[k].service, fs[k].address, [data], None);
    }
  }

  /** Threads that a handler has started are still there once its call is settled. */
  lemma ThreadsSurviveSettle(h: State, id: Id, first: Id, fs: seq<Function>, arguments: seq<nat>, q: seq<Id>)
    requires id in h.records && id < first && ThreadsFor(h, first, fs, arguments, None) && q <= h.queue
    ensures ThreadsFor(Settle(h, id), first, fs, arguments, None) && q <= Settle(h, id).queue
  {
    forall k: nat | k < |fs|
      ensures IsThread(Settle(h, id), first + k, fs[k].service, fs[k].address, arguments, None)
    {
      assert IsThread(h, first + k, fs[k].service, fs[k].address, arguments, None);
    }
  }

  /** What a fire of `e` with this data and code does: its subscribers start with the data behind what is queued, and
      of the calls that wait for it, those that asked for this code or for none carry the data and are queued, while
      the others wait on. */
  ghost predicate Fired(s: State, t: State, e: nat, data: nat, code: nat) {
    && e < |s.events| == |t.events| && s.queue != []
    && s.queue[1..] + Ids(s.next, |s.events[e].subscriptions|) <= t.queue
    && ThreadsFor(t, s.next, s.events[e].subscriptions, [data], None)
    && forall c <- s.events[e].waiting ::
         && c in s.records && c in t.records
         && if s.records[c].parameters[2] == 0 || s.records[c].parameters[2] == code
            then c in t.queue && t.records[c] == s.records[c].(returnValue := data)
            else c in t.events[e].waiting && t.records[c] == s.records[c]
  }

  lemma WaitersFired(s: State, a: Action, t: State, e: nat, data: nat, code: nat)
    requires Inv(s) && IsStep(s, a, t) && e < |s.events| && FiringOf(s, a) == Some(Firing(e, data, code))
    ensures forall c <- s.events[e].waiting ::
              && c in s.records && c in t.records
              && if s.records[c].parameters[2] == 0 || s.records[c].parameters[2] == code
                 then c in t.queue && t.records[c] == s.records[c].(returnValue := data)
                 else e < |t.events| && c in t.events[e].waiting && t.records[c] == s.records[c]
  {
    forall c <- s.events[e].waiting
      ensures c in s.records && c in t.records
      ensures if s.records[c].parameters[2] == 0 || s.records[c].parameters[2] == code
              then c in t.queue && t.records[c] == s.records[c].(returnValue := data)
              else e < |t.events| && c in t.events[e].waiting && t.records[c] == s.records[c]
    {
      AwaitStep(s, a, t, c, e);
    }
  }

  /** The call is a fire of event `e`. */
  ghost predicate FiresEvent(s: State, id: Id, e: nat) {
    && ServiceKnown(s, id)
    && var r := s.records[id];
       r.handler == 11 && r.parameters[0] < |s.services[r.service].events|
       && s.services[r.service].events[r.parameters[0]] == e
  }

  lemma FireHandler(s: State, id: Id, oracle: Oracle, e: nat)
    requires Linked(s) && FiresEvent(s, id, e)
    ensures e < |s.events|
    ensures Handle(s, id, oracle) == Next(FireEvent(s, e, s.records[id].parameters[1], s.records[id].parameters[2]))
  {
    var r := s.records[id];
    assert s.services[r.service] in s.services && e in s.services[r.service].events;
  }

  lemma FiringIs(s: State, oracle: Oracle, e: nat)
    requires Linked(s) && Handling(s, 11) && FiresEvent(s, s.queue[0], e)
    ensures FiringOf(s, Dispatch(oracle)) == Some(Firing(e, Subject(s).parameters[1], Subject(s).parameters[2]))
  {
  }

  /** The end of the turn for a call that its handler did not park. */
  lemma SettledCall(s: State, oracle: Oracle, h: State, value: nat)
    requires Linked(s) && s.running.None? && s.queue != [] && s.queue[0] in s.records && !s.records[s.queue[0]].resume
    requires Handle(s.(queue := s.queue[1..]), s.queue[0], oracle) == Next(h)
    requires s.queue[0] in h.records && !h.records[s.queue[0]].avoidReschedule
    requires h.records[s.queue[0]].returnValue == value
    ensures DoDispatch(s, oracle) == Next(Settle(h, s.queue[0]))
    ensures GoesOnWith(Settle(h, s.queue[0]), s.queue[0], value)
  {
    DispatchCases(s, oracle);
  }

  lemma FireHandled(s: State, oracle: Oracle, e: nat)
    requires Inv(s) && Handling(s, 11) && FiresEvent(s, s.queue[0], e)
    ensures e < |s.events| && DoDispatch(s, oracle).Next?
    ensures var t, r := DoDispatch(s, oracle).state, Subject(s);
            && s.queue[1..] + Ids(s.next, |s.events[e].subscriptions|) <= t.queue
            && ThreadsFor(t, s.next, s.events[e].subscriptions, [r.parameters[1]], None)
            && |t.events| == |s.events| && GoesOnWith(t, s.queue[0], 0)
  {
    var id, u, data, code := s.queue[0], s.(queue := s.queue[1..]), Subject(s).parameters[1], Subject(s).parameters[2];
    SubjectFresh(s, 11);
    PopGood(s);
    FireHandler(u, id, oracle, e);
    var h := FireEvent(u, e, data, code);
    FireGood(u, Some(id), e, data, code);
    FireStartsThreads(u, e, data, code);
    FireTables(u, e, data, code);
    SettledCall(s, oracle, h, 0);
    ThreadsSurviveSettle(h, id, s.next, s.events[e].subscriptions, [data],
                         u.queue + Ids(s.next, |s.events[e].subscriptions|));
  }

  /** Handler 11: fires event `index` of the caller's own service, with the data and the code that it was given. */
  lemma FireFires(s: State, oracle: Oracle, e: nat)
    requires Inv(s) && Handling(s, 11) && FiresEvent(s, s.queue[0], e)
    ensures DoDispatch(s, oracle).Next? && GoesOnWith(DoDispatch(s, oracle).state, s.queue[0], 0)
    ensures Fired(s, DoDispatch(s, oracle).state, e, Subject(s).parameters[1], Subject(s).parameters[2])
  {
    var r := Subject(s);
    FireHandled(s, oracle, e);
    FiringIs(s, oracle, e);
    WaitersFired(s, Dispatch(oracle), DoDispatch(s, oracle).state, e, r.parameters[1], r.parameters[2]);
  }

  // ----- loads -------------------------------------------------------------------------------

  lemma LoadHandler(s: State, id: Id, oracle: Oracle)
    requires Linked(s) && Allocated(s) && id in s.records && s.records[id].handler == 5
    requires oracle.named && oracle.program.Some?
    ensures id in LoadService(s, oracle.program.value).records
    ensures Handle(s, id, oracle).Next?
    ensures var h, program := Handle(s, id, oracle).state, oracle.program.value;
            var loaded := LoadService(s, program);
            && id in h.records && h.records[id].returnValue == |s.services|
            && h.services == loaded.services && h.events == loaded.events && loaded.queue <= h.queue
            && forall c <- loaded.records | c != id :: c in h.records && h.records[c] == loaded.records[c]
  {
    LoadKeepsCaller(s, id, oracle.program.value);
    LoadServiceEvolves(s, oracle.program.value);
  }

  lemma LoadServiceLists(s: State, program: Program)
    requires Linked(s) && Allocated(s)
    ensures var t := LoadService(s, program);
            && t.services == s.services + [Service(|s.services|, program.nameHash,
                                                   [Function(|s.services|, program.address)], [])]
            && t.queue == FireEvent(s, 0, program.nameHash, 0).queue
            && t.records == FireEvent(s, 0, program.nameHash, 0).records
            && t.events == FireEvent(s, 0, program.nameHash, 0).events
  {
  }

  /** The new threads of `f` are those of `h`, which changes no record but `id`. */
  lemma ThreadsKept(f: State, h: State, id: Id, first: Id, fs: seq<Function>, arguments: seq<nat>)
    requires ThreadsFor(f, first, fs, arguments, None) && id < first
    requires forall c <- f.records | c != id :: c in h.records && h.records[c] == f.records[c]
    ensures ThreadsFor(h, first, fs, arguments, None)
  {
    forall k: nat | k < |fs| ensures IsThread(h, first + k, fs[k].service, fs[k].address, arguments, None) {
      assert IsThread(f, first + k, fs[k].service, fs[k].address, arguments, None);
    }
  }

  lemma LoadThreads(u: State, id: Id, oracle: Oracle)
    requires Linked(u) && Allocated(u) && id in u.records && u.records[id].handler == 5
    requires oracle.named && oracle.program.Some?
    ensures Handle(u, id, oracle).Next?
    ensures var h, program := Handle(u, id, oracle).state, oracle.program.value;
            && id in h.records && h.records[id].returnValue == |u.services|
            && h.services == u.services + [Service(|u.services|, program.nameHash,
                                                   [Function(|u.services|, program.address)], [])]
            && |h.events| == |u.events|
            && u.queue + Ids(u.next, |u.events[0].subscriptions|) <= h.queue
            && ThreadsFor(h, u.next, u.events[0].subscriptions, [program.nameHash], None)
  {
    var program := oracle.program.value;
    var f := FireEvent(u, 0, program.nameHash, 0);
    LoadHandler(u, id, oracle);
    LoadServiceLists(u, program);
    FireStartsThreads(u, 0, program.nameHash, 0);
    FireTables(u, 0, program.nameHash, 0);
    ThreadsKept(f, Handle(u, id, oracle).state, id, u.next, u.events[0].subscriptions, [program.nameHash]);
  }

  lemma LoadSettled(s: State, oracle: Oracle)
    requires Inv(s) && Handling(s, 5) && oracle.named && oracle.program.Some?
    ensures DoDispatch(s, oracle).Next?
    ensures var t, program := DoDispatch(s, oracle).state, oracle.program.value;
            && t.services == s.services + [Service(|s.services|, program.nameHash,
                                                   [Function(|s.services|, program.address)], [])]
            && |t.events| == |s.events|
            && s.queue[1..] + Ids(s.next, |s.events[0].subscriptions|) <= t.queue
            && ThreadsFor(t, s.next, s.events[0].subscriptions, [program.nameHash], None)
            && s.queue[0] in t.records && t.records[s.queue[0]].returnValue == |s.services|
  {
    var id, u := s.queue[0], s.(queue := s.queue[1..]);
    SubjectFresh(s, 5);
    LoadThreads(u, id, oracle);
    DispatchCases(s, oracle);
    ThreadsSurviveSettle(Handle(u, id, oracle).state, id, s.next, s.events[0].subscriptions,
                         [oracle.program.value.nameHash], u.queue + Ids(s.next, |s.events[0].subscriptions|));
  }

  /** Handler 5: the program becomes the next service, function 0 of it is the program's entry, the call gets its index,
      and the load event fires with the hash of its name and code 0. */
  lemma LoadLists(s: State, oracle: Oracle)
    requires Inv(s) && Handling(s, 5) && oracle.named && oracle.program.Some?
    ensures DoDispatch(s, oracle).Next?
    ensures var t, program := DoDispatch(s, oracle).state, oracle.program.value;
            && |t.services| == |s.services| + 1 && t.services[..|s.services|] == s.services
            && t.services[|s.services|].nameHash == program.nameHash && t.services[|s.services|].events == []
            && NamesFunction(t, |s.services|, 0, program.address) && |t.services[|s.services|].functions| == 1
            && s.queue[0] in t.records && t.records[s.queue[0]].returnValue == |s.services|
            && Fired(s, t, 0, program.nameHash, 0)
  {
    LoadSettled(s, oracle);
    var t, program := DoDispatch(s, oracle).state, oracle.program.value;
    assert FiringOf(s, Dispatch(oracle)) == Some(Firing(0, program.nameHash, 0));
    WaitersFired(s, Dispatch(oracle), t, 0, program.nameHash, 0);
  }

  // ----- chains ------------------------------------------------------------------------------

  /** Each record of `chain` answers the next one. */
  ghost predicate IsChain(records: map<Id, Record>, chain: seq<Id>, from: Id, to: Id) {
    && chain != [] && chain[0] == from && chain[|chain| - 1] == to && to in records
    && forall k | 0 <= k < |chain| - 1 :: Answers(records, chain[k], chain[k + 1])
  }

  lemma {:induction false} ChainMembers(records: map<Id, Record>, chain: seq<Id>, from: Id, to: Id)
    requires LinksDown(records) && IsChain(records, chain, from, to)
    ensures to in Chain(records, from)
    decreases |chain|
  {
    if |chain| > 1 {
      assert Answers(records, chain[0], chain[1]);
      forall k | 0 <= k < |chain[1..]| - 1 ensures Answers(records, chain[1..][k], chain[1..][k + 1]) {
        assert Answers(records, chain[k + 1], chain[k + 1 + 1]);
      }
      ChainMembers(records, chain[1..], chain[1], to);
    }
  }

  lemma {:induction false} MembersChained(records: map<Id, Record>, from: Id, to: Id) returns (chain: seq<Id>)
    requires LinksDown(records) && from in records && to in Chain(records, from)
    ensures IsChain(records, chain, from, to)
    decreases from
  {
    if from == to {
      chain := [from];
    } else {
      var rest := MembersChained(records, records[from].respondingTo.value, to);
      chain := [from] + rest;
      forall k | 0 <= k < |chain| - 1 ensures Answers(records, chain[k], chain[k + 1]) {
        if k > 0 {
          assert Answers(records, rest[k - 1], rest[k]);
        }
      }
    }
  }

  /** A record of this service is on the chain of calls that begins with `id`. */
  ghost predicate ServiceOnChain(s: State, id: Id, service: nat) {
    exists chain: seq<Id>, c: Id :: IsChain(s.records, chain, id, c) && s.records[c].service == service
  }

  lemma FoundIsOnChain(s: State, id: Id, service: nat)
    requires Inv(s) && id in s.records
    ensures (exists c <- Chain(s.records, id) :: ServiceId(s, c) == service) <==> ServiceOnChain(s, id, service)
  {
    assert LinksDown(s.records);
    ChainInRecords(s.records, id);
    assert forall c <- s.records :: ServiceKnown(s, c) && ServiceId(s, c) == s.records[c].service;
    if exists c <- Chain(s.records, id) :: ServiceId(s, c) == service {
      var c :| c in Chain(s.records, id) && ServiceId(s, c) == service;
      var chain := MembersChained(s.records, id, c);
      assert IsChain(s.records, chain, id, c) && s.records[c].service == service;
    }
    if ServiceOnChain(s, id, service) {
      var chain: seq<Id>, c: Id :| IsChain(s.records, chain, id, c) && s.records[c].service == service;
      ChainMembers(s.records, chain, id, c);
      assert ServiceId(s, c) == service;
    }
  }

  lemma {:induction false} ChainInRecords(records: map<Id, Record>, id: Id)
    ensures forall c <- Chain(records, id) :: c in records
    decreases id
  {
    if id in records && records[id].respondingTo.Some? && records[id].respondingTo.value < id {
      ChainInRecords(records, records[id].respondingTo.value);
    }
  }

  /** Handler 20: the call goes on with 1 if the service occurs on the chain of the calls that it answers, itself
      included, and with 0 otherwise. */
  lemma StackContainsReturns(s: State, oracle: Oracle)
    requires Inv(s) && Handling(s, 20)
    ensures DoDispatch(s, oracle).Next?
    ensures GoesOnWith(DoDispatch(s, oracle).state, s.queue[0],
                       if ServiceOnChain(s, s.queue[0], Subject(s).parameters[0]) then 1 else 0)
  {
    var id, u := s.queue[0], s.(queue := s.queue[1..]);
    SubjectFresh(s, 20);
    FoundIsOnChain(s, id, Subject(s).parameters[0]);
    assert forall c: Id :: ServiceId(u, c) == ServiceId(s, c);
    assert Handle(u, id, oracle) == Next(HandleStackContains(u, id));
    var found := ServiceOnChain(s, id, Subject(s).parameters[0]);
    SettledCall(s, oracle, HandleStackContains(u, id), if found then 1 else 0);
  }

  /** Numbers from 25 on are no syscalls: the call goes on with 0. */
  lemma UnknownCallGoesOn(s: State, oracle: Oracle, handler: nat)
    requires Inv(s) && Handling(s, handler) && handler >= 25
    ensures DoDispatch(s, oracle).Next? && GoesOnWith(DoDispatch(s, oracle).state, s.queue[0], 0)
  {
    SubjectFresh(s, handler);
    SettledCall(s, oracle, s.(queue := s.queue[1..]), 0);
  }

  // ----- what indices mean later -------------------------------------------------------------

  /** Step `k` of the run handles a call with this number. */
  ghost predicate Handles(states: seq<State>, actions: seq<Action>, k: nat, handler: nat)
    requires k < |actions| < |states|
  {
    actions[k].Dispatch? && Handling(states[k], handler)
  }

  lemma HandledStep(states: seq<State>, actions: seq<Action>, k: nat, handler: nat)
    requires IsRun(states, actions) && k < |actions| && Handles(states, actions, k, handler)
    ensures Inv(states[k]) && DoDispatch(states[k], actions[k].oracle) == Next(states[k + 1])
  {
    OwnershipOverRuns(states, actions, k);
    RunStep(states, actions, k);
  }

  /** Step `j` handles a request for a function that was named at time `i`. */
  lemma RequestEntersNamed(states: seq<State>, actions: seq<Action>, i: nat, j: nat, service: nat, index: nat,
                           address: nat)
    requires IsRun(states, actions) && i <= j < |actions| && NamesFunction(states[i], service, index, address)
    requires Handles(states, actions, j, 2)
    requires Subject(states[j]).parameters[0] == service && Subject(states[j]).parameters[1] == index
    ensures Entered(states[j], states[j + 1], service, address)
  {
    FunctionNameOverRuns(states, actions, i, j, service, index, address);
    HandledStep(states, actions, j, 2);
    RequestEnters(states[j], actions[j].oracle, address);
  }

  /** Step `i` gives a function its name. */
  lemma CreatedFunctionNamed(states: seq<State>, actions: seq<Action>, i: nat)
    requires IsRun(states, actions) && i < |actions| && Handles(states, actions, i, 1) && actions[i].oracle.named
    ensures states[i].queue[0] in states[i + 1].records
    ensures NamesFunction(states[i + 1], Subject(states[i]).service,
                          states[i + 1].records[states[i].queue[0]].returnValue, Subject(states[i]).parameters[1])
  {
    HandledStep(states, actions, i, 1);
    CreateFunctionReturns(states[i], actions[i].oracle);
  }

  /** At boot, the first thread is about to enter the loader, and function 0 of each of the two services is the entry of
      its program. */
  lemma BootNames(hlib: Program, loader: Program, n: nat, c: nat)
    ensures var s := Boot(hlib, loader, n, c);
            && Inv(s) && s.queue == [0] && IsThread(s, 0, 1, loader.address, [], None) && |s.services| == 2
            && NamesFunction(s, 0, 0, hlib.address) && NamesFunction(s, 1, 0, loader.address)
            && s.services[0].nameHash == hlib.nameHash && s.services[1].nameHash == loader.nameHash
            && |s.events| == 2 && s.events[0].name == n && s.events[1].name == c
            && (forall i | 0 <= i < 2 :: s.events[i].subscriptions == [] && s.services[i].events == [])
            && (forall i | 0 <= i < 255 :: s.interrupts[i] == [])
  {
    BootInv(hlib, loader, n, c);
  }

  /** Over every run, the index that a create-function call got, together with the id of its caller's service, names the
      given address for every later request, which then waits for a thread that enters it. */
  lemma RequestEntersCreatedFunction(states: seq<State>, actions: seq<Action>, i: nat, j: nat)
    requires IsRun(states, actions) && i < j < |actions|
    requires Handles(states, actions, i, 1) && actions[i].oracle.named && Handles(states, actions, j, 2)
    requires states[i].queue[0] in states[i + 1].records
    requires Subject(states[j]).parameters[0] == Subject(states[i]).service
    requires Subject(states[j]).parameters[1] == states[i + 1].records[states[i].queue[0]].returnValue
    ensures Entered(states[j], states[j + 1], Subject(states[i]).service, Subject(states[i]).parameters[1])
  {
    CreatedFunctionNamed(states, actions, i);
    RequestEntersNamed(states, actions, i + 1, j, Subject(states[j]).parameters[0], Subject(states[j]).parameters[1],
                       Subject(states[i]).parameters[1]);
  }

  /** Step `i` gives a program's entry its name. */
  lemma LoadedProgramNamed(states: seq<State>, actions: seq<Action>, i: nat)
    requires IsRun(states, actions) && i < |actions|
    requires Handles(states, actions, i, 5) && actions[i].oracle.named && actions[i].oracle.program.Some?
    ensures states[i].queue[0] in states[i + 1].records
    ensures NamesFunction(states[i + 1], states[i + 1].records[states[i].queue[0]].returnValue, 0,
                          actions[i].oracle.program.value.address)
  {
    HandledStep(states, actions, i, 5);
    LoadLists(states[i], actions[i].oracle);
  }

  /** Over every run, function 0 of a loaded service is the program's entry. */
  lemma RequestEntersLoadedProgram(states: seq<State>, actions: seq<Action>, i: nat, j: nat)
    requires IsRun(states, actions) && i < j < |actions|
    requires Handles(states, actions, i, 5) && actions[i].oracle.named && actions[i].oracle.program.Some?
    requires Handles(states, actions, j, 2) && states[i].queue[0] in states[i + 1].records
    requires Subject(states[j]).parameters[0] == states[i + 1].records[states[i].queue[0]].returnValue
    requires Subject(states[j]).parameters[1] == 0
    ensures Entered(states[j], states[j + 1], Subject(states[j]).parameters[0],
                    actions[i].oracle.program.value.address)
  {
    LoadedProgramNamed(states, actions, i);
    RequestEntersNamed(states, actions, i + 1, j, Subject(states[j]).parameters[0], 0,
                       actions[i].oracle.program.value.address);
  }

  /** Over every run, the index that a create-event call got goes on naming that event in its service, under its name,
      and nothing else names it. */
  lemma CreatedEventStaysNamed(states: seq<State>, actions: seq<Action>, i: nat, j: nat)
    requires IsRun(states, actions) && i < j < |states| && i < |actions|
    requires Handles(states, actions, i, 9) && Subject(states[i]).parameters[0] != 0
    ensures states[i].queue[0] in states[i + 1].records
    ensures var index, r := states[i + 1].records[states[i].queue[0]].returnValue, Subject(states[i]);
            && NamesEvent(states[j], r.service, index, |states[i].events|, r.parameters[0])
            && OnlyName(states[j], r.service, index, |states[i].events|)
  {
    HandledStep(states, actions, i, 9);
    CreateEventReturns(states[i], actions[i].oracle);
    var index, r := states[i + 1].records[states[i].queue[0]].returnValue, Subject(states[i]);
    EventNameOverRuns(states, actions, i + 1, j, r.service, index, |states[i].events|, r.parameters[0]);
  }

  /** Some parameters of an await or a subscription mean event `e`. */
  ghost predicate CanBeMeant(s: State, e: nat) {
    exists service: nat, index: nat :: Means(s, service, index, e)
  }

  lemma NamedIsMeantIff(s: State, service: nat, index: nat, e: nat, name: nat)
    requires NamesEvent(s, service, index, e, name) && OnlyName(s, service, index, e) && e >= 2
    ensures CanBeMeant(s, e) <==> service != 0
  {
    if service != 0 {
      assert Means(s, service, index, e);
    }
    forall v: nat, k: nat | Means(s, v, k, e) ensures service != 0 {
    }
  }

  /** A created event can be awaited and subscribed to, then or later, if and only if its service is not service 0:
      there the parameters mean the events of the kernel. */
  lemma CreatedEventMeantIff(states: seq<State>, actions: seq<Action>, i: nat, j: nat)
    requires IsRun(states, actions) && i < j < |states| && i < |actions|
    requires Handles(states, actions, i, 9) && Subject(states[i]).parameters[0] != 0
    ensures CanBeMeant(states[j], |states[i].events|) <==> Subject(states[i]).service != 0
  {
    CreatedEventStaysNamed(states, actions, i, j);
    HandledStep(states, actions, i, 9);
    KernelEventsThere(states[i]);
    NamedIsMeantIff(states[j], Subject(states[i]).service, states[i + 1].records[states[i].queue[0]].returnValue,
                    |states[i].events|, Subject(states[i]).parameters[0]);
  }

  lemma KernelEventsThere(s: State)
    requires Inv(s)
    ensures |s.events| >= 2
  {
  }

  /** Over every run, a later await of a created event waits for that event. */
  lemma AwaitOfCreatedEvent(states: seq<State>, actions: seq<Action>, i: nat, j: nat)
    requires IsRun(states, actions) && i < j < |actions|
    requires Handles(states, actions, i, 9) && Subject(states[i]).parameters[0] != 0
    requires Handles(states, actions, j, 21) && states[i].queue[0] in states[i + 1].records
    requires Subject(states[j]).parameters[0] == Subject(states[i]).service != 0
    requires Subject(states[j]).parameters[1] == states[i + 1].records[states[i].queue[0]].returnValue
    ensures var e, s, t := |states[i].events|, states[j], states[j + 1];
            && e < |s.events| && e < |t.events| && PhaseOf(t, s.queue[0]) == Parked
            && t.events[e].waiting == s.events[e].waiting + [s.queue[0]]
  {
    CreatedEventStaysNamed(states, actions, i, j);
    HandledStep(states, actions, j, 21);
    AwaitWaits(states[j], actions[j].oracle, |states[i].events|);
  }

  /** Over every run, a later subscription to a created event subscribes to that event. */
  lemma SubscriptionToCreatedEvent(states: seq<State>, actions: seq<Action>, i: nat, j: nat)
    requires IsRun(states, actions) && i < j < |actions|
    requires Handles(states, actions, i, 9) && Subject(states[i]).parameters[0] != 0
    requires Handles(states, actions, j, 12) && states[i].queue[0] in states[i + 1].records
    requires Subject(states[j]).parameters[0] == Subject(states[i]).service != 0
    requires Subject(states[j]).parameters[1] == states[i + 1].records[states[i].queue[0]].returnValue
    ensures Subscribed(states[j + 1], |states[i].events|,
                       Function(Subject(states[j]).service, Subject(states[j]).parameters[2]))
  {
    CreatedEventStaysNamed(states, actions, i, j);
    HandledStep(states, actions, j, 12);
    SubscribeEventListed(states[j], actions[j].oracle, |states[i].events|);
  }

  /** Over every run, a later fire by the creating service fires the created event. */
  lemma FireOfCreatedEvent(states: seq<State>, actions: seq<Action>, i: nat, j: nat)
    requires IsRun(states, actions) && i < j < |actions|
    requires Handles(states, actions, i, 9) && Subject(states[i]).parameters[0] != 0
    requires Handles(states, actions, j, 11) && states[i].queue[0] in states[i + 1].records
    requires Subject(states[j]).service == Subject(states[i]).service
    requires Subject(states[j]).parameters[0] == states[i + 1].records[states[i].queue[0]].returnValue
    ensures Fired(states[j], states[j + 1], |states[i].events|, Subject(states[j]).parameters[1],
                  Subject(states[j]).parameters[2])
  {
    CreatedEventStaysNamed(states, actions, i, j);
    HandledStep(states, actions, j, 11);
    SubjectFresh(states[j], 11);
    FireFires(states[j], actions[j].oracle, |states[i].events|);
  }

  /** In this state a new thread enters this function with these arguments, and answers nobody. */
  ghost predicate StartsIn(s: State, t: State, f: Function, arguments: seq<nat>) {
    exists id: Id :: s.next <= id && id in t.queue && IsThread(t, id, f.service, f.address, arguments, None)
  }

  lemma OneOfThreads(s: State, t: State, q: seq<Id>, fs: seq<Function>, f: Function, arguments: seq<nat>)
    requires ThreadsFor(t, s.next, fs, arguments, None) && f in fs && q + Ids(s.next, |fs|) <= t.queue
    ensures StartsIn(s, t, f, arguments)
  {
    var k: nat :| k < |fs| && fs[k] == f;
    assert (q + Ids(s.next, |fs|))[|q| + k] == s.next + k;
    assert IsThread(t, s.next + k, f.service, f.address, arguments, None);
  }

  /** Step `i` subscribes to event `e`. */
  lemma SubscriptionListed(states: seq<State>, actions: seq<Action>, i: nat, e: nat)
    requires IsRun(states, actions) && i < |actions| && Handles(states, actions, i, 12)
    requires Means(states[i], Subject(states[i]).parameters[0], Subject(states[i]).parameters[1], e)
    ensures Subscribed(states[i + 1], e, Function(Subject(states[i]).service, Subject(states[i]).parameters[2]))
  {
    HandledStep(states, actions, i, 12);
    SubscribeEventListed(states[i], actions[i].oracle, e);
  }

  /** Step `j` fires event `e`, to which `f` has subscribed. */
  lemma FireStartsListed(states: seq<State>, actions: seq<Action>, j: nat, e: nat, f: Function)
    requires IsRun(states, actions) && j < |actions| && Subscribed(states[j], e, f)
    requires Handles(states, actions, j, 11) && FiresEvent(states[j], states[j].queue[0], e)
    ensures StartsIn(states[j], states[j + 1], f, [Subject(states[j]).parameters[1]])
  {
    HandledStep(states, actions, j, 11);
    FireFires(states[j], actions[j].oracle, e);
    OneOfThreads(states[j], states[j + 1], states[j].queue[1..], states[j].events[e].subscriptions, f,
                 [Subject(states[j]).parameters[1]]);
  }

  /** Over every run, whoever subscribed to an event is started by every later fire of it, with the data. */
  lemma FireStartsSubscriber(states: seq<State>, actions: seq<Action>, i: nat, j: nat, e: nat)
    requires IsRun(states, actions) && i < j < |actions|
    requires Handles(states, actions, i, 12)
    requires Means(states[i], Subject(states[i]).parameters[0], Subject(states[i]).parameters[1], e)
    requires Handles(states, actions, j, 11) && FiresEvent(states[j], states[j].queue[0], e)
    ensures StartsIn(states[j], states[j + 1],
                     Function(Subject(states[i]).service, Subject(states[i]).parameters[2]),
                     [Subject(states[j]).parameters[1]])
  {
    var f := Function(Subject(states[i]).service, Subject(states[i]).parameters[2]);
    SubscriptionListed(states, actions, i, e);
    SubscriberOverRuns(states, actions, i + 1, j, e, f);
    FireStartsListed(states, actions, j, e, f);
  }

  /** Step `i` subscribes to an interrupt. */
  lemma InterruptListed(states: seq<State>, actions: seq<Action>, i: nat)
    requires IsRun(states, actions) && i < |actions| && Handles(states, actions, i, 8)
    requires Subject(states[i]).parameters[0] < 255
    ensures Listens(states[i + 1], Subject(states[i]).parameters[0],
                    Function(Subject(states[i]).service, Subject(states[i]).parameters[1]))
  {
    HandledStep(states, actions, i, 8);
    SubscribeInterruptListed(states[i], actions[i].oracle);
  }

  /** Step `j` is an interrupt to which `f` has subscribed. */
  lemma InterruptStartsListed(states: seq<State>, actions: seq<Action>, j: nat, n: nat, f: Function)
    requires IsRun(states, actions) && j < |actions| && Listens(states[j], n, f) && actions[j] == Interrupt(n)
    ensures n < 255 && StartsIn(states[j], states[j + 1], f, [n])
  {
    OwnershipOverRuns(states, actions, j);
    RunStep(states, actions, j);
    InterruptStarts(states[j], n);
    OneOfThreads(states[j], states[j + 1], states[j].queue, states[j].interrupts[n], f, [n]);
  }

  /** Over every run, whoever subscribed to an interrupt is started by every later one with that number. */
  lemma InterruptStartsSubscriber(states: seq<State>, actions: seq<Action>, i: nat, j: nat)
    requires IsRun(states, actions) && i < j < |actions|
    requires Handles(states, actions, i, 8)
    requires actions[j] == Interrupt(Subject(states[i]).parameters[0])
    ensures StartsIn(states[j], states[j + 1],
                     Function(Subject(states[i]).service, Subject(states[i]).parameters[1]),
                     [Subject(states[i]).parameters[0]])
  {
    var n := Subject(states[i]).parameters[0];
    var f := Function(Subject(states[i]).service, Subject(states[i]).parameters[1]);
    InterruptInTable(states, actions, j);
    InterruptListed(states, actions, i);
    ListenerOverRuns(states, actions, i + 1, j, n, f);
    InterruptStartsListed(states, actions, j, n, f);
  }

  lemma InterruptInTable(states: seq<State>, actions: seq<Action>, j: nat)
    requires IsRun(states, actions) && j < |actions| && actions[j].Interrupt?
    ensures actions[j].number < 255
  {
    RunStep(states, actions, j);
  }
}

/**
 Every step of the scheduler keeps the ownership invariant.

 The lemmas follow the call structure of the kernel: first what scheduling a thread and firing an
 event do to the holder counts, then one lemma per handler, then one per step.
 */
module SchedulerInvariant {
  import opened Optional
  import opened Scheduler
  import opened SchedulerOwnership

  // ----- scheduling --------------------------------------------------------------------------

  lemma ScheduleCounts(s: State, f: Function, respondingTo: Option<Id>, arguments: seq<nat>, x: Id)
    requires s.next !in s.records
    ensures Holders(ScheduleFunction(s, f, respondingTo, arguments), x)
         == Holders(s, x) + One(x == s.next) + One(respondingTo == Some(x))
  {
    var t := ScheduleFunction(s, f, respondingTo, arguments);
    BehindUpdate(s.records, t.records, s.next, s.next, x);
  }

  lemma UpdateCounts(s: State, id: Id, r: Record, x: Id)
    requires id in s.records && r.respondingTo == s.records[id].respondingTo
    ensures Holders(Update(s, id, r), x) == Holders(s, x)
  {
    BehindUpdate(s.records, s.records[id := r], id, s.next, x);
  }

  lemma ScheduleOwned(s: State, hand: Option<Id>, f: Function, arguments: seq<nat>)
    requires Owned(s, hand) && s.next !in s.records && hand != Some(s.next)
    ensures Owned(ScheduleFunction(s, f, None, arguments), hand)
  {
    var t := ScheduleFunction(s, f, None, arguments);
    forall x: Id ensures Holders(t, x) + One(Owed(t, hand, x)) == One(x in t.records) {
      ScheduleCounts(s, f, None, arguments, x);
      assert Holders(s, x) + One(Owed(s, hand, x)) == One(x in s.records);
    }
  }

  lemma ScheduleShape(s: State, f: Function, respondingTo: Option<Id>, arguments: seq<nat>)
    requires Shape(s) && f.service < |s.services|
    ensures Shape(ScheduleFunction(s, f, respondingTo, arguments))
  {
    var t := ScheduleFunction(s, f, respondingTo, arguments);
    forall id <- t.records ensures ServiceKnown(t, id) {
      assert id in s.records ==> ServiceKnown(s, id);
    }
  }

  lemma ThreadStaged(s: State, hand: Option<Id>, f: Function, arguments: seq<nat>)
    requires Staged(s, hand) && s.next !in s.records
    ensures Staged(ScheduleFunction(s, f, None, arguments), hand)
  {
    ScheduleWaiters(s, hand, f, None, arguments);
    var t := ScheduleFunction(s, f, None, arguments);
    assert TargetsParked(t, hand);
    assert UnhandledFresh(t, hand);
  }

  lemma ScheduleGood(s: State, hand: Option<Id>, f: Function, arguments: seq<nat>)
    requires Good(s, hand) && f.service < |s.services|
    ensures Good(ScheduleFunction(s, f, None, arguments), hand)
  {
    var t := ScheduleFunction(s, f, None, arguments);
    ScheduleOwned(s, hand, f, arguments);
    ScheduleShape(s, f, None, arguments);
    ThreadStaged(s, hand, f, arguments);
    assert Aged(t);
  }

  lemma {:induction false} ScheduleAllGood(s: State, hand: Option<Id>, fs: seq<Function>, arguments: seq<nat>)
    requires Good(s, hand) && forall f <- fs :: f.service < |s.services|
    ensures Good(ScheduleAll(s, fs, None, arguments), hand)
    decreases |fs|
  {
    if fs != [] {
      ScheduleGood(s, hand, fs[0], arguments);
      ScheduleAllGood(ScheduleFunction(s, fs[0], None, arguments), hand, fs[1..], arguments);
    }
  }

  // ----- firing ------------------------------------------------------------------------------

  /** A call with no holder is in no waiting list and is answered by nobody. */
  lemma UnheldIsUnreferenced(s: State, x: Id)
    requires Holders(s, x) == 0
    ensures forall e <- s.events :: x !in e.waiting
    ensures x !in s.queue && s.running != Some(x)
    ensures forall id: Id | id < s.next :: !Answers(s.records, id, x)
  {
    forall e <- s.events ensures x !in e.waiting {
      var i :| 0 <= i < |s.events| && s.events[i] == e;
      if x in e.waiting {
        WaitingMember(s.events, i, x);
      }
    }
    forall id: Id | id < s.next ensures !Answers(s.records, id, x) {
      if Answers(s.records, id, x) {
        BehindMember(s.records, id, s.next, x);
      }
    }
  }

  lemma ReleaseCounts(s: State, event: nat, data: nat, code: nat, x: Id)
    requires event < |s.events| && WaitersLive(s)
    ensures Holders(ReleaseWaiters(s, event, data, code), x) == Holders(s, x)
  {
    var t := ReleaseWaiters(s, event, data, code);
    var waiting := s.events[event].waiting;
    SplitWaiters(s.records, waiting, code, x);
    WaitingUpdate(s.events, event, t.events[event], x);
    assert t.events == s.events[event := t.events[event]];
    BehindUpdate(s.records, t.records, 0, s.next, x);
    if x in waiting {
      assert s.events[event] in s.events;
    }
  }

  /** The woken and the surviving calls were all waiting. */
  lemma ReleaseMembers(s: State, event: nat, data: nat, code: nat)
    requires event < |s.events| && WaitersLive(s)
    ensures forall w <- Woken(s.records, s.events[event].waiting, code) :: w in s.events[event].waiting
    ensures forall w <- StillWaiting(s.records, s.events[event].waiting, code) :: w in s.events[event].waiting
  {
    var waiting := s.events[event].waiting;
    forall w: Id
      ensures w in Woken(s.records, waiting, code) ==> w in waiting
      ensures w in StillWaiting(s.records, waiting, code) ==> w in waiting
    {
      SplitWaiters(s.records, waiting, code, w);
    }
  }

  /** Releasing changes return values of waiting calls and shrinks one waiting list. */
  lemma ReleaseFrame(s: State, event: nat, data: nat, code: nat)
    requires event < |s.events| && WaitersLive(s)
    ensures var t := ReleaseWaiters(s, event, data, code);
            && t.records.Keys == s.records.Keys
            && (forall id <- s.records :: t.records[id] == s.records[id].(returnValue := t.records[id].returnValue))
            && (forall id <- s.records | id !in s.events[event].waiting :: t.records[id] == s.records[id])
            && |t.events| == |s.events|
            && (forall i | 0 <= i < |s.events| :: t.events[i].subscriptions == s.events[i].subscriptions)
            && (forall i | 0 <= i < |s.events| :: forall w <- t.events[i].waiting :: w in s.events[i].waiting)
  {
    ReleaseMembers(s, event, data, code);
  }

  lemma ReleaseShape(s: State, event: nat, data: nat, code: nat)
    requires Shape(s) && event < |s.events|
    ensures Shape(ReleaseWaiters(s, event, data, code))
  {
    var t := ReleaseWaiters(s, event, data, code);
    ReleaseFrame(s, event, data, code);
    forall id <- t.records ensures ServiceKnown(t, id) { assert ServiceKnown(s, id); }
    forall e <- t.events, f <- e.subscriptions ensures f.service < |t.services| {
      var i :| 0 <= i < |t.events| && t.events[i] == e;
      assert s.events[i] in s.events;
    }
    forall e <- t.events, w <- e.waiting ensures w in t.records {
      var i :| 0 <= i < |t.events| && t.events[i] == e;
      assert s.events[i] in s.events;
    }
  }

  lemma ReleaseUnhandled(s: State, hand: Option<Id>, event: nat, data: nat, code: nat)
    requires UnhandledFresh(s, hand) && WaitersParked(s, hand) && WaitersLive(s) && event < |s.events|
    requires hand.Some? ==> hand.value !in s.events[event].waiting
    ensures UnhandledFresh(ReleaseWaiters(s, event, data, code), hand)
  {
    var t := ReleaseWaiters(s, event, data, code);
    ReleaseFrame(s, event, data, code);
    assert s.events[event] in s.events;
    forall id <- t.records | !t.records[id].resume && Some(id) != hand ensures FreshCall(t.records[id]) {
      assert id !in s.events[event].waiting;
    }
  }

  lemma ReleaseKeepsTargets(s: State, hand: Option<Id>, event: nat, data: nat, code: nat)
    requires TargetsParked(s, hand) && WaitersLive(s) && event < |s.events|
    ensures TargetsParked(ReleaseWaiters(s, event, data, code), hand)
  {
    ReleaseFrame(s, event, data, code);
  }

  lemma WaiterStaysParked(s: State, hand: Option<Id>, t: State, e: Event, e': Event, w: Id)
    requires WaitersParked(s, hand) && e in s.events && w in e'.waiting && (forall v <- e'.waiting :: v in e.waiting)
    requires t.records.Keys == s.records.Keys
    requires forall id <- s.records :: t.records[id] == s.records[id].(returnValue := t.records[id].returnValue)
    ensures w in t.records && t.records[w].handler == AWAIT && (Some(w) == hand || t.records[w].resume)
  {
  }

  lemma ReleaseKeepsWaiters(s: State, hand: Option<Id>, event: nat, data: nat, code: nat)
    requires WaitersParked(s, hand) && WaitersLive(s) && event < |s.events|
    ensures WaitersParked(ReleaseWaiters(s, event, data, code), hand)
  {
    var t := ReleaseWaiters(s, event, data, code);
    ReleaseFrame(s, event, data, code);
    forall e' <- t.events, w <- e'.waiting
      ensures w in t.records && t.records[w].handler == AWAIT && (Some(w) == hand || t.records[w].resume)
    {
      var i :| 0 <= i < |t.events| && t.events[i] == e';
      WaiterStaysParked(s, hand, t, s.events[i], e', w);
    }
  }

  lemma ReleaseStaged(s: State, hand: Option<Id>, event: nat, data: nat, code: nat)
    requires Good(s, hand) && event < |s.events|
    requires hand.Some? ==> !s.records[hand.value].avoidReschedule
    ensures var t := ReleaseWaiters(s, event, data, code); Shape(t) && Aged(t) && Staged(t, hand)
    ensures hand.Some? ==> ReleaseWaiters(s, event, data, code).records[hand.value] == s.records[hand.value]
  {
    ReleaseFrame(s, event, data, code);
    ReleaseShape(s, event, data, code);
    if hand.Some? {
      UnheldIsUnreferenced(s, hand.value);
      assert s.events[event] in s.events;
    }
    ReleaseUnhandled(s, hand, event, data, code);
    ReleaseKeepsTargets(s, hand, event, data, code);
    ReleaseKeepsWaiters(s, hand, event, data, code);
  }

  lemma ReleaseGood(s: State, hand: Option<Id>, event: nat, data: nat, code: nat)
    requires Good(s, hand) && event < |s.events|
    requires hand.Some? ==> !s.records[hand.value].avoidReschedule
    ensures Good(ReleaseWaiters(s, event, data, code), hand)
  {
    var t := ReleaseWaiters(s, event, data, code);
    ReleaseStaged(s, hand, event, data, code);
    forall x: Id ensures Holders(t, x) + One(Owed(t, hand, x)) == One(x in t.records) {
      ReleaseCounts(s, event, data, code, x);
      assert Holders(s, x) + One(Owed(s, hand, x)) == One(x in s.records);
    }
  }

  lemma {:induction false} ScheduleAllKeeps(s: State, fs: seq<Function>, respondingTo: Option<Id>,
                                            arguments: seq<nat>, id: Id)
    requires id in s.records && id < s.next
    ensures var t := ScheduleAll(s, fs, respondingTo, arguments); id in t.records && t.records[id] == s.records[id]
    decreases |fs|
  {
    if fs != [] {
      ScheduleAllKeeps(ScheduleFunction(s, fs[0], respondingTo, arguments), fs[1..], respondingTo, arguments, id);
    }
  }

  lemma FireGood(s: State, hand: Option<Id>, event: nat, data: nat, code: nat)
    requires Good(s, hand) && event < |s.events|
    requires hand.Some? ==> !s.records[hand.value].avoidReschedule
    ensures Good(FireEvent(s, event, data, code), hand)
    ensures hand.Some? ==> FireEvent(s, event, data, code).records[hand.value] == s.records[hand.value]
  {
    var fs := s.events[event].subscriptions;
    assert s.events[event] in s.events;
    ScheduleAllGood(s, hand, fs, [data]);
    ScheduleAllGrows(s, fs, None, [data]);
    var t := ScheduleAll(s, fs, None, [data]);
    if hand.Some? {
      ScheduleAllKeeps(s, fs, None, [data], hand.value);
    }
    ReleaseGood(t, hand, event, data, code);
    ReleaseStaged(t, hand, event, data, code);
  }

  // ----- handlers ----------------------------------------------------------------------------

  /** The state in which the handler of `id` starts. */
  ghost predicate InHandler(s: State, id: Id) {
    Good(s, Some(id)) && FreshCall(s.records[id])
  }

  /** Writing the return value of the call in hand touches nothing else. */
  lemma ReturnGood(s: State, id: Id, value: nat)
    requires InHandler(s, id)
    ensures Good(Update(s, id, s.records[id].(returnValue := value)), Some(id))
  {
    var t := Update(s, id, s.records[id].(returnValue := value));
    forall x: Id ensures Holders(t, x) + One(Owed(t, Some(id), x)) == One(x in t.records) {
      UpdateCounts(s, id, t.records[id], x);
      assert Holders(s, x) + One(Owed(s, Some(id), x)) == One(x in s.records);
    }
    forall i <- t.records ensures ServiceKnown(t, i) { assert ServiceKnown(s, i); }
  }

  /** One more function of service `v` disturbs nothing. */
  lemma ListFunctionGood(s: State, id: Id, v: nat, f: Function)
    requires Good(s, Some(id)) && v < |s.services| && f.service < |s.services|
    ensures Good(s.(services := s.services[v := s.services[v].(functions := s.services[v].functions + [f])]), Some(id))
  {
    var u := s.(services := s.services[v := s.services[v].(functions := s.services[v].functions + [f])]);
    assert Owned(u, Some(id)) by {
      forall x: Id ensures Holders(u, x) + One(Owed(u, Some(id), x)) == One(x in u.records) {
        assert Holders(s, x) + One(Owed(s, Some(id), x)) == One(x in s.records);
      }
    }
    assert Shape(u) by {
      assert s.services[v] in s.services;
      forall i <- u.records ensures ServiceKnown(u, i) { assert ServiceKnown(s, i); }
    }
    assert Aged(u) && Staged(u, Some(id));
  }

  lemma CreateFunctionGood(s: State, id: Id, oracle: Oracle)
    requires InHandler(s, id)
    ensures Good(HandleCreateFunction(s, id, oracle), Some(id))
  {
    if oracle.named {
      var r := s.records[id];
      assert ServiceKnown(s, id);
      ReturnGood(s, id, |s.services[r.service].functions|);
      var t := Update(s, id, r.(returnValue := |s.services[r.service].functions|));
      ListFunctionGood(t, id, r.service, Function(r.service, r.parameters[1]));
    }
  }

  /** The state in which `id` is parked, with return value `value`, behind a new thread. */
  function Parked(s: State, id: Id, f: Function, arguments: seq<nat>, value: nat): State
    requires id in s.records
  {
    Update(ScheduleFunction(s, f, Some(id), arguments), id,
           s.records[id].(returnValue := value, avoidReschedule := true))
  }

  lemma ParkOwned(s: State, id: Id, f: Function, arguments: seq<nat>, value: nat)
    requires InHandler(s, id)
    ensures Owned(Parked(s, id, f, arguments, value), Some(id))
  {
    var t := ScheduleFunction(s, f, Some(id), arguments);
    var u := Parked(s, id, f, arguments, value);
    forall x: Id ensures Holders(u, x) + One(Owed(u, Some(id), x)) == One(x in u.records) {
      ScheduleCounts(s, f, Some(id), arguments, x);
      UpdateCounts(t, id, u.records[id], x);
      assert Holders(s, x) + One(Owed(s, Some(id), x)) == One(x in s.records);
    }
  }

  lemma ParkTargets(s: State, id: Id, f: Function, arguments: seq<nat>, value: nat)
    requires TargetsParked(s, Some(id)) && id in s.records && s.next !in s.records && ParkedOnThread(s.records[id])
    ensures TargetsParked(Parked(s, id, f, arguments, value), Some(id))
  {
  }

  lemma ParkWaiters(s: State, id: Id, f: Function, arguments: seq<nat>, value: nat)
    requires WaitersParked(s, Some(id)) && id in s.records && s.next !in s.records
    ensures WaitersParked(Parked(s, id, f, arguments, value), Some(id))
  {
    var u := Parked(s, id, f, arguments, value);
    forall e <- u.events, w <- e.waiting ensures w in s.records { assert e in s.events; }
  }

  lemma ParkBehindThreadStaged(s: State, id: Id, f: Function, arguments: seq<nat>, value: nat)
    requires InHandler(s, id) && f.service < |s.services| && ParkedOnThread(s.records[id])
    ensures var u := Parked(s, id, f, arguments, value); Shape(u) && Aged(u) && Staged(u, Some(id))
  {
    var t := ScheduleFunction(s, f, Some(id), arguments);
    var u := Parked(s, id, f, arguments, value);
    ScheduleShape(s, f, Some(id), arguments);
    assert Shape(u) by {
      forall i <- u.records ensures ServiceKnown(u, i) { assert ServiceKnown(t, i); }
    }
    ParkWaiters(s, id, f, arguments, value);
    ParkTargets(s, id, f, arguments, value);
    assert UnhandledFresh(u, Some(id));
  }

  /** Parking `id` behind a new thread that will answer it. */
  lemma ParkBehindThreadGood(s: State, id: Id, f: Function, arguments: seq<nat>, value: nat)
    requires InHandler(s, id) && f.service < |s.services| && ParkedOnThread(s.records[id])
    ensures Good(Parked(s, id, f, arguments, value), Some(id))
  {
    ParkOwned(s, id, f, arguments, value);
    ParkBehindThreadStaged(s, id, f, arguments, value);
  }

  lemma RequestGood(s: State, id: Id)
    requires InHandler(s, id) && s.records[id].handler == REQUEST
    ensures Good(HandleRequest(s, id), Some(id))
  {
    var r := s.records[id];
    var caller := s.services[r.service];
    match Provider(s, r)
    case None =>
    case Some(f) =>
      assert s.services[r.parameters[0]] in s.services && f in s.services[r.parameters[0]].functions;
      ParkBehindThreadGood(s, id, f, [r.parameters[2], r.parameters[3], caller.nameHash, caller.id], 0);
  }

  /** Listing one more service disturbs nothing. */
  lemma ListServiceGood(s: State, id: Id, service: Service)
    requires InHandler(s, id)
    requires service.id == |s.services| && service.events == []
    requires forall f <- service.functions :: f.service <= |s.services|
    ensures InHandler(s.(services := s.services + [service]), id)
  {
    var t := s.(services := s.services + [service]);
    assert Owned(t, Some(id)) by {
      forall x: Id ensures Holders(t, x) + One(Owed(t, Some(id), x)) == One(x in t.records) {
        assert Holders(s, x) + One(Owed(s, Some(id), x)) == One(x in s.records);
      }
    }
    assert Shape(t) by {
      forall i <- t.records ensures ServiceKnown(t, i) { assert ServiceKnown(s, i); }
    }
    assert Aged(t) && Staged(t, Some(id));
  }

  lemma LoadServiceGood(s: State, id: Id, program: Program)
    requires InHandler(s, id)
    ensures var t := LoadService(s, program);
            && InHandler(t, id) && t.records[id] == s.records[id] && |t.services| == |s.services| + 1
  {
    var f := FireEvent(s, LOAD_INITRD_EVENT, program.nameHash, 0);
    FireGood(s, Some(id), LOAD_INITRD_EVENT, program.nameHash, 0);
    ScheduleAllGrows(s, s.events[LOAD_INITRD_EVENT].subscriptions, None, [program.nameHash]);
    var service := |s.services|;
    ListServiceGood(f, id, Service(service, program.nameHash, [Function(service, program.address)], []));
  }

  lemma LoadGood(s: State, id: Id, oracle: Oracle)
    requires InHandler(s, id) && s.records[id].handler == LOAD_FROM_INITRD
    ensures var h := HandleLoad(s, id, oracle); h.Next? ==> Good(h.state, Some(id))
  {
    if oracle.program.Some? && oracle.named {
      var program := oracle.program.value;
      var t := LoadService(s, program);
      LoadServiceGood(s, id, program);
      var service := |s.services|;
      if s.records[id].parameters[1] != 0 {
        ParkBehindThreadGood(t, id, Function(service, program.address), [], service);
      } else {
        ReturnGood(t, id, service);
      }
    }
  }

  lemma SubscribeInterruptGood(s: State, id: Id)
    requires InHandler(s, id)
    ensures var h := HandleSubscribeInterrupt(s, id); h.Next? ==> Good(h.state, Some(id))
  {
    var h := HandleSubscribeInterrupt(s, id);
    if h.Next? {
      var number := s.records[id].parameters[0];
      assert s.interrupts[number] in s.interrupts;
      forall i <- h.state.records ensures ServiceKnown(h.state, i) { assert ServiceKnown(s, i); }
      assert Owned(h.state, Some(id)) by {
        forall x: Id
          ensures Holders(h.state, x) + One(Owed(h.state, Some(id), x)) == One(x in h.state.records) {
          assert Holders(s, x) + One(Owed(s, Some(id), x)) == One(x in s.records);
        }
      }
    }
  }

  /** A new event without waiters, listed by service `v`, disturbs nothing. */
  lemma ListEventGood(s: State, id: Id, v: nat, e: Event)
    requires Good(s, Some(id)) && v < |s.services| && e.waiting == [] && e.subscriptions == []
    ensures Good(s.(events := s.events + [e],
                    services := s.services[v := s.services[v].(events := s.services[v].events + [|s.events|])]),
                 Some(id))
  {
    var t := s.(events := s.events + [e],
                services := s.services[v := s.services[v].(events := s.services[v].events + [|s.events|])]);
    assert Owned(t, Some(id)) by {
      assert t.events[..|s.events|] == s.events;
      forall x: Id ensures Holders(t, x) + One(Owed(t, Some(id), x)) == One(x in t.records) {
        assert Holders(s, x) + One(Owed(s, Some(id), x)) == One(x in s.records);
      }
    }
    assert Shape(t) by {
      assert s.services[v] in s.services;
      forall i <- t.records ensures ServiceKnown(t, i) { assert ServiceKnown(s, i); }
    }
    assert WaitersParked(t, Some(id));
    assert TargetsParked(t, Some(id)) && UnhandledFresh(t, Some(id));
  }

  lemma CreateEventGood(s: State, id: Id)
    requires InHandler(s, id)
    ensures Good(HandleCreateEvent(s, id), Some(id))
  {
    var r := s.records[id];
    assert ServiceKnown(s, id);
    if r.parameters[0] != 0 {
      var t := Update(s, id, r.(returnValue := |s.services[r.service].events|));
      ReturnGood(s, id, |s.services[r.service].events|);
      ListEventGood(t, id, r.service, Event(r.parameters[0], [], []));
    }
  }

  lemma FireEventGood(s: State, id: Id)
    requires InHandler(s, id)
    ensures Good(HandleFireEvent(s, id), Some(id))
  {
    var r := s.records[id];
    assert ServiceKnown(s, id);
    match FiredEvent(s, r)
    case None =>
    case Some(event) =>
      assert s.services[r.service] in s.services && event in s.services[r.service].events;
      FireGood(s, Some(id), event, r.parameters[1], r.parameters[2]);
  }

  lemma SubscribeEventOwned(s: State, id: Id)
    requires Good(s, Some(id))
    ensures var h := HandleSubscribeEvent(s, id); h.Next? ==> Owned(h.state, Some(id))
  {
    var h := HandleSubscribeEvent(s, id);
    var r := s.records[id];
    if h.Next? {
      var event := EventPointer(s, r.parameters[0], r.parameters[1]).value;
      var t := h.state;
      forall x: Id ensures Holders(t, x) + One(Owed(t, Some(id), x)) == One(x in t.records) {
        WaitingUpdate(s.events, event, t.events[event], x);
        assert t.events == s.events[event := t.events[event]];
        assert Holders(s, x) + One(Owed(s, Some(id), x)) == One(x in s.records);
      }
    }
  }

  lemma SubscribeEventStaged(s: State, id: Id)
    requires Shape(s) && Staged(s, Some(id)) && id in s.records
    ensures var h := HandleSubscribeEvent(s, id); h.Next? ==> Shape(h.state) && Staged(h.state, Some(id))
  {
    var h := HandleSubscribeEvent(s, id);
    var r := s.records[id];
    if h.Next? {
      var event := EventPointer(s, r.parameters[0], r.parameters[1]).value;
      var t := h.state;
      assert s.events[event] in s.events && ServiceKnown(s, id);
      forall i <- t.records ensures ServiceKnown(t, i) { assert ServiceKnown(s, i); }
      assert Staged(t, Some(id));
    }
  }

  lemma SubscribeEventGood(s: State, id: Id)
    requires InHandler(s, id)
    ensures var h := HandleSubscribeEvent(s, id); h.Next? ==> Good(h.state, Some(id))
  {
    SubscribeEventOwned(s, id);
    SubscribeEventStaged(s, id);
  }

  lemma AwaitOwned(s: State, id: Id)
    requires InHandler(s, id)
    ensures var h := HandleAwait(s, id); h.Next? ==> Owned(h.state, Some(id))
  {
    var h := HandleAwait(s, id);
    var r := s.records[id];
    if h.Next? {
      var event := EventPointer(s, r.parameters[0], r.parameters[1]).value;
      var t := h.state;
      forall x: Id ensures Holders(t, x) + One(Owed(t, Some(id), x)) == One(x in t.records) {
        WaitingUpdate(s.events, event, t.events[event], x);
        assert t.events == s.events[event := t.events[event]];
        UpdateCounts(s, id, t.records[id], x);
        assert Holders(s, x) + One(Owed(s, Some(id), x)) == One(x in s.records);
      }
    }
  }

  lemma AwaitShape(s: State, id: Id)
    requires Shape(s) && id in s.records
    ensures var h := HandleAwait(s, id); h.Next? ==> Shape(h.state)
  {
    var h := HandleAwait(s, id);
    var r := s.records[id];
    if h.Next? {
      var event := EventPointer(s, r.parameters[0], r.parameters[1]).value;
      var t := h.state;
      assert s.events[event] in s.events;
      forall i <- t.records ensures ServiceKnown(t, i) { assert ServiceKnown(s, i); }
    }
  }

  lemma AwaitStaged(s: State, id: Id)
    requires Shape(s) && Staged(s, Some(id)) && id in s.records && s.records[id].handler == AWAIT
    requires s.running != Some(id)
    ensures var h := HandleAwait(s, id); h.Next? ==> Staged(h.state, Some(id))
  {
    var h := HandleAwait(s, id);
    var r := s.records[id];
    if h.Next? {
      var event := EventPointer(s, r.parameters[0], r.parameters[1]).value;
      var t := h.state;
      assert s.events[event] in s.events;
      assert WaitersParked(t, Some(id));
      assert TargetsParked(t, Some(id));
    }
  }

  lemma AwaitGood(s: State, id: Id)
    requires InHandler(s, id) && s.records[id].handler == AWAIT
    ensures var h := HandleAwait(s, id); h.Next? ==> Good(h.state, Some(id))
  {
    AwaitOwned(s, id);
    AwaitShape(s, id);
    AwaitStaged(s, id);
  }

  lemma ForkGood(s: State, id: Id)
    requires InHandler(s, id)
    ensures Good(HandleFork(s, id), Some(id))
  {
    var r := s.records[id];
    assert ServiceKnown(s, id);
    ScheduleGood(s, Some(id), Function(r.service, r.parameters[0]), r.parameters[1..]);
  }

  lemma HandleGood(s: State, id: Id, oracle: Oracle)
    requires InHandler(s, id)
    ensures var h := Handle(s, id, oracle); h.Next? ==> Good(h.state, Some(id))
  {
    var f := s.records[id].handler;
    if f == CREATE_FUNCTION { CreateFunctionGood(s, id, oracle); }
    else if f == REQUEST { RequestGood(s, id); }
    else if f == LOAD_FROM_INITRD { LoadGood(s, id, oracle); }
    else if f == SUBSCRIBE_INTERRUPT { SubscribeInterruptGood(s, id); }
    else if f == CREATE_EVENT { CreateEventGood(s, id); }
    else if f == FIRE_EVENT { FireEventGood(s, id); }
    else if f == SUBSCRIBE_EVENT { SubscribeEventGood(s, id); }
    else if f == GET_SERVICE_ID { ReturnGood(s, id, ServiceId(s, id)); }
    else if f == STACK_CONTAINS {
      ReturnGood(s, id, 0);
      ReturnGood(s, id, 1);
    }
    else if f == AWAIT { AwaitGood(s, id); }
    else if f == FORK { ForkGood(s, id); }
    else if f < HANDLER_COUNT { ReturnGood(s, id, oracle.value); }
  }

  // ----- steps -------------------------------------------------------------------------------

  lemma SettleOwned(s: State, id: Id)
    requires Good(s, Some(id))
    ensures Owned(Settle(s, id), None)
  {
    var u := Update(s, id, s.records[id].(resume := true));
    var t := Settle(s, id);
    forall x: Id ensures Holders(t, x) + One(Owed(t, None, x)) == One(x in t.records) {
      UpdateCounts(s, id, u.records[id], x);
      assert Holders(s, x) + One(Owed(s, Some(id), x)) == One(x in s.records);
    }
  }

  lemma SettleStaged(s: State, id: Id)
    requires Staged(s, Some(id)) && id in s.records
    ensures Staged(Settle(s, id), None)
  {
    var t := Settle(s, id);
    assert WaitersParked(t, None);
    assert TargetsParked(t, None);
    assert UnhandledFresh(t, None);
  }

  lemma UpdateShape(s: State, t: State)
    requires Shape(s) && t.services == s.services && t.events == s.events && t.interrupts == s.interrupts
    requires forall id <- t.records :: ServiceKnown(t, id)
    requires WaitersLive(t)
    ensures Shape(t)
  {
  }

  lemma SettleShape(s: State, id: Id)
    requires Shape(s) && id in s.records
    ensures Shape(Settle(s, id))
  {
    var t := Settle(s, id);
    forall i <- t.records ensures ServiceKnown(t, i) { assert ServiceKnown(s, i); }
    UpdateShape(s, t);
  }

  lemma SettleInv(s: State, id: Id)
    requires Good(s, Some(id))
    ensures Inv(Settle(s, id))
  {
    SettleOwned(s, id);
    SettleStaged(s, id);
    SettleShape(s, id);
  }

  /** The popped record loses its queue slot and nothing else. */
  lemma PopCounts(s: State, x: Id)
    requires s.queue != []
    ensures Holders(s, x) == Holders(s.(queue := s.queue[1..]), x) + One(x == s.queue[0])
  {
    assert s.queue == [s.queue[0]] + s.queue[1..];
  }

  lemma PopGood(s: State)
    requires Inv(s) && s.running.None? && s.queue != []
    ensures s.queue[0] in s.records
    ensures !s.records[s.queue[0]].resume ==> InHandler(s.(queue := s.queue[1..]), s.queue[0])
  {
    var id, t := s.queue[0], s.(queue := s.queue[1..]);
    PopCounts(s, id);
    assert Holders(s, id) + One(Owed(s, None, id)) == One(id in s.records);
    if !s.records[id].resume {
      assert FreshCall(s.records[id]);
      forall x: Id ensures Holders(t, x) + One(Owed(t, Some(id), x)) == One(x in t.records) {
        PopCounts(s, x);
        assert Holders(s, x) + One(Owed(s, None, x)) == One(x in s.records);
      }
      forall i <- t.records ensures ServiceKnown(t, i) { assert ServiceKnown(s, i); }
      assert Staged(t, Some(id));
    }
  }

  lemma DispatchInv(s: State, oracle: Oracle)
    requires Inv(s) && s.running.None?
    ensures var o := DoDispatch(s, oracle); o.Next? ==> Inv(o.state)
  {
    if s.queue != [] {
      var id, t := s.queue[0], s.(queue := s.queue[1..]);
      PopGood(s);
      if s.records[id].resume {
        var u := t.(running := Some(id));
        forall x: Id ensures Holders(u, x) + One(Owed(u, None, x)) == One(x in u.records) {
          PopCounts(s, x);
          assert Holders(s, x) + One(Owed(s, None, x)) == One(x in s.records);
        }
        forall i <- u.records ensures ServiceKnown(u, i) { assert ServiceKnown(s, i); }
      } else {
        HandleGood(t, id, oracle);
        var h := Handle(t, id, oracle);
        if h.Next? {
          SettleInv(h.state, id);
        }
      }
    }
  }

  lemma InterruptInv(s: State, number: nat)
    requires Inv(s) && number < INTERRUPT_COUNT
    ensures Inv(DoInterrupt(s, number))
  {
    assert s.interrupts[number] in s.interrupts;
    ScheduleAllGood(s, None, s.interrupts[number], [number]);
  }

  /** Freeing the running record releases its own slot and the link to the record that it answers. */
  lemma FreeCounts(s: State, x: Id)
    requires ThreadRunning(s) && s.running.value < s.next
    ensures Holders(s, x) == Holders(Free(s, s.running.value), x)
                             + One(s.running == Some(x)) + One(Answers(s.records, s.running.value, x))
  {
    var id := s.running.value;
    BehindUpdate(s.records, s.records - {id}, id, s.next, x);
  }

  /** The running record is answered by nobody, so freeing it leaves no dangling link. */
  lemma RunningUnreferenced(s: State)
    requires Inv(s) && s.running.Some?
    ensures ThreadRunning(s) && s.running.value < s.next && s.running.value !in s.queue
    ensures forall id <- s.records :: !Answers(s.records, id, s.running.value)
    ensures forall e <- s.events :: s.running.value !in e.waiting
  {
    var r := s.running.value;
    assert Holders(s, r) + One(Owed(s, None, r)) == One(r in s.records);
    UnheldIsUnreferenced(s.(running := None), r);
  }

  /** The record that a syscall of the running thread creates. */
  function Continuation(s: State, handler: nat, parameters: Parameters): Record
    requires ThreadRunning(s)
  {
    var r := s.records[s.running.value];
    Record(handler, parameters, 0, Saved, r.respondingTo, r.service, false, false)
  }

  lemma CallOwned(s: State, handler: nat, parameters: Parameters)
    requires Inv(s) && ThreadRunning(s)
    ensures Owned(DoCall(s, handler, parameters), None)
  {
    RunningUnreferenced(s);
    var t := s.(records := s.records[s.next := Continuation(s, handler, parameters)],
                next := s.next + 1, queue := s.queue + [s.next]);
    var u := DoCall(s, handler, parameters);
    assert u == Free(t, s.running.value);
    forall x: Id ensures Holders(u, x) + One(Owed(u, None, x)) == One(x in u.records) {
      FreeCounts(t, x);
      BehindUpdate(s.records, t.records, s.next, s.next, x);
      assert Holders(s, x) + One(Owed(s, None, x)) == One(x in s.records);
    }
  }

  lemma CallTargets(s: State, handler: nat, parameters: Parameters)
    requires TargetsParked(s, None) && ThreadRunning(s) && s.next !in s.records
    requires forall id <- s.records :: !Answers(s.records, id, s.running.value)
    ensures TargetsParked(DoCall(s, handler, parameters), None)
  {
    var id, u := s.running.value, DoCall(s, handler, parameters);
    forall i <- u.records | u.records[i].respondingTo.Some?
      ensures u.records[i].respondingTo.value != id && u.records[i].respondingTo.value in s.records {
      var j := if i in s.records then i else id;
      assert !Answers(s.records, j, id) && u.records[i].respondingTo == s.records[j].respondingTo;
    }
  }

  /** Freeing a record that is in no waiting list. */
  lemma WaitersKept(s: State, t: State)
    requires WaitersParked(s, None) && t.events == s.events
    requires forall id <- s.records | id !in t.records :: forall e <- s.events :: id !in e.waiting
    requires forall id <- s.records | id in t.records ::
               t.records[id].handler == s.records[id].handler && t.records[id].resume == s.records[id].resume
    ensures WaitersParked(t, None) && WaitersLive(t)
  {
  }

  lemma CallInv(s: State, handler: nat, parameters: Parameters)
    requires Inv(s) && ThreadRunning(s) && handler != 0
    ensures Inv(DoCall(s, handler, parameters))
  {
    var id, u := s.running.value, DoCall(s, handler, parameters);
    RunningUnreferenced(s);
    CallOwned(s, handler, parameters);
    CallTargets(s, handler, parameters);
    WaitersKept(s, u);
    assert Shape(u) by {
      forall i <- u.records ensures ServiceKnown(u, i) {
        assert ServiceKnown(s, if i in s.records then i else id);
      }
      UpdateShape(s, u);
    }
    assert UnhandledFresh(u, None);
    assert Aged(u);
  }

  /** A return value for the answered call; loads keep the one that they have. */
  function Answered(s: State, target: Id, code: nat): State
    requires target in s.records
  {
    var r := s.records[target];
    if r.handler == REQUEST then Update(s, target, r.(returnValue := code)) else s
  }

  lemma AnsweredCounts(s: State, target: Id, code: nat, x: Id)
    requires target in s.records
    ensures Holders(Enqueue(Answered(s, target, code), target), x) == Holders(s, x) + One(x == target)
  {
    UpdateCounts(s, target, s.records[target].(returnValue := code), x);
  }

  lemma FinishCounts(s: State, code: nat, x: Id)
    requires ThreadRunning(s) && s.running.value < s.next
    requires var r := s.records[s.running.value].respondingTo; r.Some? ==> r.value in s.records
    requires !Answers(s.records, s.running.value, s.running.value)
    ensures Holders(DoFinish(s, code), x) + One(s.running == Some(x)) == Holders(s, x)
  {
    var id := s.running.value;
    if s.records[id].respondingTo.Some? {
      var target := s.records[id].respondingTo.value;
      AnsweredCounts(s, target, code, x);
      FreeCounts(Enqueue(Answered(s, target, code), target), x);
    } else {
      FreeCounts(s, x);
    }
  }

  lemma FinishOwned(s: State, code: nat)
    requires Inv(s) && ThreadRunning(s)
    ensures Owned(DoFinish(s, code), None)
  {
    RunningUnreferenced(s);
    var u := DoFinish(s, code);
    forall x: Id ensures Holders(u, x) + One(Owed(u, None, x)) == One(x in u.records) {
      assert Holders(s, x) + One(Owed(s, None, x)) == One(x in s.records);
      FinishCounts(s, code, x);
    }
  }

  lemma FinishTargets(s: State, code: nat)
    requires TargetsParked(s, None) && ThreadRunning(s)
    requires forall id <- s.records :: !Answers(s.records, id, s.running.value)
    ensures TargetsParked(DoFinish(s, code), None)
  {
    var id, u := s.running.value, DoFinish(s, code);
    forall i <- u.records | u.records[i].respondingTo.Some? ensures u.records[i].respondingTo.value != id {
      assert !Answers(s.records, i, id);
    }
  }

  lemma FinishRecords(s: State, code: nat)
    requires UnhandledFresh(s, None) && TargetsParked(s, None) && Aged(s) && ThreadRunning(s)
    ensures UnhandledFresh(DoFinish(s, code), None) && Aged(DoFinish(s, code))
    ensures forall i <- DoFinish(s, code).records ::
              && i in s.records
              && DoFinish(s, code).records[i] == s.records[i].(returnValue := DoFinish(s, code).records[i].returnValue)
    ensures DoFinish(s, code).records.Keys == s.records.Keys - {s.running.value}
  {
  }

  lemma FinishInv(s: State, code: nat)
    requires Inv(s) && ThreadRunning(s)
    ensures Inv(DoFinish(s, code))
  {
    var u := DoFinish(s, code);
    RunningUnreferenced(s);
    FinishOwned(s, code);
    FinishTargets(s, code);
    FinishRecords(s, code);
    WaitersKept(s, u);
    assert Shape(u) by {
      forall i <- u.records ensures ServiceKnown(u, i) { assert ServiceKnown(s, i); }
      UpdateShape(s, u);
    }
  }

  // ----- faults ------------------------------------------------------------------------------

  lemma {:induction false} ScheduleAllCounts(s: State, fs: seq<Function>, respondingTo: Option<Id>,
                                             arguments: seq<nat>, x: Id)
    requires forall id <- s.records :: id < s.next
    ensures var t := ScheduleAll(s, fs, respondingTo, arguments);
            && Holders(t, x) == Holders(s, x) + One(s.next <= x < s.next + |fs|)
                                + (if respondingTo == Some(x) then |fs| else 0)
            && (x in t.records <==> x in s.records || s.next <= x < s.next + |fs|)
            && t.next == s.next + |fs|
    decreases |fs|
  {
    if fs != [] {
      ScheduleCounts(s, fs[0], respondingTo, arguments, x);
      ScheduleAllCounts(ScheduleFunction(s, fs[0], respondingTo, arguments), fs[1..], respondingTo, arguments, x);
    }
  }

  /** The record that a thread may be made to answer. */
  ghost predicate Answerable(s: State, respondingTo: Option<Id>) {
    respondingTo.Some? ==>
      var target := respondingTo.value;
      target in s.records && target < s.next && ParkedOnThread(s.records[target]) && s.records[target].resume
  }

  lemma ScheduleWaiters(s: State, hand: Option<Id>, f: Function, respondingTo: Option<Id>, arguments: seq<nat>)
    requires WaitersParked(s, hand) && s.next !in s.records
    ensures WaitersParked(ScheduleFunction(s, f, respondingTo, arguments), hand)
  {
    var t := ScheduleFunction(s, f, respondingTo, arguments);
    forall e <- t.events, w <- e.waiting
      ensures w in t.records && t.records[w].handler == AWAIT && (Some(w) == hand || t.records[w].resume)
    {
      assert e in s.events && w in s.records;
    }
  }

  lemma ScheduleStaged(s: State, f: Function, respondingTo: Option<Id>, arguments: seq<nat>)
    requires Aged(s) && Staged(s, None) && Answerable(s, respondingTo)
    ensures var t := ScheduleFunction(s, f, respondingTo, arguments);
            Aged(t) && Staged(t, None) && Answerable(t, respondingTo)
  {
    ScheduleWaiters(s, None, f, respondingTo, arguments);
    var t := ScheduleFunction(s, f, respondingTo, arguments);
    assert TargetsParked(t, None);
    assert UnhandledFresh(t, None);
  }

  lemma {:induction false} ScheduleAllStaged(s: State, fs: seq<Function>, respondingTo: Option<Id>, arguments: seq<nat>)
    requires Shape(s) && Aged(s) && Staged(s, None) && Answerable(s, respondingTo)
    requires forall f <- fs :: f.service < |s.services|
    ensures var t := ScheduleAll(s, fs, respondingTo, arguments); Shape(t) && Aged(t) && Staged(t, None)
    decreases |fs|
  {
    if fs != [] {
      ScheduleShape(s, fs[0], respondingTo, arguments);
      ScheduleStaged(s, fs[0], respondingTo, arguments);
      ScheduleAllStaged(ScheduleFunction(s, fs[0], respondingTo, arguments), fs[1..], respondingTo, arguments);
    }
  }

  lemma {:induction false} ScheduleAllUnreferenced(s: State, fs: seq<Function>, respondingTo: Option<Id>,
                                                   arguments: seq<nat>, x: Id)
    requires respondingTo != Some(x) && forall id <- s.records :: !Answers(s.records, id, x)
    ensures var t := ScheduleAll(s, fs, respondingTo, arguments); forall id <- t.records :: !Answers(t.records, id, x)
    decreases |fs|
  {
    if fs != [] {
      var t := ScheduleFunction(s, fs[0], respondingTo, arguments);
      forall id <- t.records ensures !Answers(t.records, id, x) {
        assert id in s.records ==> !Answers(s.records, id, x);
      }
      ScheduleAllUnreferenced(t, fs[1..], respondingTo, arguments, x);
      assert ScheduleAll(s, fs, respondingTo, arguments) == ScheduleAll(t, fs[1..], respondingTo, arguments);
    }
  }

  /** Freeing the running record when nothing refers to it. */
  lemma FreeStaged(s: State)
    requires Shape(s) && Aged(s) && Staged(s, None) && ThreadRunning(s)
    requires forall id <- s.records :: !Answers(s.records, id, s.running.value)
    requires forall e <- s.events :: s.running.value !in e.waiting
    ensures var t := Free(s, s.running.value); Shape(t) && Aged(t) && Staged(t, None)
  {
    var id, t := s.running.value, Free(s, s.running.value);
    WaitersKept(s, t);
    assert TargetsParked(t, None) by {
      forall i <- t.records | t.records[i].respondingTo.Some? ensures t.records[i].respondingTo.value != id {
        assert !Answers(s.records, i, id);
      }
    }
    forall i <- t.records ensures ServiceKnown(t, i) { assert ServiceKnown(s, i); }
    UpdateShape(s, t);
  }

  lemma FaultStaged(s: State, arguments: seq<nat>)
    requires Inv(s) && ThreadRunning(s)
    ensures var t := DoFault(s, arguments); Shape(t) && Aged(t) && Staged(t, None)
  {
    var id := s.running.value;
    var r := s.records[id].respondingTo;
    var fs := s.interrupts[EXCEPTION_SUBSCRIBERS];
    RunningUnreferenced(s);
    assert fs in s.interrupts && !Answers(s.records, id, id);
    var t := ScheduleAll(s, fs, r, arguments);
    ScheduleAllStaged(s, fs, r, arguments);
    ScheduleAllGrows(s, fs, r, arguments);
    ScheduleAllUnreferenced(s, fs, r, arguments, id);
    FreeStaged(t);
  }

  lemma FaultCounts(s: State, arguments: seq<nat>, x: Id)
    requires Inv(s) && ThreadRunning(s)
    ensures var t, n, r := DoFault(s, arguments), |s.interrupts[EXCEPTION_SUBSCRIBERS]|, s.records[s.running.value];
            && Holders(t, x) + One(s.running == Some(x)) + One(r.respondingTo == Some(x))
               == Holders(s, x) + One(s.next <= x < s.next + n) + (if r.respondingTo == Some(x) then n else 0)
            && (x in t.records <==> s.running != Some(x) && (x in s.records || s.next <= x < s.next + n))
  {
    var id := s.running.value;
    var r := s.records[id].respondingTo;
    var fs := s.interrupts[EXCEPTION_SUBSCRIBERS];
    ScheduleAllCounts(s, fs, r, arguments, x);
    ScheduleAllCounts(s, fs, r, arguments, id);
    ScheduleAllGrows(s, fs, r, arguments);
    ScheduleAllKeeps(s, fs, r, arguments, id);
    FreeCounts(ScheduleAll(s, fs, r, arguments), x);
  }

  /** An exception keeps the invariant exactly when no reply is pending or one subscriber takes it:
      without a subscriber the waiting caller is lost, with several it is answered several times. */
  lemma FaultKeepsOwnershipIff(s: State, arguments: seq<nat>)
    requires Inv(s) && ThreadRunning(s)
    ensures Inv(DoFault(s, arguments)) <==> FaultIsLinear(s)
  {
    var t, r := DoFault(s, arguments), s.records[s.running.value].respondingTo;
    FaultStaged(s, arguments);
    if FaultIsLinear(s) {
      forall x: Id ensures Holders(t, x) + One(Owed(t, None, x)) == One(x in t.records) {
        assert Holders(s, x) + One(Owed(s, None, x)) == One(x in s.records);
        FaultCounts(s, arguments, x);
      }
    } else {
      var x := r.value;
      RunningUnreferenced(s);
      assert !Answers(s.records, s.running.value, s.running.value);
      assert Holders(s, x) + One(Owed(s, None, x)) == One(x in s.records);
      FaultCounts(s, arguments, x);
      assert Holders(t, x) + One(Owed(t, None, x)) != One(x in t.records);
    }
  }

  /** Every step keeps the invariant. */
  lemma StepInv(s: State, a: Action)
    requires Inv(s) && Enabled(s, a)
    ensures Step(s, a).Next? ==> Inv(Step(s, a).state)
  {
    match a
    case Dispatch(oracle) => DispatchInv(s, oracle);
    case Interrupt(number) => InterruptInv(s, number);
    case Call(handler, parameters) => CallInv(s, handler, parameters);
    case Finish(code) => FinishInv(s, code);
    case Fault(arguments) => FaultKeepsOwnershipIff(s, arguments);
  }

  lemma BootInv(hlib: Program, loader: Program, loadInitrd: nat, crash: nat)
    ensures Inv(Boot(hlib, loader, loadInitrd, crash))
  {
    var s := Boot(hlib, loader, loadInitrd, crash);
    forall x: Id ensures Holders(s, x) + One(Owed(s, None, x)) == One(x in s.records) {
      assert Waiting(s.events[..1][..0], x) == 0;
      assert Waiting(s.events[..1], x) == 0;
      assert Behind(s.records, 0, x) == 0 && Behind(s.records, 1, x) == 0;
      assert Slots(s.queue, x) == One(x == 0);
    }
    assert ServiceKnown(s, 0);
  }
}

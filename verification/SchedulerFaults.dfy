/**
 Call chains, and what a fault does to the caller at the end of one.
 */
module SchedulerFaults {
  import opened Optional
  import opened Scheduler
  import opened SchedulerOwnership
  import opened SchedulerInvariant
  import opened SchedulerEvolution
  import opened SchedulerRuns

  // ----- call chains -------------------------------------------------------------------------

  lemma {:induction false} ChainOfLinks(records: map<Id, Record>, id: Id)
    requires LinksDown(records) && id in records
    ensures var chain := Chain(records, id);
            && |chain| > 0 && chain[0] == id
            && (forall k | 0 <= k < |chain| :: chain[k] in records)
            && (forall k | 0 <= k < |chain| - 1 ::
                  records[chain[k]].respondingTo == Some(chain[k + 1]) && chain[k + 1] < chain[k])
            && records[chain[|chain| - 1]].respondingTo == None
    decreases id
  {
    if records[id].respondingTo.Some? {
      ChainOfLinks(records, records[id].respondingTo.value);
    }
  }

  /** In every good state the chain of a call follows `respondingTo` to its end through strictly older
      live records, so a walk along it terminates. */
  lemma ChainFollowsLinks(s: State, id: Id)
    requires Inv(s) && id in s.records
    ensures var chain := Chain(s.records, id);
            && |chain| > 0 && chain[0] == id
            && (forall k | 0 <= k < |chain| :: chain[k] in s.records)
            && (forall k | 0 <= k < |chain| - 1 ::
                  s.records[chain[k]].respondingTo == Some(chain[k + 1]) && chain[k + 1] < chain[k])
            && s.records[chain[|chain| - 1]].respondingTo == None
  {
    assert LinksDown(s.records);
    ChainOfLinks(s.records, id);
  }

  // ----- early in a run ----------------------------------------------------------------------

  lemma EarlyCall(s0: State, s1: State, s2: State, oracle: Oracle, handler: nat, parameters: Parameters)
    requires Inv(s0) && s0.queue == [0] && s0.next == 1 && s0.running.None? && 0 in s0.records
    requires s0.records[0].resume && s0.records[0].respondingTo.None?
    requires IsStep(s0, Dispatch(oracle), s1) && IsStep(s1, Call(handler, parameters), s2)
    ensures Inv(s1) && Inv(s2) && s2.queue == [1] && s2.next == 2 && s2.running.None? && 1 in s2.records
    ensures var r := s2.records[1]; !r.resume && r.handler == handler && r.parameters == parameters
    ensures s2.services == s0.services && s2.interrupts == s0.interrupts
  {
    StepInv(s0, Dispatch(oracle));
    StepInv(s1, Call(handler, parameters));
  }

  lemma EarlyHandled(s2: State, s3: State, oracle: Oracle)
    requires Inv(s2) && s2.queue == [1] && s2.next == 2 && s2.running.None? && 1 in s2.records
    requires var r := s2.records[1]; !r.resume && r.handler == REQUEST && r.parameters == [0, 0, 0, 0]
    requires |s2.services| > 0 && |s2.services[0].functions| > 0
    requires DoDispatch(s2, oracle) == Next(s3)
    ensures s3.queue == [2] && s3.running.None? && s3.interrupts == s2.interrupts
    ensures 2 in s3.records && s3.records[2].respondingTo == Some(1) && s3.records[2].resume
  {
    assert ServiceKnown(s2, 1) && FreshCall(s2.records[1]);
  }

  lemma EarlyThread(s3: State, s4: State, oracle: Oracle)
    requires Inv(s3) && s3.queue == [2] && s3.running.None? && s3.interrupts[EXCEPTION_SUBSCRIBERS] == []
    requires 2 in s3.records && s3.records[2].respondingTo == Some(1) && s3.records[2].resume
    requires IsStep(s3, Dispatch(oracle), s4)
    ensures Inv(s4) && ThreadRunning(s4) && !FaultIsLinear(s4) && Answers(s4.records, s4.running.value, 1)
    ensures s4.interrupts[EXCEPTION_SUBSCRIBERS] == []
  {
    StepInv(s3, Dispatch(oracle));
  }

  /** The first thread after boot makes any syscall. */
  lemma EarlyStart(hlib: Program, loader: Program, n: nat, c: nat, oracle: Oracle, handler: nat, parameters: Parameters)
    returns (s1: State, s2: State)
    requires handler != 0
    ensures var s0 := Boot(hlib, loader, n, c);
            && IsStep(s0, Dispatch(oracle), s1) && IsStep(s1, Call(handler, parameters), s2)
            && s2.services == s0.services && s2.interrupts == s0.interrupts
    ensures Inv(s2) && s2.queue == [1] && s2.next == 2 && s2.running.None? && 1 in s2.records
    ensures var r := s2.records[1]; !r.resume && r.handler == handler && r.parameters == parameters
  {
    var s0 := Boot(hlib, loader, n, c);
    BootInv(hlib, loader, n, c);
    s1 := DoDispatch(s0, oracle).state;
    s2 := DoCall(s1, handler, parameters);
    assert IsStep(s1, Call(handler, parameters), s2);
    EarlyCall(s0, s1, s2, oracle, handler, parameters);
  }

  /** The third step after boot runs wild if the loader awaits a third kernel event, of which there are two, or looks up
      a symbol of a third service, of which there are two. */
  lemma WildAfterBoot(hlib: Program, loader: Program, n: nat, c: nat, oracle: Oracle, handler: nat,
                      parameters: Parameters) returns (s1: State, s2: State)
    requires || (handler == AWAIT && parameters == [0, 2, 0, 0])
             || (handler == LOOKUP_SYMBOL && parameters == [2, 0, 0, 0])
    ensures IsStep(Boot(hlib, loader, n, c), Dispatch(oracle), s1) && IsStep(s1, Call(handler, parameters), s2)
    ensures Enabled(s2, Dispatch(oracle)) && Step(s2, Dispatch(oracle)).Wild?
  {
    s1, s2 := EarlyStart(hlib, loader, n, c, oracle, handler, parameters);
    DispatchWildIff(s2, oracle);
  }

  lemma EarlyEnd(s2: State, oracle: Oracle) returns (s3: State, s4: State)
    requires Inv(s2) && s2.queue == [1] && s2.next == 2 && s2.running.None? && 1 in s2.records
    requires var r := s2.records[1]; !r.resume && r.handler == REQUEST && r.parameters == [0, 0, 0, 0]
    requires |s2.services| > 0 && |s2.services[0].functions| > 0 && s2.interrupts[EXCEPTION_SUBSCRIBERS] == []
    ensures IsStep(s2, Dispatch(oracle), s3) && IsStep(s3, Dispatch(oracle), s4)
    ensures Inv(s4) && ThreadRunning(s4) && !FaultIsLinear(s4) && Answers(s4.records, s4.running.value, 1)
    ensures s4.interrupts[EXCEPTION_SUBSCRIBERS] == []
  {
    RequestStarts(s2, oracle);
    s3 := DoDispatch(s2, oracle).state;
    StepInv(s2, Dispatch(oracle));
    EarlyHandled(s2, s3, oracle);
    s4 := DoDispatch(s3, oracle).state;
    assert IsStep(s3, Dispatch(oracle), s4);
    EarlyThread(s3, s4, oracle);
  }

  /** Before anything subscribes to exceptions, the fault of a requested thread breaks ownership: its caller stays
      behind with no holder.  It happens four steps after boot, for any programs: the loader is resumed and requests
      function 0 of service 0, the request is handled, and the thread started for it is resumed and faults. */
  lemma FaultLosesCaller(hlib: Program, loader: Program, n: nat, c: nat, oracle: Oracle, arguments: seq<nat>)
    returns (s1: State, s2: State, s3: State, s4: State)
    ensures IsStep(Boot(hlib, loader, n, c), Dispatch(oracle), s1)
    ensures IsStep(s1, Call(REQUEST, [0, 0, 0, 0]), s2)
    ensures IsStep(s2, Dispatch(oracle), s3) && IsStep(s3, Dispatch(oracle), s4)
    ensures Inv(s4) && ThreadRunning(s4) && !Inv(DoFault(s4, arguments))
    ensures AwaitsReply(s4, 1, s4.running.value)
    ensures 1 in DoFault(s4, arguments).records && Holders(DoFault(s4, arguments), 1) == 0
  {
    s1, s2 := EarlyStart(hlib, loader, n, c, oracle, REQUEST, [0, 0, 0, 0]);
    s3, s4 := EarlyEnd(s2, oracle);
    FaultKeepsOwnershipIff(s4, arguments);
    LostWithoutSubscriber(s4, arguments, 1);
  }

  /** Without a subscriber, the caller that a faulting thread should answer is left with no holder. */
  lemma LostWithoutSubscriber(s: State, arguments: seq<nat>, c: Id)
    requires Inv(s) && ThreadRunning(s) && Answers(s.records, s.running.value, c)
    requires s.interrupts[EXCEPTION_SUBSCRIBERS] == []
    ensures AwaitsReply(s, c, s.running.value)
    ensures c in DoFault(s, arguments).records && Holders(DoFault(s, arguments), c) == 0
  {
    AnsweredIsParked(s, c, s.running.value);
    FaultCounts(s, arguments, c);
    assert Holders(s, c) + One(Owed(s, None, c)) == One(c in s.records);
  }
}

/**
 What holds over whole runs of the scheduler: every record moves forward through its phases, so every
 handler runs once and every parked call is answered once; replies come from the thread that was
 started for the call; the run queue never lets one record overtake another.
 */
module SchedulerRuns {
  import opened Optional
  import opened Scheduler
  import opened SchedulerOwnership
  import opened SchedulerInvariant
  import opened SchedulerEvolution

  // ----- runs --------------------------------------------------------------------------------

  ghost predicate IsStep(s: State, a: Action, t: State) {
    Enabled(s, a) && Step(s, a) == Next(t)
  }

  /** `states[i]` goes to `states[i + 1]` by `actions[i]`, and the first state satisfies the invariant. */
  ghost predicate IsRun(states: seq<State>, actions: seq<Action>) {
    && |states| == |actions| + 1
    && Inv(states[0])
    && forall i {:trigger IsStep(states[i], actions[i], states[i + 1])} | 0 <= i < |actions| ::
         IsStep(states[i], actions[i], states[i + 1])
  }

  ghost predicate IsRunFromBoot(states: seq<State>, actions: seq<Action>) {
    && |states| == |actions| + 1
    && (exists hlib, loader, n, c :: states[0] == Boot(hlib, loader, n, c))
    && forall i {:trigger IsStep(states[i], actions[i], states[i + 1])} | 0 <= i < |actions| ::
         IsStep(states[i], actions[i], states[i + 1])
  }

  lemma BootRunIsRun(states: seq<State>, actions: seq<Action>)
    requires IsRunFromBoot(states, actions)
    ensures IsRun(states, actions)
  {
    var hlib, loader, n, c :| states[0] == Boot(hlib, loader, n, c);
    BootInv(hlib, loader, n, c);
  }

  lemma RunStep(states: seq<State>, actions: seq<Action>, k: nat)
    requires |states| == |actions| + 1 && k < |actions|
    requires forall i {:trigger IsStep(states[i], actions[i], states[i + 1])} | 0 <= i < |actions| ::
               IsStep(states[i], actions[i], states[i + 1])
    ensures IsStep(states[k], actions[k], states[k + 1])
  {
  }

  /** Linear ownership holds in every state of every run. */
  lemma {:induction false} OwnershipOverRuns(states: seq<State>, actions: seq<Action>, i: nat)
    requires IsRun(states, actions) && i < |states|
    ensures Inv(states[i])
  {
    if i > 0 {
      OwnershipOverRuns(states, actions, i - 1);
      RunStep(states, actions, i - 1);
      StepInv(states[i - 1], actions[i - 1]);
    }
  }

  predicate InSomeWaitingList(s: State, x: Id) {
    exists i | 0 <= i < |s.events| :: x in s.events[i].waiting
  }

  ghost predicate AnsweredBySomeone(s: State, x: Id) {
    exists r <- s.records :: Answers(s.records, r, x)
  }

  lemma {:induction false} BehindWitness(records: map<Id, Record>, n: nat, x: Id) returns (r: Id)
    requires Behind(records, n, x) > 0
    ensures r < n && Answers(records, r, x)
  {
    if Answers(records, n - 1, x) { r := n - 1; } else { r := BehindWitness(records, n - 1, x); }
  }

  lemma {:induction false} BehindTwice(records: map<Id, Record>, n: nat, x: Id, a: Id, b: Id)
    requires Answers(records, a, x) && Answers(records, b, x) && a < b < n
    ensures Behind(records, n, x) >= 2
  {
    if b == n - 1 {
      BehindMember(records, a, n - 1, x);
    } else {
      BehindTwice(records, n - 1, x, a, b);
    }
  }

  lemma {:induction false} WaitingWitness(events: seq<Event>, x: Id) returns (i: nat)
    requires Waiting(events, x) > 0
    ensures i < |events| && x in events[i].waiting
  {
    var n := |events| - 1;
    if x in events[n].waiting { i := n; } else { i := WaitingWitness(events[..n], x); }
  }

  /** The counting invariant in words: a live record is held in exactly one way, and no two live
      records will answer the same call. */
  lemma ExactlyOneHolder(s: State, x: Id)
    requires Inv(s) && x in s.records
    ensures One(x in s.queue) + One(s.running == Some(x)) + One(InSomeWaitingList(s, x))
            + One(AnsweredBySomeone(s, x)) == 1
    ensures forall a, b | Answers(s.records, a, x) && Answers(s.records, b, x) :: a == b
    ensures forall a, b | 0 <= a < |s.queue| && 0 <= b < |s.queue| && s.queue[a] == x == s.queue[b] :: a == b
  {
    assert Holders(s, x) + One(Owed(s, None, x)) == 1;
    assert InSomeWaitingList(s, x) <==> Waiting(s.events, x) > 0 by {
      if InSomeWaitingList(s, x) {
        var i :| 0 <= i < |s.events| && x in s.events[i].waiting;
        WaitingMember(s.events, i, x);
      }
      if Waiting(s.events, x) > 0 { var i := WaitingWitness(s.events, x); }
    }
    assert AnsweredBySomeone(s, x) <==> Behind(s.records, s.next, x) > 0 by {
      if AnsweredBySomeone(s, x) {
        var r :| r in s.records && Answers(s.records, r, x);
        BehindMember(s.records, r, s.next, x);
      }
      if Behind(s.records, s.next, x) > 0 { var r := BehindWitness(s.records, s.next, x); }
    }
    forall a, b | Answers(s.records, a, x) && Answers(s.records, b, x) ensures a == b {
      if a < b { BehindTwice(s.records, s.next, x, a, b); }
      if b < a { BehindTwice(s.records, s.next, x, b, a); }
    }
    forall a, b | 0 <= a < |s.queue| && 0 <= b < |s.queue| && s.queue[a] == x == s.queue[b] ensures a == b {
      if a < b { TwoSlots(s.queue, a, b, x); }
      if b < a { TwoSlots(s.queue, b, a, x); }
    }
  }

  lemma TwoSlots(q: seq<Id>, a: nat, b: nat, x: Id)
    requires a < b < |q| && q[a] == x == q[b]
    ensures Slots(q, x) >= 2
  {
    assert q == q[..b] + [q[b]] + q[b + 1..];
    assert x in q[..b] by { assert q[..b][a] == x; }
  }

  // ----- phases ------------------------------------------------------------------------------

  /** The life of a record, in order. */
  datatype Phase = Unborn | Unhandled | Parked | Ready | Running | Gone

  function Rank(p: Phase): nat {
    match p
    case Unborn => 0
    case Unhandled => 1
    case Parked => 2
    case Ready => 3
    case Running => 4
    case Gone => 5
  }

  function PhaseOf(s: State, id: Id): Phase {
    if id >= s.next then Unborn
    else if id !in s.records then Gone
    else if s.running == Some(id) then Running
    else if !s.records[id].resume then Unhandled
    else if id in s.queue then Ready
    else Parked
  }

  /** An unhandled record sits in the run queue. */
  lemma UnhandledIsQueued(s: State, id: Id)
    requires Inv(s) && id in s.records && !s.records[id].resume
    ensures id in s.queue
  {
    ExactlyOneHolder(s, id);
    assert !InSomeWaitingList(s, id);
  }

  lemma PhaseFromEvolution(s: State, a: Action, t: State, id: Id)
    requires Evolves(s, a, t)
    requires a.Dispatch? && s.queue != [] && s.queue[0] == id && id in s.records && s.records[id].resume
             ==> t.running == Some(id)
    ensures Rank(PhaseOf(s, id)) <= Rank(PhaseOf(t, id))
  {
    if PhaseOf(s, id) == Ready {
      var k :| 0 <= k < |s.queue| && s.queue[k] == id;
      var p := Pops(s, a);
      if k >= p {
        assert s.queue[p..][k - p] == id;
        assert id in t.queue;
      }
    }
  }

  /** No step moves a record back. */
  lemma PhaseAdvances(s: State, a: Action, t: State, id: Id)
    requires Inv(s) && IsStep(s, a, t)
    ensures Rank(PhaseOf(s, id)) <= Rank(PhaseOf(t, id))
  {
    StepEvolves(s, a);
    PhaseFromEvolution(s, a, t, id);
  }

  lemma PhaseStep(states: seq<State>, actions: seq<Action>, k: nat, id: Id)
    requires IsRun(states, actions) && k < |actions|
    ensures Rank(PhaseOf(states[k], id)) <= Rank(PhaseOf(states[k + 1], id))
  {
    OwnershipOverRuns(states, actions, k);
    RunStep(states, actions, k);
    PhaseAdvances(states[k], actions[k], states[k + 1], id);
  }

  lemma {:induction false} PhaseMonotone(states: seq<State>, actions: seq<Action>, i: nat, j: nat, id: Id)
    requires IsRun(states, actions) && i <= j < |states|
    ensures Rank(PhaseOf(states[i], id)) <= Rank(PhaseOf(states[j], id))
    decreases j - i
  {
    if i < j {
      PhaseMonotone(states, actions, i, j - 1, id);
      PhaseStep(states, actions, j - 1, id);
    }
  }

  /** The step marks the call as handled: it leaves the unhandled phase exactly when its handler runs. */
  lemma HandlerLeavesUnhandled(s: State, a: Action, t: State, id: Id)
    requires Inv(s) && IsStep(s, a, t)
    ensures HandledBy(s, a) == Some(id) <==> PhaseOf(s, id) == Unhandled && PhaseOf(t, id) != Unhandled
  {
    StepEvolves(s, a);
    StepInv(s, a);
    if HandledBy(s, a) == Some(id) {
      DispatchMarks(s, a.oracle);
    } else if PhaseOf(s, id) == Unhandled {
      UnhandledStays(s, a, t, id);
    }
  }

  lemma DispatchMarks(s: State, oracle: Oracle)
    requires Inv(s) && s.running.None? && s.queue != [] && !s.records[s.queue[0]].resume
    requires DoDispatch(s, oracle).Next?
    ensures var t := DoDispatch(s, oracle).state; s.queue[0] in t.records && t.records[s.queue[0]].resume
    ensures s.queue[0] < s.next
  {
    PopGood(s);
    var id, t := s.queue[0], s.(queue := s.queue[1..]);
    assert Handle(t, id, oracle).Next?;
  }

  lemma UnhandledStays(s: State, a: Action, t: State, id: Id)
    requires Inv(s) && IsStep(s, a, t) && PhaseOf(s, id) == Unhandled && HandledBy(s, a) != Some(id)
    ensures id in t.records && !t.records[id].resume && t.running != Some(id) && id < t.next
  {
    StepEvolves(s, a);
    UnhandledIsQueued(s, id);
    match a
    case Dispatch(oracle) =>
      if s.queue != [] {
        PopGood(s);
        UnhandledSurvivesDispatch(s, oracle, t, id);
      }
    case Interrupt(number) => ScheduleAllEvolves(s, s.interrupts[number], None, [number]);
    case Call(handler, parameters) =>
    case Finish(code) => FinishRecords(s, code);
    case Fault(arguments) =>
      ScheduleAllEvolves(s, s.interrupts[EXCEPTION_SUBSCRIBERS], s.records[s.running.value].respondingTo, arguments);
  }

  lemma UnhandledSurvivesDispatch(s: State, oracle: Oracle, t: State, id: Id)
    requires Linked(s) && Allocated(s) && s.running.None? && s.queue != [] && s.queue[0] in s.records
    requires DoDispatch(s, oracle) == Next(t)
    requires id in s.records && !s.records[id].resume && id != s.queue[0]
    ensures id in t.records && !t.records[id].resume && t.running != Some(id)
  {
    if !s.records[s.queue[0]].resume {
      HandleEvolves(s.(queue := s.queue[1..]), s.queue[0], oracle);
    }
  }

  lemma HandledInRun(states: seq<State>, actions: seq<Action>, k: nat, id: Id)
    requires IsRun(states, actions) && k < |actions|
    ensures HandledBy(states[k], actions[k]) == Some(id)
       <==> PhaseOf(states[k], id) == Unhandled && PhaseOf(states[k + 1], id) != Unhandled
  {
    OwnershipOverRuns(states, actions, k);
    RunStep(states, actions, k);
    HandlerLeavesUnhandled(states[k], actions[k], states[k + 1], id);
  }

  /** Over every run, the handler of a call runs at most once. */
  lemma HandlerRunsOnce(states: seq<State>, actions: seq<Action>, i: nat, j: nat, id: Id)
    requires IsRun(states, actions) && i < j < |actions|
    requires HandledBy(states[i], actions[i]) == Some(id)
    ensures HandledBy(states[j], actions[j]) != Some(id)
  {
    HandledInRun(states, actions, i, id);
    HandledInRun(states, actions, j, id);
    PhaseStep(states, actions, i, id);
    PhaseMonotone(states, actions, i + 1, j, id);
  }

  /** The step puts a handled call back into the run queue. */
  predicate Requeued(s: State, t: State, id: Id) {
    PhaseOf(s, id) != Ready && PhaseOf(t, id) == Ready
  }

  lemma RunningPhase(s: State, id: Id)
    requires Inv(s)
    ensures s.running == Some(id) <==> PhaseOf(s, id) == Running
  {
  }

  /** Over every run, a call re-enters the run queue at most once. */
  lemma RequeuedOnce(states: seq<State>, actions: seq<Action>, i: nat, j: nat, id: Id)
    requires IsRun(states, actions) && i < j < |actions|
    ensures Requeued(states[i], states[i + 1], id) ==> !Requeued(states[j], states[j + 1], id)
  {
    PhaseMonotone(states, actions, i + 1, j, id);
    PhaseMonotone(states, actions, j, j + 1, id);
  }

  /** The step resumes the thread of `id`. */
  predicate Resumed(s: State, t: State, id: Id) {
    s.running != Some(id) && t.running == Some(id)
  }

  /** Over every run, a record is resumed at most once. */
  lemma ResumedOnce(states: seq<State>, actions: seq<Action>, i: nat, j: nat, id: Id)
    requires IsRun(states, actions) && i < j < |actions|
    ensures Resumed(states[i], states[i + 1], id) ==> !Resumed(states[j], states[j + 1], id)
  {
    forall k | k in {i + 1, j, j + 1} ensures states[k].running == Some(id) <==> PhaseOf(states[k], id) == Running {
      OwnershipOverRuns(states, actions, k);
      RunningPhase(states[k], id);
    }
    PhaseMonotone(states, actions, i + 1, j, id);
    PhaseMonotone(states, actions, j, j + 1, id);
  }

  // ----- first in, first out -----------------------------------------------------------------

  function PopsBetween(states: seq<State>, actions: seq<Action>, i: nat, j: nat): nat
    requires i <= j <= |actions| < |states|
    decreases j - i
  {
    if i == j then 0 else PopsBetween(states, actions, i, j - 1) + Pops(states[j - 1], actions[j - 1])
  }

  lemma QueueStep(states: seq<State>, actions: seq<Action>, k: nat)
    requires IsRun(states, actions) && k < |actions|
    ensures Pops(states[k], actions[k]) <= |states[k].queue|
    ensures states[k].queue[Pops(states[k], actions[k])..] <= states[k + 1].queue
  {
    OwnershipOverRuns(states, actions, k);
    RunStep(states, actions, k);
    StepEvolves(states[k], actions[k]);
  }

  /** Popping `m` more records off a queue that begins with what `n` pops left of `q`. */
  lemma PopMore(q: seq<Id>, n: nat, now: seq<Id>, m: nat, later: seq<Id>)
    requires n + m <= |q| && q[n..] <= now && m <= |now| && now[m..] <= later
    ensures q[n + m..] <= later
  {
    assert q[n + m..] == q[n..][m..];
    assert q[n..][m..] <= now[m..];
  }

  /** The run queue is a queue over every run: after `p` pops, what was queued sits in front in its old
      order, less its first `p` records. */
  lemma {:induction false} QueueIsFifo(states: seq<State>, actions: seq<Action>, i: nat, j: nat)
    requires IsRun(states, actions) && i <= j < |states|
    requires PopsBetween(states, actions, i, j) <= |states[i].queue|
    ensures states[i].queue[PopsBetween(states, actions, i, j)..] <= states[j].queue
    decreases j - i
  {
    if i < j {
      QueueIsFifo(states, actions, i, j - 1);
      QueueStep(states, actions, j - 1);
      PopMore(states[i].queue, PopsBetween(states, actions, i, j - 1), states[j - 1].queue,
              Pops(states[j - 1], actions[j - 1]), states[j].queue);
    }
  }

  /** A record at position `k` is dispatched by the pop that follows exactly `k` pops, and by no
      earlier one. */
  lemma NoOvertaking(states: seq<State>, actions: seq<Action>, i: nat, j: nat, k: nat)
    requires IsRun(states, actions) && i <= j < |actions| && k < |states[i].queue|
    requires PopsBetween(states, actions, i, j) <= k && Pops(states[j], actions[j]) == 1
    ensures states[j].queue[0] == states[i].queue[k] <==> PopsBetween(states, actions, i, j) == k
  {
    var p := PopsBetween(states, actions, i, j);
    QueueIsFifo(states, actions, i, j);
    assert states[i].queue[p..][0] == states[j].queue[0];
    if p < k && states[i].queue[p] == states[i].queue[k] {
      OwnershipOverRuns(states, actions, i);
      var x := states[i].queue[k];
      assert Holders(states[i], x) + One(Owed(states[i], None, x)) == One(x in states[i].records);
      TwoSlots(states[i].queue, p, k, x);
    }
  }

  // ----- replies -----------------------------------------------------------------------------

  /** The record that carries the reply after a step: a syscall or a fault of the carrier's thread hands
      the reply on to the next record that is allocated. */
  function CarrierAfter(s: State, a: Action, carrier: Id): Id {
    if s.running == Some(carrier) && (a.Call? || a.Fault?) then s.next else carrier
  }

  predicate CarrierFinishes(s: State, a: Action, carrier: Id) {
    s.running == Some(carrier) && a.Finish?
  }

  /** Call `c` is parked behind `carrier`. */
  ghost predicate AwaitsReply(s: State, c: Id, carrier: Id) {
    Answers(s.records, carrier, c) && PhaseOf(s, c) == Parked
  }

  lemma AnsweredIsParked(s: State, c: Id, carrier: Id)
    requires Inv(s) && Answers(s.records, carrier, c)
    ensures AwaitsReply(s, c, carrier) && c in s.records && c < carrier
  {
    ExactlyOneHolder(s, c);
    assert AnsweredBySomeone(s, c);
  }

  lemma ReplyFinish(s: State, code: nat, c: Id)
    requires Inv(s) && ThreadRunning(s) && Answers(s.records, s.running.value, c)
    ensures c in s.records
    ensures var t := DoFinish(s, code);
            && c in t.records && t.queue == s.queue + [c] && PhaseOf(t, c) == Ready
            && t.records[c] == s.records[c].(returnValue := if s.records[c].handler == REQUEST then code
                                                            else s.records[c].returnValue)
  {
    RunningUnreferenced(s);
    assert c != s.running.value;
  }

  lemma ReplyPending(s: State, a: Action, t: State, c: Id, carrier: Id)
    requires Inv(s) && IsStep(s, a, t) && AwaitsReply(s, c, carrier) && !CarrierFinishes(s, a, carrier)
    ensures AwaitsReply(t, c, CarrierAfter(s, a, carrier)) && c in s.records && c in t.records
  {
    AnsweredIsParked(s, c, carrier);
    StepInv(s, a);
    StepEvolves(s, a);
    if s.running == Some(carrier) && (a.Call? || a.Fault?) {
      HandOver(s, a, t);
      AnsweredIsParked(t, c, s.next);
    } else {
      CarrierSurvives(s, a, t, carrier);
      AnsweredIsParked(t, c, carrier);
    }
  }

  /** Only the running thread's own kernel entry frees its record. */
  lemma CarrierSurvives(s: State, a: Action, t: State, r: Id)
    requires Evolves(s, a, t) && IsStep(s, a, t) && r in s.records
    requires s.running == Some(r) ==> a.Dispatch? || a.Interrupt?
    ensures r in t.records
  {
    if s.running == Some(r) && a.Interrupt? {
      ScheduleAllGrows(s, s.interrupts[a.number], None, [a.number]);
    }
  }

  /** What a step does to a call that waits for a reply. */
  lemma ReplyStep(s: State, a: Action, t: State, c: Id, carrier: Id)
    requires Inv(s) && IsStep(s, a, t) && AwaitsReply(s, c, carrier)
    ensures !CarrierFinishes(s, a, carrier) ==> AwaitsReply(t, c, CarrierAfter(s, a, carrier))
    ensures c in s.records && c in t.records
    ensures CarrierFinishes(s, a, carrier) ==>
              && PhaseOf(t, c) == Ready && t.queue == s.queue + [c]
              && t.records[c] == s.records[c].(returnValue := if s.records[c].handler == REQUEST then a.code
                                                              else s.records[c].returnValue)
  {
    if CarrierFinishes(s, a, carrier) {
      ReplyFinish(s, a.code, c);
    } else {
      ReplyPending(s, a, t, c, carrier);
    }
  }

  /** A syscall or a linear fault hands the pending reply to the record allocated next. */
  lemma HandOver(s: State, a: Action, t: State)
    requires Inv(s) && IsStep(s, a, t) && (a.Call? || a.Fault?)
    requires s.records[s.running.value].respondingTo.Some?
    ensures s.next in t.records && t.records[s.next].respondingTo == s.records[s.running.value].respondingTo
  {
    RunningUnreferenced(s);
    if a.Fault? {
      var fs := s.interrupts[EXCEPTION_SUBSCRIBERS];
      ScheduleAllEvolves(s, fs, s.records[s.running.value].respondingTo, a.arguments);
    }
  }

  /** The record that carries a reply at time `j`, followed from `carrier` at time `i`. */
  function CarrierAt(states: seq<State>, actions: seq<Action>, i: nat, j: nat, carrier: Id): Id
    requires i <= j <= |actions| < |states|
    decreases j - i
  {
    if i == j then carrier
    else CarrierAfter(states[j - 1], actions[j - 1], CarrierAt(states, actions, i, j - 1, carrier))
  }

  /** The thread started for a call, followed through all its records, does not finish in step `k`. */
  ghost predicate GoesOn(states: seq<State>, actions: seq<Action>, i: nat, k: nat, carrier: Id)
    requires i <= k < |actions| < |states|
  {
    !CarrierFinishes(states[k], actions[k], CarrierAt(states, actions, i, k, carrier))
  }

  /** The thread started for a call has not finished before `j`. */
  ghost predicate ThreadUnfinished(states: seq<State>, actions: seq<Action>, i: nat, j: nat, carrier: Id)
    requires i <= j <= |actions| < |states|
  {
    forall k {:trigger GoesOn(states, actions, i, k, carrier)} | i <= k < j :: GoesOn(states, actions, i, k, carrier)
  }

  lemma ReplyStepOfRun(states: seq<State>, actions: seq<Action>, k: nat, c: Id, carrier: Id)
    requires IsRun(states, actions) && k < |actions| && AwaitsReply(states[k], c, carrier)
    ensures c in states[k].records && c in states[k + 1].records
    ensures !CarrierFinishes(states[k], actions[k], carrier) ==>
              AwaitsReply(states[k + 1], c, CarrierAfter(states[k], actions[k], carrier))
    ensures CarrierFinishes(states[k], actions[k], carrier) ==>
              && PhaseOf(states[k + 1], c) == Ready
              && states[k + 1].records[c].returnValue
                 == if states[k].records[c].handler == REQUEST then actions[k].code
                    else states[k].records[c].returnValue
  {
    OwnershipOverRuns(states, actions, k);
    RunStep(states, actions, k);
    ReplyStep(states[k], actions[k], states[k + 1], c, carrier);
  }

  /** Over every run, a call that waits for a thread stays parked until that thread finishes. */
  lemma {:induction false} ParkedUntilFinish(states: seq<State>, actions: seq<Action>, i: nat, j: nat, c: Id,
                                             carrier: Id)
    requires IsRun(states, actions) && i <= j < |states|
    requires AwaitsReply(states[i], c, carrier) && ThreadUnfinished(states, actions, i, j, carrier)
    ensures AwaitsReply(states[j], c, CarrierAt(states, actions, i, j, carrier))
    decreases j - i
  {
    if i < j {
      UnfinishedBefore(states, actions, i, j, carrier);
      ParkedUntilFinish(states, actions, i, j - 1, c, carrier);
      ReplyStepOfRun(states, actions, j - 1, c, CarrierAt(states, actions, i, j - 1, carrier));
    }
  }

  lemma UnfinishedBefore(states: seq<State>, actions: seq<Action>, i: nat, j: nat, carrier: Id)
    requires i < j <= |actions| < |states| && ThreadUnfinished(states, actions, i, j, carrier)
    ensures ThreadUnfinished(states, actions, i, j - 1, carrier)
    ensures !CarrierFinishes(states[j - 1], actions[j - 1], CarrierAt(states, actions, i, j - 1, carrier))
    ensures CarrierAt(states, actions, i, j, carrier)
         == CarrierAfter(states[j - 1], actions[j - 1], CarrierAt(states, actions, i, j - 1, carrier))
  {
    assert GoesOn(states, actions, i, j - 1, carrier);
  }

  /** Over every run, a call that waits for a thread re-enters the run queue at the step in which that
      thread finishes and at no other, and a request then carries the thread's return code. */
  lemma ReplyComesFromItsThread(states: seq<State>, actions: seq<Action>, i: nat, j: nat, c: Id, carrier: Id)
    requires IsRun(states, actions) && i <= j < |actions|
    requires AwaitsReply(states[i], c, carrier) && ThreadUnfinished(states, actions, i, j, carrier)
    ensures Requeued(states[j], states[j + 1], c)
            <==> CarrierFinishes(states[j], actions[j], CarrierAt(states, actions, i, j, carrier))
    ensures c in states[j].records && c in states[j + 1].records
    ensures Requeued(states[j], states[j + 1], c) && states[j].records[c].handler == REQUEST
            ==> actions[j].Finish? && states[j + 1].records[c].returnValue == actions[j].code
    ensures Requeued(states[j], states[j + 1], c) && states[j].records[c].handler == LOAD_FROM_INITRD
            ==> states[j + 1].records[c].returnValue == states[j].records[c].returnValue
  {
    ParkedUntilFinish(states, actions, i, j, c, carrier);
    ReplyStepOfRun(states, actions, j, c, CarrierAt(states, actions, i, j, carrier));
  }

  lemma RequestDispatch(s: State, oracle: Oracle)
    requires Linked(s) && Allocated(s) && s.running.None? && s.queue != [] && s.queue[0] in s.records
    requires var r := s.records[s.queue[0]]; !r.resume && r.handler == REQUEST && FreshCall(r)
    ensures DoDispatch(s, oracle).Next?
    ensures var t, id, r := DoDispatch(s, oracle).state, s.queue[0], s.records[s.queue[0]];
            && id in t.records
            && match Provider(s, r)
               case Some(f) =>
                 && s.next in t.records && t.queue == s.queue[1..] + [s.next]
                 && t.records[s.next] == ThreadRecord(f, Some(id),
                      [r.parameters[2], r.parameters[3], s.services[r.service].nameHash, s.services[r.service].id])
               case None => t.queue == s.queue[1..] + [id] && t.records[id] == r.(resume := true) && t.running.None?
  {
    assert ServiceKnown(s, s.queue[0]);
  }

  /** The two outcomes of a request's handler: it waits for a thread of the function that it named, which
      gets the request's last two arguments and the caller's name and id, or, if there is no such service or function,
      it goes on at once with 0. */
  lemma RequestStarts(s: State, oracle: Oracle)
    requires Inv(s) && s.running.None? && s.queue != []
    requires s.queue[0] in s.records
    requires !s.records[s.queue[0]].resume && s.records[s.queue[0]].handler == REQUEST
    ensures DoDispatch(s, oracle).Next?
    ensures var t, id, r := DoDispatch(s, oracle).state, s.queue[0], s.records[s.queue[0]];
            && ServiceKnown(s, id)
            && if r.parameters[0] < |s.services| && r.parameters[1] < |s.services[r.parameters[0]].functions|
               then
                 && AwaitsReply(t, id, s.next) && t.queue == s.queue[1..] + [s.next]
                 && t.records[s.next].service == s.services[r.parameters[0]].functions[r.parameters[1]].service
                 && t.records[s.next].stack
                    == Entering(s.services[r.parameters[0]].functions[r.parameters[1]].address,
                                [r.parameters[2], r.parameters[3], s.services[r.service].nameHash,
                                 s.services[r.service].id])
               else PhaseOf(t, id) == Ready && t.records[id].returnValue == 0
  {
    var id, r := s.queue[0], s.records[s.queue[0]];
    assert FreshCall(r) && id < s.next;
    RequestDispatch(s, oracle);
    DispatchInv(s, oracle);
    if Provider(s, r).Some? {
      AnsweredIsParked(DoDispatch(s, oracle).state, id, s.next);
    }
  }

  /** `thread` will answer `id`, and enters function `f` with no arguments. */
  ghost predicate StartedFor(t: State, thread: Id, id: Id, f: Function) {
    Answers(t.records, thread, id) && t.records[thread] == ThreadRecord(f, Some(id), [])
  }

  /** A thread that did not exist in `s` will answer `id`, and enters function `f`. */
  ghost predicate StartedNew(s: State, t: State, id: Id, f: Function) {
    exists thread: Id :: s.next <= thread && StartedFor(t, thread, id, f)
  }

  lemma LoadDispatch(s: State, oracle: Oracle)
    requires Linked(s) && Allocated(s) && s.running.None? && s.queue != [] && s.queue[0] in s.records
    requires var r := s.records[s.queue[0]]; !r.resume && r.handler == LOAD_FROM_INITRD && FreshCall(r)
    requires oracle.named && oracle.program.Some?
    ensures DoDispatch(s, oracle).Next?
    ensures var t, id := DoDispatch(s, oracle).state, s.queue[0];
            && id in t.records && t.records[id].returnValue == |s.services| && t.running.None?
            && |t.services| == |s.services| + 1 && t.services[|s.services|].id == |s.services|
            && (if s.records[id].parameters[1] != 0
                then StartedNew(s, t, id, Function(|s.services|, oracle.program.value.address))
                else id in t.queue && t.records[id].resume)
  {
    var id, u := s.queue[0], s.(queue := s.queue[1..]);
    var program := oracle.program.value;
    LoadServiceEvolves(u, program);
    var loaded := LoadService(u, program);
    assert id in loaded.records && SameCall(u.records[id], loaded.records[id]);
    var t := DoDispatch(s, oracle).state;
    if s.records[id].parameters[1] != 0 {
      assert StartedFor(t, loaded.next, id, Function(|s.services|, program.address));
    }
  }

  /** The outcome of a load's handler: the call gets the new service's id, and waits for the new program's
      main function if it asked to start it. */
  lemma LoadStarts(s: State, oracle: Oracle)
    requires Inv(s) && s.running.None? && s.queue != []
    requires s.queue[0] in s.records
    requires !s.records[s.queue[0]].resume && s.records[s.queue[0]].handler == LOAD_FROM_INITRD
    requires oracle.named && oracle.program.Some?
    ensures DoDispatch(s, oracle).Next?
    ensures var t, id := DoDispatch(s, oracle).state, s.queue[0];
            && id in t.records && t.records[id].returnValue == |s.services|
            && |t.services| == |s.services| + 1 && t.services[|s.services|].id == |s.services|
            && (if s.records[id].parameters[1] != 0
                then && PhaseOf(t, id) == Parked
                     && StartedNew(s, t, id, Function(|s.services|, oracle.program.value.address))
                else PhaseOf(t, id) == Ready)
  {
    var id := s.queue[0];
    assert FreshCall(s.records[id]) && id < s.next;
    LoadDispatch(s, oracle);
    DispatchInv(s, oracle);
    var t := DoDispatch(s, oracle).state;
    if s.records[id].parameters[1] != 0 {
      var main := Function(|s.services|, oracle.program.value.address);
      var thread: Id :| s.next <= thread && StartedFor(t, thread, id, main);
      AnsweredIsParked(t, id, thread);
    }
  }

  /** The outcome of a fork's handler: a thread of the caller's service that answers nobody enters the given address
      with the remaining arguments, and the caller goes on behind it. */
  lemma ForkStarts(s: State, oracle: Oracle)
    requires Inv(s) && s.running.None? && s.queue != [] && s.queue[0] in s.records
    requires var r := s.records[s.queue[0]]; !r.resume && r.handler == FORK
    ensures DoDispatch(s, oracle).Next?
    ensures var t, id, r := DoDispatch(s, oracle).state, s.queue[0], s.records[s.queue[0]];
            && t.queue == s.queue[1..] + [s.next, id] && s.next in t.records
            && t.records[s.next] == ThreadRecord(Function(r.service, r.parameters[0]), None, r.parameters[1..])
  {
    assert FreshCall(s.records[s.queue[0]]) && s.queue[0] < s.next;
    assert ServiceKnown(s, s.queue[0]);
  }
}

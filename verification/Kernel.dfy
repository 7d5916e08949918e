/**
 The kernel's scheduler code as it runs: linked lists, and records that its functions change in place.
 Every method is proved against the transition function of `Scheduler` on what the lists hold.
 */
module Kernel {
  import opened Optional
  import opened Scheduler
  import opened SchedulerOwnership
  import opened SchedulerEvolution
  import opened SchedulerInvariant
  import opened LinkedList
  import opened EventLists

  lemma SetReturnValue(before: map<Id, Record>, woken: seq<Id>, call: Id, data: nat)
    requires call in before
    ensures var now := WithReturnValues(before, woken, data);
            now[call := now[call].(returnValue := data)] == WithReturnValues(before, woken + [call], data)
  {
  }

  /** The next call of a waiting list goes to the woken or to the waiting ones. */
  lemma SplitNext(records: map<Id, Record>, waiting: seq<Id>, i: nat, code: nat)
    requires i < |waiting| && forall w <- waiting :: w in records
    ensures (forall w <- waiting[..i] :: w in records) && (forall w <- waiting[..i + 1] :: w in records)
    ensures var w := waiting[i];
            && Woken(records, waiting[..i + 1], code)
               == Woken(records, waiting[..i], code) + (if Released(records[w], code) then [w] else [])
            && StillWaiting(records, waiting[..i + 1], code)
               == StillWaiting(records, waiting[..i], code) + (if Released(records[w], code) then [] else [w])
  {
    assert waiting[..i + 1][..i] == waiting[..i];
  }

  /** What a load does behind `loadElf`: it starts the main function if asked to, and answers with the service. */
  function Started(s: State, id: Id, main: Function, initialize: bool): State
    requires id in s.records
  {
    var t := if initialize then ScheduleFunction(s, main, Some(id), []) else s;
    Update(t, id, t.records[id].(returnValue := main.service, avoidReschedule := initialize))
  }

  lemma LoadIs(s: State, id: Id, program: Program)
    requires Linked(s) && id in s.records
    ensures id in LoadService(s, program).records
    ensures HandleLoad(s, id, Oracle(true, Some(program), 0, true))
         == Next(Started(LoadService(s, program), id, Function(|s.services|, program.address),
                         s.records[id].parameters[1] != 0))
  {
    LoadKeepsCaller(s, id, program);
  }

  /** What a turn does with the call that it popped. */
  ghost predicate Processed(s: State, id: Id, oracle: Oracle, ok: bool, t: State)
    requires Linked(s) && id in s.records
  {
    if s.records[id].resume then ok && t == s.(running := Some(id))
    else
      match Handle(s, id, oracle)
      case Wild => !ok
      case Next(h) => ok && id in h.records && t == Settle(h, id)
  }

  lemma IdleTurn(s: State, oracle: Oracle)
    requires Inv(s) && s.running.None? && s.queue == []
    ensures !WildCallNext(s, oracle) && DoDispatch(s, oracle) == Next(s)
  {
  }

  /** Whatever is popped can be handled. */
  ghost predicate TurnPossible(s: State)
    requires s.queue != []
  {
    var u := s.(queue := s.queue[1..]);
    Linked(u) && Allocated(u) && LinksDown(u.records) && s.queue[0] in u.records
  }

  lemma TurnReady(s: State)
    requires Inv(s) && s.running.None? && s.queue != []
    ensures TurnPossible(s)
  {
    PopGood(s);
  }

  lemma TurnIsDispatch(s: State, oracle: Oracle, ok: bool, t: State)
    requires Inv(s) && s.running.None? && s.queue != []
    requires var u := s.(queue := s.queue[1..]);
             Linked(u) && s.queue[0] in u.records && Processed(u, s.queue[0], oracle, ok, t)
    ensures ok <==> !WildCallNext(s, oracle)
    ensures ok ==> DoDispatch(s, oracle) == Next(t) && Inv(t)
  {
    DispatchCases(s, oracle);
    DispatchWildIff(s, oracle);
    DispatchInv(s, oracle);
  }

  /** Call `id` gets its data and is queued. */
  function Woke(s: State, id: Id, data: nat): State
    requires id in s.records
  {
    s.(records := s.records[id := s.records[id].(returnValue := data)], queue := s.queue + [id])
  }

  /** The calls `woken` get their data and are queued. */
  function WokeAll(s: State, woken: seq<Id>, data: nat): State {
    s.(records := WithReturnValues(s.records, woken, data), queue := s.queue + woken)
  }

  /** One turn of the split: call `id` is woken, or kept. */
  ghost predicate TurnTaken(s: State, kept: seq<Id>, id: Id, code: nat, data: nat, t: State, kept': seq<Id>) {
    && id in s.records
    && if Released(s.records[id], code) then t == Woke(s, id, data) && kept' == kept else t == s && kept' == kept + [id]
  }

  /** From `s`, the split of the waiting calls `ids` has led to `t` and has kept `kept`. */
  ghost predicate IsSplit(s: State, ids: seq<Id>, code: nat, data: nat, t: State, kept: seq<Id>) {
    && (forall w <- ids :: w in s.records)
    && kept == StillWaiting(s.records, ids, code)
    && t == WokeAll(s, Woken(s.records, ids, code), data)
  }

  /** Behind a whole split, the kept calls become the event's waiting list. */
  lemma SplitIsRelease(s: State, event: nat, data: nat, code: nat, t: State, kept: seq<Id>)
    requires event < |s.events| && IsSplit(s, s.events[event].waiting, code, data, t, kept)
    ensures event < |t.events|
    ensures t.(events := t.events[event := t.events[event].(waiting := kept)]) == ReleaseWaiters(s, event, data, code)
  {
  }

  lemma SplitNone(s: State, code: nat, data: nat)
    ensures IsSplit(s, [], code, data, s, [])
  {
    assert WithReturnValues(s.records, [], data) == s.records;
  }

  lemma IsSplitKnows(s: State, ids: seq<Id>, i: nat, code: nat, data: nat, t: State, kept: seq<Id>)
    requires i < |ids| && IsSplit(s, ids[..i], code, data, t, kept) && forall w <- ids :: w in s.records
    ensures ids[i] in t.records
  {
    assert ids[i] in ids;
  }

  lemma SplitAdvances(s: State, ids: seq<Id>, i: nat, code: nat, data: nat,
                      t: State, kept: seq<Id>, t': State, kept': seq<Id>)
    requires i < |ids| && (forall w <- ids :: w in s.records) && IsSplit(s, ids[..i], code, data, t, kept)
    requires TurnTaken(t, kept, ids[i], code, data, t', kept')
    ensures IsSplit(s, ids[..i + 1], code, data, t', kept')
  {
    SplitNext(s.records, ids, i, code);
    assert ids[i] in ids;
    SetReturnValue(s.records, Woken(s.records, ids[..i], code), ids[i], data);
  }

  class Kernel {
    const callsToProcess: List<Id>
    const lists: EventLists
    var currentSyscall: Option<Id>
    var records: map<Id, Record>
    var allocations: Id
    var services: seq<Service>

    ghost predicate Valid()
      reads callsToProcess, callsToProcess.elements, lists, lists.Repr
    {
      && callsToProcess.Valid() && lists.Valid() && lists in lists.Repr
      && Apart(callsToProcess.Objects(), lists.Repr)
      && this !in callsToProcess.Objects() && this !in lists.Repr
    }

    ghost function Abs(): State
      requires Valid()
      reads this, callsToProcess, callsToProcess.elements, lists, lists.Repr
    {
      State(callsToProcess.Contents(), currentSyscall, records, allocations, services,
            lists.EventValues(), lists.InterruptValues())
    }

    /** The kernel as it enters its main loop. */
    constructor (hlib: Program, loader: Program, loadInitrd: nat, crash: nat)
      ensures Valid() && fresh(callsToProcess.Objects()) && fresh(lists.Repr)
      ensures Abs() == Boot(hlib, loader, loadInitrd, crash) && Inv(Abs())
    {
      callsToProcess := new List<Id>();
      lists := new EventLists();
      currentSyscall, records, allocations, services := None, map[], 0, [];
      new;
      BootInv(hlib, loader, loadInitrd, crash);
      SetUp(hlib, loader, loadInitrd, crash);
    }

    method SetUp(hlib: Program, loader: Program, loadInitrd: nat, crash: nat)
      requires Valid() && Abs() == State([], None, map[], 0, [], [], [])
      modifies this, callsToProcess.Objects(), lists.Repr
      ensures Valid() && fresh(callsToProcess.Objects() - old(callsToProcess.Objects()))
      ensures fresh(lists.Repr - old(lists.Repr))
      ensures Abs() == Boot(hlib, loader, loadInitrd, crash)
    {
      InstallTables(loadInitrd, crash);
      var main := Function(1, loader.address);
      SetServices([Service(0, hlib.nameHash, [Function(0, hlib.address)], []),
                   Service(1, loader.nameHash, [main], [])]);
      ScheduleThread(main, None, []);
    }

    method InstallTables(loadInitrd: nat, crash: nat)
      requires Valid() && Abs().events == [] && Abs().interrupts == []
      modifies lists.Repr
      ensures Valid() && fresh(lists.Repr - old(lists.Repr))
      ensures callsToProcess.Objects() == old(callsToProcess.Objects())
      ensures Abs() == old(Abs()).(events := [Event(loadInitrd, [], []), Event(crash, [], [])],
                                   interrupts := seq(INTERRUPT_COUNT, i => []))
    {
      AddEvent(loadInitrd);
      AddEvent(crash);
      InstallInterrupts();
    }

    method InstallInterrupts()
      requires Valid() && Abs().interrupts == []
      modifies lists.Repr
      ensures Valid() && fresh(lists.Repr - old(lists.Repr))
      ensures callsToProcess.Objects() == old(callsToProcess.Objects())
      ensures Abs() == old(Abs()).(interrupts := seq(INTERRUPT_COUNT, i => []))
    {
      for i := 0 to INTERRUPT_COUNT
        invariant Valid() && fresh(lists.Repr - old(lists.Repr))
        invariant callsToProcess.Objects() == old(callsToProcess.Objects())
        invariant Abs() == old(Abs()).(interrupts := seq(i, j => []))
      {
        AddInterrupt();
      }
    }

    method AddInterrupt()
      requires Valid()
      modifies lists.Repr
      ensures Valid() && fresh(lists.Repr - old(lists.Repr))
      ensures callsToProcess.Objects() == old(callsToProcess.Objects())
      ensures Abs() == old(Abs()).(interrupts := old(Abs()).interrupts + [[]])
    {
      QueueSpared();
      lists.AddInterrupt();
    }

    method Enqueue(id: Id)
      requires Valid()
      modifies callsToProcess.Objects()
      ensures Valid() && fresh(callsToProcess.Objects() - old(callsToProcess.Objects()))
      ensures Abs() == old(Abs()).(queue := old(Abs()).queue + [id])
    {
      callsToProcess.Add(id);
      ghost var added := callsToProcess.elements[|callsToProcess.elements| - 1];
      CellsAppended(old(callsToProcess.elements), added);
      assert callsToProcess.Objects() == old(callsToProcess.Objects()) + {added};
    }

    method ScheduleThread(f: Function, respondingTo: Option<Id>, arguments: seq<nat>)
      requires Valid()
      modifies `records, `allocations, callsToProcess.Objects()
      ensures Valid() && fresh(callsToProcess.Objects() - old(callsToProcess.Objects()))
      ensures Abs() == ScheduleFunction(old(Abs()), f, respondingTo, arguments)
    {
      var id := AddRecord(ThreadRecord(f, respondingTo, arguments));
      Enqueue(id);
    }

    method AddRecord(r: Record) returns (id: Id)
      requires Valid()
      modifies `records, `allocations
      ensures Valid() && id == old(allocations)
      ensures Abs() == old(Abs()).(records := old(records)[id := r], next := id + 1)
    {
      id := allocations;
      records := records[id := r];
      allocations := allocations + 1;
    }

    method SetRecord(id: Id, r: Record)
      requires Valid()
      modifies `records
      ensures Valid() && Abs() == old(Abs()).(records := old(records)[id := r])
    {
      records := records[id := r];
    }

    /** The loop over a list of subscriptions that `fireEvent`, `onInterrupt` and `onException` share. */
    method ScheduleEach(l: List<Function>, respondingTo: Option<Id>, arguments: seq<nat>)
      requires Valid() && Untouched(l)
      modifies `records, `allocations, callsToProcess.Objects()
      ensures Valid() && fresh(callsToProcess.Objects() - old(callsToProcess.Objects()))
      ensures Abs() == ScheduleAll(old(Abs()), old(l.Contents()), respondingTo, arguments)
    {
      ghost var fs := l.Contents();
      var current := l.first;
      ghost var i: nat := 0;
      while current != null
        invariant Valid() && fresh(callsToProcess.Objects() - old(callsToProcess.Objects()))
        invariant Untouched(l) && l.Contents() == fs && i <= |fs| && current == l.At(i)
        invariant ScheduleAll(Abs(), fs[i..], respondingTo, arguments)
               == ScheduleAll(old(Abs()), fs, respondingTo, arguments)
        decreases |fs| - i
      {
        assert fs[i..][0] == fs[i] && fs[i..][1..] == fs[i + 1..];
        current := ScheduleNext(l, i, current, respondingTo, arguments);
        i := i + 1;
      }
    }

    /** A list that is not changed when the run queue is. */
    ghost predicate Untouched<T>(l: List<T>)
      reads callsToProcess, l, l.elements
    {
      l.Valid() && Apart(l.Objects(), callsToProcess.Objects()) && this !in l.Objects()
    }

    /** One turn of the loop: the subscriber in element `current` gets its thread. */
    method ScheduleNext(l: List<Function>, ghost i: nat, current: ListElement<Function>,
                        respondingTo: Option<Id>, arguments: seq<nat>) returns (next: ListElement?<Function>)
      requires Valid() && Untouched(l) && i < |l.elements| && current == l.elements[i]
      modifies `records, `allocations, callsToProcess.Objects()
      ensures Valid() && fresh(callsToProcess.Objects() - old(callsToProcess.Objects()))
      ensures Untouched(l) && l.Contents() == old(l.Contents()) && next == l.At(i + 1)
      ensures Abs() == ScheduleFunction(old(Abs()), old(l.Contents())[i], respondingTo, arguments)
    {
      ListSpared(l);
      ScheduleThread(current.data, respondingTo, arguments);
      next := current.next;
    }

    /** A list that is being built, and is in no other structure yet. */
    ghost predicate Loose(l: List<Id>)
      reads callsToProcess, lists, lists.Repr, l, l.elements
    {
      Untouched(l) && Apart(l.Objects(), lists.Repr)
    }

    /** One turn of the loop in `fireEvent`: the call in element `current` is woken or goes on waiting. */
    method SplitTurn(l: List<Id>, ghost i: nat, current: ListElement<Id>, newWaiting: List<Id>, data: nat, code: nat)
      returns (next: ListElement?<Id>)
      requires Valid() && Listed(l) && Loose(newWaiting)
      requires i < |l.elements| && current == l.elements[i] && current.data in records
      modifies `records, callsToProcess.Objects(), newWaiting.Objects()
      ensures Valid() && fresh(callsToProcess.Objects() - old(callsToProcess.Objects()))
      ensures Loose(newWaiting) && fresh(newWaiting.Objects() - old(newWaiting.Objects()))
      ensures Listed(l) && l.Contents() == old(l.Contents()) && next == l.At(i + 1)
      ensures TurnTaken(old(Abs()), old(newWaiting.Contents()), old(l.Contents())[i], code, data,
                        Abs(), newWaiting.Contents())
    {
      var call := current.data;
      if records[call].parameters[2] != 0 && records[call].parameters[2] != code {
        KeepTurn(l, newWaiting, call);
      } else {
        WakeTurn(l, newWaiting, call, data);
      }
      next := current.next;
    }

    /** A list that belongs to the events. */
    ghost predicate Listed(l: List<Id>)
      reads lists, lists.Repr, l, l.elements
    {
      l.Valid() && l.Objects() <= lists.Repr
    }

    method WakeTurn(l: List<Id>, newWaiting: List<Id>, call: Id, data: nat)
      requires Valid() && Listed(l) && Loose(newWaiting) && call in records
      modifies `records, callsToProcess.Objects()
      ensures Valid() && fresh(callsToProcess.Objects() - old(callsToProcess.Objects()))
      ensures Loose(newWaiting) && newWaiting.Objects() == old(newWaiting.Objects())
      ensures newWaiting.Contents() == old(newWaiting.Contents())
      ensures Listed(l) && l.Contents() == old(l.Contents()) && l.elements == old(l.elements)
      ensures forall e <- l.elements :: e.next == old(e.next)
      ensures Abs() == Woke(old(Abs()), call, data)
    {
      assert Apart(l.Objects(), callsToProcess.Objects()) && Apart(newWaiting.Objects(), callsToProcess.Objects());
      ListSpared(l);
      ListSpared(newWaiting);
      Wake(call, data);
    }

    method Wake(call: Id, data: nat)
      requires Valid() && call in records
      modifies `records, callsToProcess.Objects()
      ensures Valid() && fresh(callsToProcess.Objects() - old(callsToProcess.Objects()))
      ensures Abs() == Woke(old(Abs()), call, data)
    {
      SetRecord(call, records[call].(returnValue := data));
      Enqueue(call);
    }

    method KeepTurn(l: List<Id>, newWaiting: List<Id>, call: Id)
      requires Valid() && Listed(l) && Loose(newWaiting)
      modifies newWaiting.Objects()
      ensures Valid() && Abs() == old(Abs()) && Loose(newWaiting)
      ensures fresh(newWaiting.Objects() - old(newWaiting.Objects()))
      ensures newWaiting.Contents() == old(newWaiting.Contents()) + [call]
      ensures Listed(l) && l.Contents() == old(l.Contents()) && l.elements == old(l.elements)
      ensures forall e <- l.elements :: e.next == old(e.next)
    {
      forall e <- l.elements ensures e as object !in newWaiting.Objects() {
        assert e as object in l.Objects();
      }
      assert l as object in l.Objects();
      KeepWaiting(newWaiting, call);
    }

    method KeepWaiting(newWaiting: List<Id>, call: Id)
      requires Valid() && Loose(newWaiting)
      modifies newWaiting.Objects()
      ensures Valid() && Abs() == old(Abs()) && Loose(newWaiting)
      ensures fresh(newWaiting.Objects() - old(newWaiting.Objects()))
      ensures newWaiting.Contents() == old(newWaiting.Contents()) + [call]
    {
      newWaiting.Add(call);
      ghost var added := newWaiting.elements[|newWaiting.elements| - 1];
      CellsAppended(old(newWaiting.elements), added);
      assert newWaiting.Objects() == old(newWaiting.Objects()) + {added};
    }

    /** The loop of `fireEvent` that consumes one waiting list and builds the next. */
    method SplitWaiting(l: List<Id>, newWaiting: List<Id>, data: nat, code: nat, ghost ids: seq<Id>)
      requires Valid() && Listed(l) && l.Contents() == ids && (forall w <- ids :: w in records)
      requires Loose(newWaiting) && newWaiting.Contents() == []
      modifies `records, callsToProcess.Objects(), newWaiting.Objects()
      ensures Valid() && fresh(callsToProcess.Objects() - old(callsToProcess.Objects()))
      ensures Loose(newWaiting) && fresh(newWaiting.Objects() - old(newWaiting.Objects()))
      ensures IsSplit(old(Abs()), ids, code, data, Abs(), newWaiting.Contents())
    {
      ghost var s := Abs();
      var current := l.first;
      ghost var i: nat := 0;
      SplitNone(s, code, data);
      assert ids[..0] == [];
      while current != null
        invariant Valid() && fresh(callsToProcess.Objects() - old(callsToProcess.Objects()))
        invariant Loose(newWaiting) && fresh(newWaiting.Objects() - old(newWaiting.Objects()))
        invariant Listed(l) && l.Contents() == ids && i <= |ids| && current == l.At(i)
        invariant IsSplit(s, ids[..i], code, data, Abs(), newWaiting.Contents())
        decreases |ids| - i
      {
        current := SplitOne(l, i, current, newWaiting, data, code, s, ids);
        i := i + 1;
      }
      assert ids[..i] == ids;
    }

    method SplitOne(l: List<Id>, ghost i: nat, current: ListElement<Id>, newWaiting: List<Id>, data: nat, code: nat,
                    ghost s: State, ghost ids: seq<Id>) returns (next: ListElement?<Id>)
      requires Valid() && Listed(l) && Loose(newWaiting) && i < |l.elements| && current == l.elements[i]
      requires l.Contents() == ids && (forall w <- ids :: w in s.records)
      requires IsSplit(s, ids[..i], code, data, Abs(), newWaiting.Contents())
      modifies `records, callsToProcess.Objects(), newWaiting.Objects()
      ensures Valid() && fresh(callsToProcess.Objects() - old(callsToProcess.Objects()))
      ensures Loose(newWaiting) && fresh(newWaiting.Objects() - old(newWaiting.Objects()))
      ensures Listed(l) && l.Contents() == ids && next == l.At(i + 1)
      ensures IsSplit(s, ids[..i + 1], code, data, Abs(), newWaiting.Contents())
    {
      ghost var t, kept := Abs(), newWaiting.Contents();
      IsSplitKnows(s, ids, i, code, data, t, kept);
      next := SplitTurn(l, i, current, newWaiting, data, code);
      SplitAdvances(s, ids, i, code, data, t, kept, Abs(), newWaiting.Contents());
    }

    /** The part of `fireEvent` behind its subscribers. */
    method ReleaseEach(event: nat, data: nat, code: nat)
      requires Valid() && event < |lists.names| && forall w <- Abs().events[event].waiting :: w in records
      modifies `records, callsToProcess.Objects(), lists.Repr
      ensures Valid() && fresh(callsToProcess.Objects() - old(callsToProcess.Objects()))
      ensures fresh(lists.Repr - old(lists.Repr))
      ensures Abs() == ReleaseWaiters(old(Abs()), event, data, code)
    {
      var newWaiting := NewList();
      SplitEvent(event, newWaiting, data, code);
      SplitIsRelease(old(Abs()), event, data, code, Abs(), newWaiting.Contents());
      InstallWaiting(event, newWaiting);
    }

    method SplitEvent(event: nat, newWaiting: List<Id>, data: nat, code: nat)
      requires Valid() && event < |lists.names| && forall w <- Abs().events[event].waiting :: w in records
      requires Loose(newWaiting) && newWaiting.Contents() == []
      modifies `records, callsToProcess.Objects(), newWaiting.Objects()
      ensures Valid() && fresh(callsToProcess.Objects() - old(callsToProcess.Objects()))
      ensures Loose(newWaiting) && fresh(newWaiting.Objects() - old(newWaiting.Objects()))
      ensures IsSplit(old(Abs()), old(Abs()).events[event].waiting, code, data, Abs(), newWaiting.Contents())
    {
      ghost var ids := Abs().events[event].waiting;
      var l := lists.WaitingOf(event);
      SplitWaiting(l, newWaiting, data, code, ids);
    }

    method NewList() returns (l: List<Id>)
      requires Valid()
      ensures Valid() && Abs() == old(Abs()) && Loose(l) && fresh(l.Objects()) && l.Contents() == []
    {
      l := new List<Id>();
    }

    method InstallWaiting(event: nat, l: List<Id>)
      requires Valid() && event < |lists.names| && Loose(l)
      modifies lists.Repr
      ensures Valid() && lists.Repr == old(lists.Repr + l.Objects()) && lists.names == old(lists.names)
      ensures callsToProcess.Objects() == old(callsToProcess.Objects())
      ensures var e := old(Abs()).events[event];
              Abs() == old(Abs()).(events := old(Abs()).events[event := e.(waiting := old(l.Contents()))])
    {
      QueueSpared();
      LooseSpared(l);
      lists.PutWaiting(event, l);
    }

    lemma QueueSpared()
      requires Valid()
      ensures callsToProcess !in lists.Repr && forall e <- callsToProcess.elements :: e !in lists.Repr
    {
      forall e <- callsToProcess.elements ensures e !in lists.Repr {
        assert e as object in callsToProcess.Objects();
      }
      assert callsToProcess as object in callsToProcess.Objects();
    }

    lemma LooseSpared(l: List<Id>)
      requires Loose(l)
      ensures l !in lists.Repr && forall e <- l.elements :: e !in lists.Repr
    {
      forall e <- l.elements ensures e !in lists.Repr {
        assert e as object in l.Objects();
      }
      assert l as object in l.Objects();
    }

    /** `fireEvent`. */
    method Fire(event: nat, data: nat, code: nat)
      requires Valid() && event < |Abs().events| && WaitersLive(Abs())
      modifies this, callsToProcess.Objects(), lists.Repr
      ensures Valid() && fresh(callsToProcess.Objects() - old(callsToProcess.Objects()))
      ensures fresh(lists.Repr - old(lists.Repr))
      ensures Abs() == FireEvent(old(Abs()), event, data, code)
    {
      ScheduleAllGrows(Abs(), Abs().events[event].subscriptions, None, [data]);
      assert Abs().events[event] in Abs().events;
      ScheduleSubscribers(event, data);
      ReleaseEach(event, data, code);
    }

    method ScheduleSubscribers(event: nat, data: nat)
      requires Valid() && event < |Abs().events|
      modifies `records, `allocations, callsToProcess.Objects()
      ensures Valid() && fresh(callsToProcess.Objects() - old(callsToProcess.Objects()))
      ensures Abs() == ScheduleAll(old(Abs()), old(Abs()).events[event].subscriptions, None, [data])
    {
      var l := lists.SubscriptionsOf(event);
      ScheduleEach(l, None, [data]);
    }

    method ScheduleInterrupt(number: nat, respondingTo: Option<Id>, arguments: seq<nat>)
      requires Valid() && number < |Abs().interrupts|
      modifies `records, `allocations, callsToProcess.Objects()
      ensures Valid() && fresh(callsToProcess.Objects() - old(callsToProcess.Objects()))
      ensures Abs() == ScheduleAll(old(Abs()), old(Abs()).interrupts[number], respondingTo, arguments)
    {
      var l := lists.InterruptsOf(number);
      ScheduleEach(l, respondingTo, arguments);
    }

    method AddWaiter(event: nat, id: Id)
      requires Valid() && event < |Abs().events|
      modifies lists.Repr
      ensures Valid() && fresh(lists.Repr - old(lists.Repr))
      ensures callsToProcess.Objects() == old(callsToProcess.Objects())
      ensures var e := old(Abs()).events[event];
              Abs() == old(Abs()).(events := old(Abs()).events[event := e.(waiting := e.waiting + [id])])
    {
      QueueSpared();
      lists.AddWaiter(event, id);
    }

    method AddSubscription(event: nat, f: Function)
      requires Valid() && event < |Abs().events|
      modifies lists.Repr
      ensures Valid() && fresh(lists.Repr - old(lists.Repr))
      ensures callsToProcess.Objects() == old(callsToProcess.Objects())
      ensures var e := old(Abs()).events[event];
              Abs() == old(Abs()).(events := old(Abs()).events[event := e.(subscriptions := e.subscriptions + [f])])
    {
      QueueSpared();
      lists.AddSubscription(event, f);
    }

    method AddInterruptSubscription(number: nat, f: Function)
      requires Valid() && number < |Abs().interrupts|
      modifies lists.Repr
      ensures Valid() && fresh(lists.Repr - old(lists.Repr))
      ensures callsToProcess.Objects() == old(callsToProcess.Objects())
      ensures Abs() == old(Abs()).(interrupts := old(Abs()).interrupts[number := old(Abs()).interrupts[number] + [f]])
    {
      QueueSpared();
      lists.AddInterruptSubscription(number, f);
    }

    method AddEvent(name: nat)
      requires Valid()
      modifies lists.Repr
      ensures Valid() && fresh(lists.Repr - old(lists.Repr))
      ensures callsToProcess.Objects() == old(callsToProcess.Objects())
      ensures Abs() == old(Abs()).(events := old(Abs()).events + [Event(name, [], [])])
    {
      QueueSpared();
      lists.AddEvent(name);
    }

    method SetServices(services: seq<Service>)
      requires Valid()
      modifies `services
      ensures Valid() && Abs() == old(Abs()).(services := services)
    {
      this.services := services;
    }

    /** `listPopFirst(&callsToProcess)`. */
    method Dequeue() returns (id: Option<Id>)
      requires Valid()
      modifies callsToProcess
      ensures Valid() && callsToProcess.Objects() <= old(callsToProcess.Objects())
      ensures if old(Abs()).queue == [] then id == None && Abs() == old(Abs())
              else id == Some(old(Abs()).queue[0]) && Abs() == old(Abs()).(queue := old(Abs()).queue[1..])
    {
      QueueSpared();
      id := callsToProcess.PopFirst();
    }

    /** The walk of `handleStackContainsSyscall` along `respondingTo`. */
    method StackContains(id: Id) returns (found: bool)
      requires Valid() && Linked(Abs()) && LinksDown(records) && id in records
      ensures found <==> exists c <- Chain(records, id) :: ServiceId(Abs(), c) == records[id].parameters[0]
    {
      var current := Some(id);
      ghost var rest := Chain(records, id);
      while current.Some?
        invariant current.Some? ==> current.value in records && rest == Chain(records, current.value)
        invariant current.None? ==> rest == []
        invariant (exists c <- Chain(records, id) :: ServiceId(Abs(), c) == records[id].parameters[0])
             <==> (exists c <- rest :: ServiceId(Abs(), c) == records[id].parameters[0])
        decreases current.Some?, if current.Some? then current.value else 0
      {
        assert ServiceKnown(Abs(), current.value);
        assert rest[0] == current.value;
        if services[records[current.value].service].id == records[id].parameters[0] {
          assert ServiceId(Abs(), rest[0]) == records[id].parameters[0];
          return true;
        }
        assert rest == [rest[0]] + rest[1..];
        current := records[current.value].respondingTo;
        rest := rest[1..];
      }
      return false;
    }

    // ----- handlers --------------------------------------------------------------------------

    method HandleRequestSyscall(id: Id)
      requires Valid() && Linked(Abs()) && Allocated(Abs()) && id in records
      modifies this, callsToProcess.Objects(), lists.Repr
      ensures Valid() && fresh(callsToProcess.Objects() - old(callsToProcess.Objects()))
      ensures fresh(lists.Repr - old(lists.Repr))
      ensures Abs() == HandleRequest(old(Abs()), id)
    {
      var call := records[id];
      assert ServiceKnown(Abs(), id);
      if call.parameters[0] >= |services| {
        return;
      }
      var provider := services[call.parameters[0]];
      if call.parameters[1] >= |provider.functions| {
        return;
      }
      var service := services[call.service];
      ScheduleThread(provider.functions[call.parameters[1]], Some(id),
                     [call.parameters[2], call.parameters[3], service.nameHash, service.id]);
      SetRecord(id, call.(avoidReschedule := true));
    }

    /** The event that a (service, index) pair of syscall arguments names, if there is one. */
    method FindEvent(service: nat, index: nat) returns (event: Option<nat>)
      requires Valid() && Linked(Abs())
      ensures event == EventPointer(Abs(), service, index) && (event.Some? ==> event.value < |Abs().events|)
    {
      EventPointerInTable(Abs(), service, index);
      var list := KERNEL_EVENTS;
      if service != 0 {
        if service >= |services| {
          return None;
        }
        list := services[service].events;
      }
      return if index < |list| then Some(list[index]) else None;
    }

    /** False if the handler follows a NULL pointer. */
    method HandleAwaitSyscall(id: Id) returns (ok: bool)
      requires Valid() && Linked(Abs()) && id in records
      modifies this, callsToProcess.Objects(), lists.Repr
      ensures Valid() && fresh(callsToProcess.Objects() - old(callsToProcess.Objects()))
      ensures fresh(lists.Repr - old(lists.Repr))
      ensures if ok then HandleAwait(old(Abs()), id) == Next(Abs()) else HandleAwait(old(Abs()), id).Wild?
    {
      var event := FindEvent(records[id].parameters[0], records[id].parameters[1]);
      if event.None? {
        return false;
      }
      SetRecord(id, records[id].(avoidReschedule := true));
      AddWaiter(event.value, id);
      return true;
    }

    method HandleSubscribeEventSyscall(id: Id) returns (ok: bool)
      requires Valid() && Linked(Abs()) && id in records
      modifies this, callsToProcess.Objects(), lists.Repr
      ensures Valid() && fresh(callsToProcess.Objects() - old(callsToProcess.Objects()))
      ensures fresh(lists.Repr - old(lists.Repr))
      ensures if ok then HandleSubscribeEvent(old(Abs()), id) == Next(Abs())
              else HandleSubscribeEvent(old(Abs()), id).Wild?
    {
      var event := FindEvent(records[id].parameters[0], records[id].parameters[1]);
      if event.None? {
        return false;
      }
      AddSubscription(event.value, Function(records[id].service, records[id].parameters[2]));
      return true;
    }

    method HandleFireEventSyscall(id: Id)
      requires Valid() && Linked(Abs()) && Allocated(Abs()) && id in records
      modifies this, callsToProcess.Objects(), lists.Repr
      ensures Valid() && fresh(callsToProcess.Objects() - old(callsToProcess.Objects()))
      ensures fresh(lists.Repr - old(lists.Repr))
      ensures Abs() == HandleFireEvent(old(Abs()), id)
    {
      var call := records[id];
      assert ServiceKnown(Abs(), id);
      var list := services[call.service].events;
      if call.parameters[0] < |list| {
        assert services[call.service] in services && list[call.parameters[0]] in list;
        Fire(list[call.parameters[0]], call.parameters[1], call.parameters[2]);
      }
    }

    method LoadProgram(program: Program)
      requires Valid() && Linked(Abs())
      modifies this, callsToProcess.Objects(), lists.Repr
      ensures Valid() && fresh(callsToProcess.Objects() - old(callsToProcess.Objects()))
      ensures fresh(lists.Repr - old(lists.Repr))
      ensures Abs() == LoadService(old(Abs()), program)
    {
      var service := |services|;
      ScheduleAllGrows(Abs(), Abs().events[LOAD_INITRD_EVENT].subscriptions, None, [program.nameHash]);
      Fire(LOAD_INITRD_EVENT, program.nameHash, 0);
      SetServices(services + [Service(service, program.nameHash, [Function(service, program.address)], [])]);
    }

    method HandleLoadFromInitrdSyscall(id: Id, program: Program)
      requires Valid() && Linked(Abs()) && Allocated(Abs()) && id in records
      modifies this, callsToProcess.Objects(), lists.Repr
      ensures Valid() && fresh(callsToProcess.Objects() - old(callsToProcess.Objects()))
      ensures fresh(lists.Repr - old(lists.Repr))
      ensures HandleLoad(old(Abs()), id, Oracle(true, Some(program), 0, true)) == Next(Abs())
    {
      LoadKeepsCaller(Abs(), id, program);
      var initialize := records[id].parameters[1] != 0;
      var service := |services|;
      LoadProgram(program);
      StartProgram(id, Function(service, program.address), initialize);
      LoadIs(old(Abs()), id, program);
    }

    method StartProgram(id: Id, main: Function, initialize: bool)
      requires Valid() && id in records
      modifies `records, `allocations, callsToProcess.Objects()
      ensures Valid() && fresh(callsToProcess.Objects() - old(callsToProcess.Objects()))
      ensures Abs() == Started(old(Abs()), id, main, initialize)
    {
      if initialize {
        ScheduleThread(main, Some(id), []);
      }
      SetRecord(id, records[id].(returnValue := main.service, avoidReschedule := initialize));
    }

    method HandleStackContainsSyscall(id: Id)
      requires Valid() && Linked(Abs()) && LinksDown(records) && id in records
      modifies this, callsToProcess.Objects(), lists.Repr
      ensures Valid() && fresh(callsToProcess.Objects() - old(callsToProcess.Objects()))
      ensures fresh(lists.Repr - old(lists.Repr))
      ensures Abs() == HandleStackContains(old(Abs()), id)
    {
      var found := StackContains(id);
      SetRecord(id, records[id].(returnValue := if found then 1 else 0));
    }

    method HandleCreateFunctionSyscall(id: Id, oracle: Oracle)
      requires Valid() && Linked(Abs()) && id in records
      modifies this, callsToProcess.Objects(), lists.Repr
      ensures Valid() && fresh(callsToProcess.Objects() - old(callsToProcess.Objects()))
      ensures fresh(lists.Repr - old(lists.Repr))
      ensures Abs() == HandleCreateFunction(old(Abs()), id, oracle)
    {
      assert ServiceKnown(Abs(), id);
      if !oracle.named {
        return;
      }
      var call := records[id];
      var service := services[call.service];
      SetRecord(id, call.(returnValue := |service.functions|));
      var provider := Function(call.service, call.parameters[1]);
      SetServices(services[call.service := service.(functions := service.functions + [provider])]);
    }

    method HandleSubscribeInterruptSyscall(id: Id) returns (ok: bool)
      requires Valid() && Linked(Abs()) && id in records
      modifies this, callsToProcess.Objects(), lists.Repr
      ensures Valid() && fresh(callsToProcess.Objects() - old(callsToProcess.Objects()))
      ensures fresh(lists.Repr - old(lists.Repr))
      ensures if ok then HandleSubscribeInterrupt(old(Abs()), id) == Next(Abs())
              else HandleSubscribeInterrupt(old(Abs()), id).Wild?
    {
      var number := records[id].parameters[0];
      if number >= INTERRUPT_COUNT {
        return false;
      }
      AddInterruptSubscription(number, Function(records[id].service, records[id].parameters[1]));
      return true;
    }

    method HandleCreateEventSyscall(id: Id)
      requires Valid() && Linked(Abs()) && id in records
      modifies this, callsToProcess.Objects(), lists.Repr
      ensures Valid() && fresh(callsToProcess.Objects() - old(callsToProcess.Objects()))
      ensures fresh(lists.Repr - old(lists.Repr))
      ensures Abs() == HandleCreateEvent(old(Abs()), id)
    {
      assert ServiceKnown(Abs(), id);
      var call := records[id];
      if call.parameters[0] == 0 {
        return;
      }
      var service, index := services[call.service], |lists.names|;
      SetRecord(id, call.(returnValue := |service.events|));
      SetServices(services[call.service := service.(events := service.events + [index])]);
      AddEvent(call.parameters[0]);
    }

    method HandleForkSyscall(id: Id)
      requires Valid() && Linked(Abs()) && id in records
      modifies this, callsToProcess.Objects(), lists.Repr
      ensures Valid() && fresh(callsToProcess.Objects() - old(callsToProcess.Objects()))
      ensures fresh(lists.Repr - old(lists.Repr))
      ensures Abs() == HandleFork(old(Abs()), id)
    {
      ScheduleThread(Function(records[id].service, records[id].parameters[0]), None, records[id].parameters[1..]);
    }

    /** The call through the handler table; false if the handler runs wild. */
    method RunHandler(id: Id, oracle: Oracle) returns (ok: bool)
      requires Valid() && Linked(Abs()) && Allocated(Abs()) && LinksDown(records) && id in records
      modifies this, callsToProcess.Objects(), lists.Repr
      ensures Valid() && fresh(callsToProcess.Objects() - old(callsToProcess.Objects()))
      ensures fresh(lists.Repr - old(lists.Repr))
      ensures if ok then Handle(old(Abs()), id, oracle) == Next(Abs()) else Handle(old(Abs()), id, oracle).Wild?
    {
      ok := true;
      var function_ := records[id].handler;
      if function_ == CREATE_FUNCTION {
        HandleCreateFunctionSyscall(id, oracle);
      } else if function_ == REQUEST {
        HandleRequestSyscall(id);
      } else if function_ == LOAD_FROM_INITRD {
        if oracle.named && oracle.program.Some? {
          HandleLoadFromInitrdSyscall(id, oracle.program.value);
        } else {
          ok := oracle.named && records[id].parameters[1] == 0;
        }
      } else if function_ == SUBSCRIBE_INTERRUPT {
        ok := HandleSubscribeInterruptSyscall(id);
      } else if function_ == CREATE_EVENT {
        HandleCreateEventSyscall(id);
      } else if function_ == FIRE_EVENT {
        HandleFireEventSyscall(id);
      } else if function_ == SUBSCRIBE_EVENT {
        ok := HandleSubscribeEventSyscall(id);
      } else if function_ == STACK_CONTAINS {
        HandleStackContainsSyscall(id);
      } else if function_ == AWAIT {
        ok := HandleAwaitSyscall(id);
      } else if function_ == FORK {
        HandleForkSyscall(id);
      } else if function_ == GET_SERVICE_ID {
        assert ServiceKnown(Abs(), id);
        SetRecord(id, records[id].(returnValue := services[records[id].service].id));
      } else if ReaderFails(|services|, records[id], oracle) {
        ok := false;
      } else if function_ < HANDLER_COUNT {
        SetRecord(id, records[id].(returnValue := oracle.value));
      }
    }

    // ----- steps -----------------------------------------------------------------------------

    /** The end of `processSyscall`. */
    method MarkHandled(call: Id)
      requires Valid() && call in records
      modifies `records, callsToProcess.Objects()
      ensures Valid() && fresh(callsToProcess.Objects() - old(callsToProcess.Objects()))
      ensures Abs() == Settle(old(Abs()), call)
    {
      SetRecord(call, records[call].(resume := true));
      if !records[call].avoidReschedule {
        Enqueue(call);
      }
    }

    method SetCurrent(current: Option<Id>)
      requires Valid()
      modifies `currentSyscall
      ensures Valid() && Abs() == old(Abs()).(running := current)
    {
      currentSyscall := current;
    }

    /** One turn of the loop in `kernelMain`, up to the point where a resumed thread takes over; false if a handler
        runs wild, which happens exactly for the calls of `WildCallNext`. */
    method ProcessNext(oracle: Oracle) returns (ok: bool)
      requires Valid() && Inv(Abs()) && currentSyscall.None?
      modifies this, callsToProcess.Objects(), lists.Repr
      ensures Valid() && fresh(callsToProcess.Objects() - old(callsToProcess.Objects()))
      ensures fresh(lists.Repr - old(lists.Repr))
      ensures ok <==> !WildCallNext(old(Abs()), oracle)
      ensures ok ==> DoDispatch(old(Abs()), oracle) == Next(Abs()) && Inv(Abs())
    {
      ghost var s := Abs();
      if s.queue == [] {
        IdleTurn(s, oracle);
      } else {
        TurnReady(s);
      }
      ok := TakeTurn(oracle);
      if s.queue != [] {
        TurnIsDispatch(s, oracle, ok, Abs());
      }
    }

    method TakeTurn(oracle: Oracle) returns (ok: bool)
      requires Valid() && (Abs().queue != [] ==> TurnPossible(Abs()))
      modifies this, callsToProcess.Objects(), lists.Repr
      ensures Valid() && fresh(callsToProcess.Objects() - old(callsToProcess.Objects()))
      ensures fresh(lists.Repr - old(lists.Repr))
      ensures var s := old(Abs());
              if s.queue == [] then ok && Abs() == s
              else Processed(s.(queue := s.queue[1..]), s.queue[0], oracle, ok, Abs())
    {
      var call := Dequeue();
      if call.None? {
        return true;
      }
      ok := ProcessCall(call.value, oracle);
    }

    /** The part of a turn behind the pop. */
    method ProcessCall(call: Id, oracle: Oracle) returns (ok: bool)
      requires Valid() && Linked(Abs()) && Allocated(Abs()) && LinksDown(records) && call in records
      modifies this, callsToProcess.Objects(), lists.Repr
      ensures Valid() && fresh(callsToProcess.Objects() - old(callsToProcess.Objects()))
      ensures fresh(lists.Repr - old(lists.Repr))
      ensures Processed(old(Abs()), call, oracle, ok, Abs())
    {
      if records[call].resume {
        SetCurrent(Some(call));
        return true;
      }
      HandleEvolves(Abs(), call, oracle);
      ok := RunHandler(call, oracle);
      if ok {
        assert call in records;
        MarkHandled(call);
      }
    }

    /** `handleSyscall` with a nonzero function, and the freeing of the resumed record behind it. */
    method HandleSyscall(handler: nat, parameters: Parameters)
      requires Valid() && ThreadRunning(Abs()) && Allocated(Abs())
      modifies this, callsToProcess.Objects()
      ensures Valid() && fresh(callsToProcess.Objects() - old(callsToProcess.Objects()))
      ensures Abs() == DoCall(old(Abs()), handler, parameters)
    {
      var current := currentSyscall.value;
      var r := records[current];
      var id := AddRecord(Record(handler, parameters, 0, Saved, r.respondingTo, r.service, false, false));
      Enqueue(id);
      FreeCurrent(current);
    }

    method FreeCurrent(current: Id)
      requires Valid()
      modifies `records, `currentSyscall
      ensures Valid() && Abs() == Free(old(Abs()), current)
    {
      records := records - {current};
      currentSyscall := None;
    }

    /** `finalizeCall`, and the freeing of the resumed record behind it. */
    method FinalizeCall(returnCode: nat)
      requires Valid() && LinksDown(records) && ThreadRunning(Abs())
      modifies this, callsToProcess.Objects()
      ensures Valid() && fresh(callsToProcess.Objects() - old(callsToProcess.Objects()))
      ensures Abs() == DoFinish(old(Abs()), returnCode)
    {
      var current := currentSyscall.value;
      if records[current].respondingTo.Some? {
        var target := records[current].respondingTo.value;
        if records[target].handler == REQUEST {
          SetRecord(target, records[target].(returnValue := returnCode));
        }
        Enqueue(target);
      }
      FreeCurrent(current);
    }

    method OnInterrupt(number: nat)
      requires Valid() && Linked(Abs()) && number < INTERRUPT_COUNT
      modifies `records, `allocations, callsToProcess.Objects()
      ensures Valid() && fresh(callsToProcess.Objects() - old(callsToProcess.Objects()))
      ensures Abs() == DoInterrupt(old(Abs()), number)
    {
      ScheduleInterrupt(number, None, [number]);
    }

    method OnException(arguments: seq<nat>)
      requires Valid() && Linked(Abs()) && ThreadRunning(Abs())
      modifies this, callsToProcess.Objects()
      ensures Valid() && fresh(callsToProcess.Objects() - old(callsToProcess.Objects()))
      ensures Abs() == DoFault(old(Abs()), arguments)
    {
      var current := currentSyscall.value;
      ScheduleInterrupt(EXCEPTION_SUBSCRIBERS, records[current].respondingTo, arguments);
      FreeCurrent(current);
    }

    /** What shares no object with the run queue is not among its elements. */
    lemma ListSpared<T>(l: List<T>)
      requires Apart(l.Objects(), callsToProcess.Objects())
      ensures l as object != callsToProcess
      ensures forall e <- l.elements :: e as object !in Cells(callsToProcess.elements) && e as object != callsToProcess
    {
      forall e <- l.elements ensures e as object !in callsToProcess.Objects() {
        assert e as object in l.Objects();
      }
      assert l as object in l.Objects();
    }
  }
}

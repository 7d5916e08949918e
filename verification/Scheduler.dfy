/**
 The syscall, request and event scheduler of the kernel as a transition system.

 A user thread exists only as a continuation record (`Syscall` in the sources).  The main loop pops
 the oldest record of `callsToProcess`; a record whose call has not been handled yet goes to its
 handler, any other record is resumed, and the resumed thread runs until it enters the kernel again.

 Records are named by allocation order, so a smaller id is an older record.
 */
module Scheduler {
  import opened Optional

  type Id = nat

  /** The four 32-bit arguments of a syscall. */
  type Parameters = p: seq<nat> | |p| == 4 witness [0, 0, 0, 0]

  /** What a record resumes: a saved stack, or a new stack that enters a service function. */
  datatype Stack = Saved | Entering(address: nat, arguments: seq<nat>)

  datatype Record = Record(
    handler: nat,
    parameters: Parameters,
    returnValue: nat,
    stack: Stack,
    respondingTo: Option<Id>,
    service: nat,
    resume: bool,
    avoidReschedule: bool)

  datatype Function = Function(service: nat, address: nat)

  datatype Event = Event(name: nat, subscriptions: seq<Function>, waiting: seq<Id>)

  /** `events` holds pointers into the kernel's event table. */
  datatype Service = Service(id: nat, nameHash: nat, functions: seq<Function>, events: seq<nat>)

  datatype State = State(
    queue: seq<Id>,
    running: Option<Id>,
    records: map<Id, Record>,
    next: Id,
    services: seq<Service>,
    events: seq<Event>,
    interrupts: seq<seq<Function>>)

  /** A program image found in the initial ramdisk. */
  datatype Program = Program(nameHash: nat, address: nat)

  /** Answers of the parts of the kernel that are not modelled: whether the string that a call names is
      known, the program found in the ramdisk, the return value of the handlers that touch no scheduler
      state, and whether the pages that a handler searches or maps lie inside the page bitmaps. */
  datatype Oracle = Oracle(named: bool, program: Option<Program>, value: nat, paged: bool)

  /** `Wild` stands for a handler that follows a NULL pointer or leaves an array. */
  datatype Outcome = Next(state: State) | Wild

  /** One atomic step of the machine. */
  datatype Action =
    | Dispatch(oracle: Oracle)
    | Interrupt(number: nat)
    | Call(handler: nat, parameters: Parameters)
    | Finish(code: nat)
    | Fault(arguments: seq<nat>)

  const CREATE_FUNCTION := 1
  const REQUEST := 2
  const LOAD_FROM_INITRD := 5
  const GET_FUNCTION := 7
  const SUBSCRIBE_INTERRUPT := 8
  const CREATE_EVENT := 9
  const GET_EVENT := 10
  const FIRE_EVENT := 11
  const SUBSCRIBE_EVENT := 12
  const GET_SERVICE_ID := 13
  const INSERT_STRING := 14
  const READ_STRING := 16
  const REQUEST_MEMORY := 18
  const LOOKUP_SYMBOL := 19
  const STACK_CONTAINS := 20
  const AWAIT := 21
  const FORK := 23
  const HANDLER_COUNT := 25

  const INTERRUPT_COUNT := 255
  const EXCEPTION_SUBSCRIBERS := 0
  const FIRST_INTERRUPT := 32

  /** The kernel's own events, in the order in which they are installed. */
  const LOAD_INITRD_EVENT := 0
  const CRASH_EVENT := 1
  const KERNEL_EVENTS: seq<nat> := [LOAD_INITRD_EVENT, CRASH_EVENT]

  // ----- building blocks ---------------------------------------------------------------------

  function Enqueue(s: State, id: Id): State {
    s.(queue := s.queue + [id])
  }

  function Update(s: State, id: Id, record: Record): State {
    s.(records := s.records[id := record])
  }

  function ThreadRecord(f: Function, respondingTo: Option<Id>, arguments: seq<nat>): Record {
    Record(0, [0, 0, 0, 0], 0, Entering(f.address, arguments), respondingTo, f.service, true, false)
  }

  /** `scheduleFunction`: a new thread that enters `f`, at the end of the run queue. */
  function ScheduleFunction(s: State, f: Function, respondingTo: Option<Id>, arguments: seq<nat>): State {
    s.(records := s.records[s.next := ThreadRecord(f, respondingTo, arguments)],
       next := s.next + 1,
       queue := s.queue + [s.next])
  }

  function ScheduleAll(s: State, fs: seq<Function>, respondingTo: Option<Id>, arguments: seq<nat>): State
    decreases |fs|
  {
    if fs == [] then s
    else ScheduleAll(ScheduleFunction(s, fs[0], respondingTo, arguments), fs[1..], respondingTo, arguments)
  }

  /** A waiting call is released by a fire unless it asked for another, nonzero code. */
  predicate Released(r: Record, code: nat) {
    r.parameters[2] == 0 || r.parameters[2] == code
  }

  function Woken(records: map<Id, Record>, waiting: seq<Id>, code: nat): seq<Id>
    requires forall w <- waiting :: w in records
  {
    if waiting == [] then []
    else
      var rest, last := waiting[..|waiting| - 1], waiting[|waiting| - 1];
      Woken(records, rest, code) + if Released(records[last], code) then [last] else []
  }

  function StillWaiting(records: map<Id, Record>, waiting: seq<Id>, code: nat): seq<Id>
    requires forall w <- waiting :: w in records
  {
    if waiting == [] then []
    else
      var rest, last := waiting[..|waiting| - 1], waiting[|waiting| - 1];
      StillWaiting(records, rest, code) + if Released(records[last], code) then [] else [last]
  }

  function WithReturnValues(records: map<Id, Record>, ids: seq<Id>, value: nat): map<Id, Record> {
    map id | id in records :: if id in ids then records[id].(returnValue := value) else records[id]
  }

  /** All waiting calls are live records. */
  predicate WaitersLive(s: State) {
    forall e <- s.events, w <- e.waiting :: w in s.records
  }

  /** The part of `fireEvent` that splits the waiting list. */
  function ReleaseWaiters(s: State, event: nat, data: nat, code: nat): State
    requires event < |s.events|
    requires forall w <- s.events[event].waiting :: w in s.records
  {
    var waiting := s.events[event].waiting;
    var woken := Woken(s.records, waiting, code);
    s.(records := WithReturnValues(s.records, woken, data),
       queue := s.queue + woken,
       events := s.events[event := s.events[event].(waiting := StillWaiting(s.records, waiting, code))])
  }

  lemma ScheduleAllGrows(s: State, fs: seq<Function>, respondingTo: Option<Id>, arguments: seq<nat>)
    ensures var t := ScheduleAll(s, fs, respondingTo, arguments);
            && t.events == s.events && s.records.Keys <= t.records.Keys
            && t.running == s.running && t.services == s.services && t.interrupts == s.interrupts
    decreases |fs|
  {
    if fs != [] {
      ScheduleAllGrows(ScheduleFunction(s, fs[0], respondingTo, arguments), fs[1..], respondingTo, arguments);
    }
  }

  /** `fireEvent`: one new thread per subscriber, then the waiting calls. */
  function FireEvent(s: State, event: nat, data: nat, code: nat): State
    requires event < |s.events|
    requires WaitersLive(s)
  {
    ScheduleAllGrows(s, s.events[event].subscriptions, None, [data]);
    ReleaseWaiters(ScheduleAll(s, s.events[event].subscriptions, None, [data]), event, data, code)
  }

  /** The event that a (service, index) pair of syscall arguments names; service 0 is the kernel. */
  function EventPointer(s: State, service: nat, index: nat): Option<nat> {
    var list :=
      if service == 0 then KERNEL_EVENTS
      else if service < |s.services| then s.services[service].events
      else [];
    if index < |list| then Some(list[index]) else None
  }

  /** The records on the call chain of `id`, the caller first. */
  function Chain(records: map<Id, Record>, id: Id): seq<Id>
    decreases id
  {
    if id !in records then []
    else
      match records[id].respondingTo
      case None => [id]
      case Some(super) => if super < id then [id] + Chain(records, super) else [id]
  }

  predicate ServiceKnown(s: State, id: Id) {
    id in s.records && s.records[id].service < |s.services|
  }

  /** Everything that a handler dereferences without a test is in place. */
  predicate Linked(s: State) {
    && |s.interrupts| == INTERRUPT_COUNT
    && |s.events| >= |KERNEL_EVENTS|
    && (forall id <- s.records :: ServiceKnown(s, id))
    && (forall v <- s.services, e <- v.events :: |KERNEL_EVENTS| <= e < |s.events|)
    && WaitersLive(s)
  }

  // ----- handlers ----------------------------------------------------------------------------
  // Each takes the state in which `id` has been popped and not yet marked as handled.

  function HandleCreateFunction(s: State, id: Id, oracle: Oracle): State
    requires Linked(s) && id in s.records
  {
    var r := s.records[id];
    var service := s.services[r.service];
    if !oracle.named then s
    else
      Update(s, id, r.(returnValue := |service.functions|))
      .(services := s.services[r.service :=
                                 service.(functions := service.functions + [Function(r.service, r.parameters[1])])])
  }

  /** The provider that a request names, if both the service and the function exist. */
  function Provider(s: State, r: Record): Option<Function> {
    var service, index := r.parameters[0], r.parameters[1];
    if service < |s.services| && index < |s.services[service].functions|
    then Some(s.services[service].functions[index])
    else None
  }

  function HandleRequest(s: State, id: Id): State
    requires Linked(s) && id in s.records
  {
    var r := s.records[id];
    var caller := s.services[r.service];
    match Provider(s, r)
    case None => s
    case Some(f) =>
      var t := ScheduleFunction(s, f, Some(id), [r.parameters[2], r.parameters[3], caller.nameHash, caller.id]);
      Update(t, id, r.(avoidReschedule := true))
  }

  /** `loadElf` as far as the scheduler sees it: the load event fires before the service is listed. */
  function LoadService(s: State, program: Program): State
    requires Linked(s)
  {
    var service := |s.services|;
    var t := FireEvent(s, LOAD_INITRD_EVENT, program.nameHash, 0);
    t.(services := s.services + [Service(service, program.nameHash, [Function(service, program.address)], [])])
  }

  function HandleLoad(s: State, id: Id, oracle: Oracle): Outcome
    requires Linked(s) && id in s.records
  {
    var initialize := s.records[id].parameters[1] != 0;
    match oracle.program
    case None => if initialize || !oracle.named then Wild else Next(s)
    case Some(program) =>
      if !oracle.named then Wild
      else
        var service := |s.services|;
        var loaded := LoadService(s, program);
        var started :=
          if initialize
          then ScheduleFunction(loaded, Function(service, program.address), Some(id), [])
          else loaded;
        LoadKeepsCaller(s, id, program);
        Next(Update(started, id,
                    started.records[id].(returnValue := service, avoidReschedule := initialize)))
  }

  lemma LoadKeepsCaller(s: State, id: Id, program: Program)
    requires Linked(s) && id in s.records
    ensures id in LoadService(s, program).records
  {
    ScheduleAllGrows(s, s.events[LOAD_INITRD_EVENT].subscriptions, None, [program.nameHash]);
  }

  function HandleSubscribeInterrupt(s: State, id: Id): Outcome
    requires Linked(s) && id in s.records
  {
    var r := s.records[id];
    var number := r.parameters[0];
    if number >= INTERRUPT_COUNT then Wild
    else
      Next(s.(interrupts := s.interrupts[number := s.interrupts[number] + [Function(r.service, r.parameters[1])]]))
  }

  function HandleCreateEvent(s: State, id: Id): State
    requires Linked(s) && id in s.records
  {
    var r := s.records[id];
    var service := s.services[r.service];
    if r.parameters[0] == 0 then s
    else
      Update(s, id, r.(returnValue := |service.events|))
      .(events := s.events + [Event(r.parameters[0], [], [])],
        services := s.services[r.service := service.(events := service.events + [|s.events|])])
  }

  /** The event of its own service that a fire syscall names. */
  function FiredEvent(s: State, r: Record): Option<nat>
    requires r.service < |s.services|
  {
    var events := s.services[r.service].events;
    if r.parameters[0] < |events| then Some(events[r.parameters[0]]) else None
  }

  function HandleFireEvent(s: State, id: Id): State
    requires Linked(s) && id in s.records
  {
    var r := s.records[id];
    match FiredEvent(s, r)
    case None => s
    case Some(event) =>
      assert s.services[r.service] in s.services && event in s.services[r.service].events;
      FireEvent(s, event, r.parameters[1], r.parameters[2])
  }

  function HandleSubscribeEvent(s: State, id: Id): Outcome
    requires Linked(s) && id in s.records
  {
    var r := s.records[id];
    match EventPointer(s, r.parameters[0], r.parameters[1])
    case None => Wild
    case Some(event) =>
      if event >= |s.events| then Wild else
      var e, f := s.events[event], Function(r.service, r.parameters[2]);
      Next(s.(events := s.events[event := e.(subscriptions := e.subscriptions + [f])]))
  }

  function HandleAwait(s: State, id: Id): Outcome
    requires Linked(s) && id in s.records
  {
    var r := s.records[id];
    match EventPointer(s, r.parameters[0], r.parameters[1])
    case None => Wild
    case Some(event) =>
      if event >= |s.events| then Wild else
      var e := s.events[event];
      Next(Update(s, id, r.(avoidReschedule := true))
           .(events := s.events[event := e.(waiting := e.waiting + [id])]))
  }

  /** The identifier of the service that a record runs in. */
  function ServiceId(s: State, id: Id): nat {
    if ServiceKnown(s, id) then s.services[s.records[id].service].id else 0
  }

  function HandleStackContains(s: State, id: Id): State
    requires Linked(s) && id in s.records
  {
    var r := s.records[id];
    var found := exists c <- Chain(s.records, id) :: ServiceId(s, c) == r.parameters[0];
    Update(s, id, r.(returnValue := if found then 1 else 0))
  }

  function HandleFork(s: State, id: Id): State
    requires Linked(s) && id in s.records
  {
    var r := s.records[id];
    ScheduleFunction(s, Function(r.service, r.parameters[0]), None, r.parameters[1..])
  }

  const PAGE_COUNT := 0x10_0000
  const PAGE_SIZE := 0x1000

  /** A memory request whose explicit target range or physical range leaves the address space, and with it the
      bitmap in which its pages are reserved. */
  predicate LeavesBitmap(p: Parameters) {
    || (p[1] / PAGE_SIZE != 0 && p[1] / PAGE_SIZE + p[0] > PAGE_COUNT)
    || (p[2] != 0 && p[2] / PAGE_SIZE + p[0] > PAGE_COUNT)
  }

  /** What goes wrong in the handlers that touch no scheduler state, with `count` services: the service that they look
      into does not exist, or the pages that they reserve are not in the bitmaps. */
  predicate ReaderFails(count: nat, r: Record, oracle: Oracle) {
    || (r.handler == GET_FUNCTION && oracle.named && r.parameters[0] >= count)
    || (r.handler == GET_EVENT && r.parameters[1] != 0 && r.parameters[0] != 0 && r.parameters[0] >= count)
    || (r.handler == LOOKUP_SYMBOL && r.parameters[0] >= count)
    || (r.handler == REQUEST_MEMORY && (LeavesBitmap(r.parameters) || !oracle.paged))
    || (r.handler == INSERT_STRING && r.parameters[0] != 0 && !oracle.paged)
    || (r.handler == READ_STRING && !oracle.paged)
  }

  function Handle(s: State, id: Id, oracle: Oracle): Outcome
    requires Linked(s) && id in s.records
  {
    var r := s.records[id];
    var f := r.handler;
    if f == CREATE_FUNCTION then Next(HandleCreateFunction(s, id, oracle))
    else if f == REQUEST then Next(HandleRequest(s, id))
    else if f == LOAD_FROM_INITRD then HandleLoad(s, id, oracle)
    else if f == SUBSCRIBE_INTERRUPT then HandleSubscribeInterrupt(s, id)
    else if f == CREATE_EVENT then Next(HandleCreateEvent(s, id))
    else if f == FIRE_EVENT then Next(HandleFireEvent(s, id))
    else if f == SUBSCRIBE_EVENT then HandleSubscribeEvent(s, id)
    else if f == GET_SERVICE_ID then Next(Update(s, id, r.(returnValue := ServiceId(s, id))))
    else if f == STACK_CONTAINS then Next(HandleStackContains(s, id))
    else if f == AWAIT then HandleAwait(s, id)
    else if f == FORK then Next(HandleFork(s, id))
    else if ReaderFails(|s.services|, r, oracle) then Wild
    else if f < HANDLER_COUNT then Next(Update(s, id, r.(returnValue := oracle.value)))
    else Next(s)
  }

  /** The end of `processSyscall`: the call counts as handled, and goes back to the queue unless its
      handler parked it. */
  function Settle(s: State, id: Id): State
    requires id in s.records
  {
    var t := Update(s, id, s.records[id].(resume := true));
    if s.records[id].avoidReschedule then t else Enqueue(t, id)
  }

  // ----- steps -------------------------------------------------------------------------------

  function DoDispatch(s: State, oracle: Oracle): Outcome
    requires Linked(s) && s.running.None?
  {
    if s.queue == [] then Next(s)
    else
      var id, t := s.queue[0], s.(queue := s.queue[1..]);
      if id !in s.records then Wild
      else if s.records[id].resume then Next(t.(running := Some(id)))
      else
        match Handle(t, id, oracle)
        case Wild => Wild
        case Next(h) => if id in h.records then Next(Settle(h, id)) else Wild
  }

  function DoInterrupt(s: State, number: nat): State
    requires Linked(s) && number < INTERRUPT_COUNT
  {
    ScheduleAll(s, s.interrupts[number], None, [number])
  }

  /** The freeing of the resumed record once control is back in the main loop. */
  function Free(s: State, id: Id): State {
    s.(records := s.records - {id}, running := None)
  }

  /** `handleSyscall`: the continuation of the running thread takes over its `respondingTo`. */
  function DoCall(s: State, handler: nat, parameters: Parameters): State
    requires s.running.Some? && s.running.value in s.records
  {
    var r := s.records[s.running.value];
    var call := Record(handler, parameters, 0, Saved, r.respondingTo, r.service, false, false);
    var t := s.(records := s.records[s.next := call], next := s.next + 1, queue := s.queue + [s.next]);
    Free(t, s.running.value)
  }

  /** `finalizeCall`: the call that the running thread answers goes back to the queue, and a request
      carries the thread's return code. */
  function DoFinish(s: State, code: nat): State
    requires s.running.Some? && s.running.value in s.records
  {
    match s.records[s.running.value].respondingTo
    case None => Free(s, s.running.value)
    case Some(target) =>
      if target !in s.records then Free(s, s.running.value)
      else
        var r := s.records[target];
        var t := if r.handler == REQUEST then Update(s, target, r.(returnValue := code)) else s;
        Free(Enqueue(t, target), s.running.value)
  }

  /** `onException`: every exception subscriber inherits the faulting thread's `respondingTo`. */
  function DoFault(s: State, arguments: seq<nat>): State
    requires Linked(s) && s.running.Some? && s.running.value in s.records
  {
    var r := s.records[s.running.value];
    Free(ScheduleAll(s, s.interrupts[EXCEPTION_SUBSCRIBERS], r.respondingTo, arguments), s.running.value)
  }

  /** A thread is running, and its record has not been freed. */
  predicate ThreadRunning(s: State) {
    s.running.Some? && s.running.value in s.records
  }

  /** When an action can happen.  Hardware interrupts arrive while a thread runs and around the loop's
      `sti; hlt`, where earlier ones may have queued records; a fault is admitted when its reply stays one-to-one. */
  predicate Enabled(s: State, a: Action) {
    && Linked(s)
    && match a
       case Dispatch(_) => s.running.None?
       case Interrupt(number) => FIRST_INTERRUPT <= number < INTERRUPT_COUNT
       case Call(handler, _) => ThreadRunning(s) && handler != 0
       case Finish(_) => ThreadRunning(s)
       case Fault(_) => ThreadRunning(s) && FaultIsLinear(s)
  }

  /** Exactly one subscriber takes over a pending reply; without a pending reply any number may. */
  predicate FaultIsLinear(s: State)
    requires Linked(s) && ThreadRunning(s)
  {
    s.records[s.running.value].respondingTo.None? || |s.interrupts[EXCEPTION_SUBSCRIBERS]| == 1
  }

  function Step(s: State, a: Action): Outcome
    requires Enabled(s, a)
  {
    match a
    case Dispatch(oracle) => DoDispatch(s, oracle)
    case Interrupt(number) => Next(DoInterrupt(s, number))
    case Call(handler, parameters) => Next(DoCall(s, handler, parameters))
    case Finish(code) => Next(DoFinish(s, code))
    case Fault(arguments) => Next(DoFault(s, arguments))
  }

  /** The state in which `kernelMain` enters its loop: hlib and the loader are services 0 and 1, and
      the loader's main function is the only thread.  `loadInitrd` and `crash` are the event names. */
  function Boot(hlib: Program, loader: Program, loadInitrd: nat, crash: nat): State {
    var main := Function(1, loader.address);
    State([0], None, map[0 := ThreadRecord(main, None, [])], 1,
          [Service(0, hlib.nameHash, [Function(0, hlib.address)], []),
           Service(1, loader.nameHash, [main], [])],
          [Event(loadInitrd, [], []), Event(crash, [], [])],
          seq(INTERRUPT_COUNT, i => []))
  }
}

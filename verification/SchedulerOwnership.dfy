/**
 Linear ownership of continuation records.

 Every live record has exactly one holder: a slot of the run queue, the running thread, a slot of one
 event's waiting list, or the `respondingTo` of one live record.  Holders are counted slot by slot, so
 the invariant says at once that nothing is lost, shared or left dangling.
 */
module SchedulerOwnership {
  import opened Optional
  import opened Scheduler

  // ----- counting holders --------------------------------------------------------------------

  function One(holds: bool): nat {
    if holds then 1 else 0
  }

  /** The slots of `queue` that hold `x`. */
  function Slots(queue: seq<Id>, x: Id): nat {
    multiset(queue)[x]
  }

  /** The slots of all waiting lists that hold `x`. */
  function Waiting(events: seq<Event>, x: Id): nat {
    if events == [] then 0
    else Waiting(events[..|events| - 1], x) + Slots(events[|events| - 1].waiting, x)
  }

  /** Whether live record `id` will answer `x`. */
  predicate Answers(records: map<Id, Record>, id: Id, x: Id) {
    id in records && records[id].respondingTo == Some(x)
  }

  /** The live records below `n` that will answer `x`. */
  function Behind(records: map<Id, Record>, n: nat, x: Id): nat {
    if n == 0 then 0 else Behind(records, n - 1, x) + One(Answers(records, n - 1, x))
  }

  function Holders(s: State, x: Id): nat {
    Slots(s.queue, x) + One(s.running == Some(x)) + Waiting(s.events, x) + Behind(s.records, s.next, x)
  }

  // ----- the invariant -----------------------------------------------------------------------

  /** Whether the handler of `hand` still owes it a holder. */
  predicate Owed(s: State, hand: Option<Id>, x: Id) {
    hand == Some(x) && x in s.records && !s.records[x].avoidReschedule
  }

  /** A live record has exactly one holder and any other id has none; the call that a handler is
      working on has none until the handler parks it. */
  ghost predicate Owned(s: State, hand: Option<Id>) {
    forall x: Id :: Holders(s, x) + One(Owed(s, hand, x)) == One(x in s.records)
  }

  /** Every pointer that the handlers follow is in place, and a service's id is its list index. */
  ghost predicate Shape(s: State) {
    && Linked(s)
    && (forall i | 0 <= i < |s.services| :: s.services[i].id == i)
    && (forall v <- s.services, f <- v.functions :: f.service < |s.services|)
    && (forall e <- s.events, f <- e.subscriptions :: f.service < |s.services|)
    && (forall fs <- s.interrupts, f <- fs :: f.service < |s.services|)
  }

  /** A record answers only strictly older records, and every live record has been allocated. */
  ghost predicate Aged(s: State) {
    forall id <- s.records ::
      && id < s.next
      && (s.records[id].respondingTo.Some? ==> s.records[id].respondingTo.value < id)
  }

  /** Links lead to older live records. */
  predicate LinksDown(records: map<Id, Record>) {
    forall id <- records | records[id].respondingTo.Some? ::
      records[id].respondingTo.value in records && records[id].respondingTo.value < id
  }

  ghost predicate FreshCall(r: Record) {
    r.handler != 0 && !r.avoidReschedule && r.returnValue == 0 && r.stack == Saved
  }

  ghost predicate RunningHandled(s: State) {
    s.running.Some? ==> s.running.value in s.records && s.records[s.running.value].resume
  }

  /** What waits for an event is a handled await. */
  ghost predicate WaitersParked(s: State, hand: Option<Id>) {
    forall e <- s.events, w <- e.waiting ::
      w in s.records && s.records[w].handler == AWAIT && (Some(w) == hand || s.records[w].resume)
  }

  predicate ParkedOnThread(r: Record) {
    r.handler == REQUEST || r.handler == LOAD_FROM_INITRD
  }

  /** What waits for a thread is a handled request or load. */
  ghost predicate TargetsParked(s: State, hand: Option<Id>) {
    forall id <- s.records | s.records[id].respondingTo.Some? ::
      var target := s.records[id].respondingTo.value;
      && target in s.records
      && ParkedOnThread(s.records[target])
      && (Some(target) == hand || s.records[target].resume)
  }

  /** An unhandled record is as its thread left it. */
  ghost predicate UnhandledFresh(s: State, hand: Option<Id>) {
    forall id <- s.records | !s.records[id].resume && Some(id) != hand :: FreshCall(s.records[id])
  }

  /** The handling stages; the call `hand` that a handler is working on is not yet marked. */
  ghost predicate Staged(s: State, hand: Option<Id>) {
    RunningHandled(s) && WaitersParked(s, hand) && TargetsParked(s, hand) && UnhandledFresh(s, hand)
  }

  /** The invariant while the handler of `hand` runs. */
  ghost predicate Good(s: State, hand: Option<Id>) {
    && Shape(s) && Aged(s) && Staged(s, hand) && Owned(s, hand)
    && (hand.Some? ==> hand.value in s.records && s.running.None? && !s.records[hand.value].resume)
  }

  /** The invariant between steps. */
  ghost predicate Inv(s: State) {
    Good(s, None)
  }

  // ----- counting lemmas ---------------------------------------------------------------------

  /** Two record maps whose links to `x` agree but for one record differ by that link. */
  lemma {:induction false} BehindUpdate(a: map<Id, Record>, b: map<Id, Record>, id: Id, n: nat, x: Id)
    requires forall i: nat | i < n && i != id :: Answers(a, i, x) == Answers(b, i, x)
    ensures Behind(b, n, x) == Behind(a, n, x)
                               + (if id < n then One(Answers(b, id, x)) - One(Answers(a, id, x)) else 0)
  {
    if n > 0 {
      BehindUpdate(a, b, id, n - 1, x);
    }
  }

  lemma {:induction false} WaitingUpdate(events: seq<Event>, i: nat, e: Event, x: Id)
    requires i < |events|
    ensures Waiting(events[i := e], x) == Waiting(events, x) - Slots(events[i].waiting, x) + Slots(e.waiting, x)
  {
    var updated, n := events[i := e], |events| - 1;
    if i == n {
      assert updated[..n] == events[..n];
    } else {
      assert updated[..n] == events[..n][i := e];
      WaitingUpdate(events[..n], i, e, x);
    }
  }

  lemma {:induction false} WaitingMember(events: seq<Event>, i: nat, x: Id)
    requires i < |events| && x in events[i].waiting
    ensures Waiting(events, x) >= Slots(events[i].waiting, x) >= 1
  {
    if i < |events| - 1 {
      WaitingMember(events[..|events| - 1], i, x);
    }
  }

  lemma {:induction false} BehindMember(records: map<Id, Record>, id: Id, n: nat, x: Id)
    requires Answers(records, id, x) && id < n
    ensures Behind(records, n, x) >= 1
  {
    if id < n - 1 {
      BehindMember(records, id, n - 1, x);
    }
  }

  /** A fire splits the waiting list by the code that each call asked for, and loses no slot. */
  lemma {:induction false} SplitWaiters(records: map<Id, Record>, waiting: seq<Id>, code: nat, x: Id)
    requires forall w <- waiting :: w in records
    ensures Slots(Woken(records, waiting, code), x)
         == if x in records && Released(records[x], code) then Slots(waiting, x) else 0
    ensures Slots(StillWaiting(records, waiting, code), x)
         == if x in records && !Released(records[x], code) then Slots(waiting, x) else 0
  {
    if waiting != [] {
      var rest, last := waiting[..|waiting| - 1], waiting[|waiting| - 1];
      assert waiting == rest + [last];
      SplitWaiters(records, rest, code, x);
    }
  }
}

/**
 The kernel's events and interrupt subscriptions, with their linked lists.
 */
module EventLists {
  import opened Scheduler
  import opened LinkedList
  import opened ListTable

  /** Events from their names, subscriptions and waiting calls. */
  function Events(names: seq<nat>, subscriptions: seq<seq<Function>>, waiting: seq<seq<Id>>): (events: seq<Event>)
    requires |names| == |subscriptions| == |waiting|
    ensures |events| == |names|
    ensures forall i: nat | i < |names| :: events[i] == Event(names[i], subscriptions[i], waiting[i])
  {
    seq(|names|, i requires 0 <= i < |names| => Event(names[i], subscriptions[i], waiting[i]))
  }

  lemma EventsAppended(names: seq<nat>, subscriptions: seq<seq<Function>>, waiting: seq<seq<Id>>, name: nat)
    requires |names| == |subscriptions| == |waiting|
    ensures Events(names + [name], subscriptions + [[]], waiting + [[]])
         == Events(names, subscriptions, waiting) + [Event(name, [], [])]
  {
  }

  ghost predicate Apart(a: set<object>, b: set<object>) {
    a !! b
  }

  class EventLists {
    /** The name and the two lists of each event, in the order of their creation. */
    var names: seq<nat>
    const subscriptions: ListTable<Function>
    const waiting: ListTable<Id>

    const interrupts: ListTable<Function>
    ghost var Repr: set<object>

    ghost predicate Separate()
      reads this, Repr
    {
      && subscriptions in Repr && waiting in Repr && interrupts in Repr
      && Repr == {this} + subscriptions.Repr + waiting.Repr + interrupts.Repr
      && this !in subscriptions.Repr && this !in waiting.Repr && this !in interrupts.Repr
      && Apart(subscriptions.Repr, waiting.Repr) && Apart(subscriptions.Repr, interrupts.Repr)
      && Apart(waiting.Repr, interrupts.Repr)
      && subscriptions.Valid() && waiting.Valid() && interrupts.Valid()
    }

    ghost predicate Valid()
      reads this, Repr
    {
      Separate() && |names| == |subscriptions.lists| == |waiting.lists|
    }

    /** What the events hold. */
    ghost function EventValues(): (events: seq<Event>)
      requires Valid()
      reads this, Repr
      ensures |events| == |names|
    {
      Events(names, subscriptions.Values(), waiting.Values())
    }

    ghost function InterruptValues(): (values: seq<seq<Function>>)
      requires Valid()
      reads this, Repr
    {
      interrupts.Values()
    }

    constructor ()
      ensures Valid() && fresh(Repr) && EventValues() == [] && InterruptValues() == []
    {
      names := [];
      subscriptions := new ListTable<Function>();
      waiting := new ListTable<Id>();
      interrupts := new ListTable<Function>();
      new;
      Repr := {this} + subscriptions.Repr + waiting.Repr + interrupts.Repr;
    }

    /** The list of the calls that wait for an event. */
    method WaitingOf(event: nat) returns (l: List<Id>)
      requires Valid() && event < |names|
      ensures l.Valid() && l.Objects() <= Repr && l.Contents() == EventValues()[event].waiting
    {
      l := waiting.Get(event);
    }

    method SubscriptionsOf(event: nat) returns (l: List<Function>)
      requires Valid() && event < |names|
      ensures l.Valid() && l.Objects() <= Repr && l.Contents() == EventValues()[event].subscriptions
    {
      l := subscriptions.Get(event);
    }

    method InterruptsOf(number: nat) returns (l: List<Function>)
      requires Valid() && number < |InterruptValues()|
      ensures l.Valid() && l.Objects() <= Repr && l.Contents() == InterruptValues()[number]
    {
      l := interrupts.Get(number);
    }

    method AddSubscription(event: nat, f: Function)
      requires Valid() && event < |names|
      modifies Repr
      ensures Valid() && fresh(Repr - old(Repr)) && names == old(names)
      ensures InterruptValues() == old(InterruptValues())
      ensures var e := old(EventValues())[event];
              EventValues() == old(EventValues())[event := e.(subscriptions := e.subscriptions + [f])]
    {
      AddToSubscriptions(event, f);
    }

    method AddToSubscriptions(event: nat, f: Function)
      requires Separate() && event < |subscriptions.lists|
      modifies `Repr, subscriptions.Repr
      ensures Separate() && fresh(Repr - old(Repr))
      ensures subscriptions.Values() == old(subscriptions.Values())[event := old(subscriptions.Values())[event] + [f]]
      ensures waiting.Values() == old(waiting.Values()) && interrupts.Values() == old(interrupts.Values())
    {
      subscriptions.Add(event, f);
      Repr := Repr + subscriptions.Repr;
    }

    method AddWaiter(event: nat, id: Id)
      requires Valid() && event < |names|
      modifies Repr
      ensures Valid() && fresh(Repr - old(Repr)) && names == old(names)
      ensures InterruptValues() == old(InterruptValues())
      ensures var e := old(EventValues())[event];
              EventValues() == old(EventValues())[event := e.(waiting := e.waiting + [id])]
    {
      AddToWaiting(event, id);
    }

    method AddToWaiting(event: nat, id: Id)
      requires Separate() && event < |waiting.lists|
      modifies `Repr, waiting.Repr
      ensures Separate() && fresh(Repr - old(Repr))
      ensures waiting.Values() == old(waiting.Values())[event := old(waiting.Values())[event] + [id]]
      ensures subscriptions.Values() == old(subscriptions.Values()) && interrupts.Values() == old(interrupts.Values())
    {
      waiting.Add(event, id);
      Repr := Repr + waiting.Repr;
    }

    method AddInterruptSubscription(number: nat, f: Function)
      requires Valid() && number < |InterruptValues()|
      modifies Repr
      ensures Valid() && fresh(Repr - old(Repr)) && EventValues() == old(EventValues())
      ensures InterruptValues() == old(InterruptValues())[number := old(InterruptValues())[number] + [f]]
    {
      AddToInterrupts(number, f);
    }

    method AddToInterrupts(number: nat, f: Function)
      requires Separate() && number < |interrupts.lists|
      modifies `Repr, interrupts.Repr
      ensures Separate() && fresh(Repr - old(Repr))
      ensures interrupts.Values() == old(interrupts.Values())[number := old(interrupts.Values())[number] + [f]]
      ensures subscriptions.Values() == old(subscriptions.Values()) && waiting.Values() == old(waiting.Values())
    {
      interrupts.Add(number, f);
      Repr := Repr + interrupts.Repr;
    }

    /** The waiting calls of an event are now those of list `l`. */
    method PutWaiting(event: nat, l: List<Id>)
      requires Valid() && event < |names| && l.Valid() && Apart(l.Objects(), Repr)
      modifies Repr
      ensures Valid() && Repr == old(Repr) + l.Objects() && names == old(names)
      ensures InterruptValues() == old(InterruptValues())
      ensures EventValues() == old(EventValues())[event := old(EventValues())[event].(waiting := l.Contents())]
    {
      PutInWaiting(event, l);
    }

    method PutInWaiting(event: nat, l: List<Id>)
      requires Separate() && event < |waiting.lists| && l.Valid() && Apart(l.Objects(), Repr)
      modifies `Repr, waiting
      ensures Separate() && Repr == old(Repr) + l.Objects()
      ensures waiting.Values() == old(waiting.Values())[event := l.Contents()]
      ensures subscriptions.Values() == old(subscriptions.Values()) && interrupts.Values() == old(interrupts.Values())
    {
      waiting.Put(event, l);
      Repr := Repr + waiting.Repr;
    }

    method AddEvent(name: nat)
      requires Valid()
      modifies Repr
      ensures Valid() && fresh(Repr - old(Repr)) && InterruptValues() == old(InterruptValues())
      ensures EventValues() == old(EventValues()) + [Event(name, [], [])]
    {
      AppendLists();
      names := names + [name];
      EventsAppended(old(names), old(subscriptions.Values()), old(waiting.Values()), name);
    }

    method AppendLists()
      requires Separate()
      modifies `Repr, subscriptions, waiting
      ensures Separate() && fresh(Repr - old(Repr)) && old(Repr) <= Repr
      ensures subscriptions.Values() == old(subscriptions.Values()) + [[]]
      ensures waiting.Values() == old(waiting.Values()) + [[]] && interrupts.Values() == old(interrupts.Values())
    {
      AppendSubscriptions();
      AppendWaiting();
    }

    method AppendSubscriptions()
      requires Separate()
      modifies `Repr, subscriptions
      ensures Separate() && fresh(Repr - old(Repr)) && old(Repr) <= Repr
      ensures subscriptions.Values() == old(subscriptions.Values()) + [[]]
      ensures waiting.Values() == old(waiting.Values()) && interrupts.Values() == old(interrupts.Values())
    {
      subscriptions.Append();
      Repr := Repr + subscriptions.Repr;
    }

    method AppendWaiting()
      requires Separate()
      modifies `Repr, waiting
      ensures Separate() && fresh(Repr - old(Repr)) && old(Repr) <= Repr
      ensures waiting.Values() == old(waiting.Values()) + [[]]
      ensures subscriptions.Values() == old(subscriptions.Values()) && interrupts.Values() == old(interrupts.Values())
    {
      waiting.Append();
      Repr := Repr + waiting.Repr;
    }

    method AddInterrupt()
      requires Valid()
      modifies Repr
      ensures Valid() && fresh(Repr - old(Repr)) && EventValues() == old(EventValues())
      ensures InterruptValues() == old(InterruptValues()) + [[]]
    {
      AppendInterrupts();
    }

    method AppendInterrupts()
      requires Separate()
      modifies `Repr, interrupts
      ensures Separate() && fresh(Repr - old(Repr)) && old(Repr) <= Repr
      ensures interrupts.Values() == old(interrupts.Values()) + [[]]
      ensures subscriptions.Values() == old(subscriptions.Values()) && waiting.Values() == old(waiting.Values())
    {
      interrupts.Append();
      Repr := Repr + interrupts.Repr;
    }
  }
}

/**
 A table of linked lists, such as the kernel's subscriptions per interrupt or its waiting calls per event.
 */
module ListTable {
  import opened LinkedList

  class ListTable<T> {
    var lists: seq<List<T>>
    ghost var Repr: set<object>

    ghost predicate Holds(l: List<T>)
      reads this, Repr
    {
      l in Repr && (forall e <- l.elements :: e in Repr) && l.Valid()
    }

    ghost predicate Valid()
      reads this, Repr
    {
      && this in Repr
      && (forall i: nat | i < |lists| :: Holds(lists[i]))
      && (forall i: nat, j: nat | i < j < |lists| :: lists[i] != lists[j])
      && (forall i: nat | i < |lists| :: lists[i] as object != this)
    }

    ghost function Values(): (values: seq<seq<T>>)
      requires Valid()
      reads this, Repr
      ensures |values| == |lists| && forall i: nat | i < |lists| :: values[i] == lists[i].Contents()
    {
      seq(|lists|, i requires 0 <= i < |lists| && Valid() reads this, Repr => lists[i].Contents())
    }

    constructor ()
      ensures Valid() && fresh(Repr) && Values() == []
    {
      lists := [];
      Repr := {this};
    }

    method Get(i: nat) returns (l: List<T>)
      requires Valid() && i < |lists|
      ensures l == lists[i] && l.Valid() && l.Objects() <= Repr && l.Contents() == Values()[i]
    {
      l := lists[i];
      assert Holds(l);
    }

    /** `listAdd` to list `i`. */
    method Add(i: nat, data: T)
      requires Valid() && i < |lists|
      modifies Repr
      ensures Valid() && fresh(Repr - old(Repr)) && old(Repr) <= Repr && lists == old(lists)
      ensures Values() == old(Values())[i := old(Values())[i] + [data]]
    {
      var l := lists[i];
      assert Holds(l);
      l.Add(data);
      Repr := Repr + {l.elements[|l.elements| - 1]};
      forall j: nat | j < |lists| && j != i
        ensures Holds(lists[j]) && lists[j].Contents() == old(lists[j].Contents())
      {
        var other := lists[j];
        assert other != l && other.elements == old(other.elements);
        forall e <- other.elements ensures e.next == old(e.next) && e.data == old(e.data) {
          assert e.owner == other && e as object !in old(l.Objects());
        }
        Untouched(other);
      }
    }

    /** A list keeps its contents if its fields and those of its elements stay. */
    twostate lemma Untouched(other: List<T>)
      requires old(other.Valid()) && other.first == old(other.first) && other.elements == old(other.elements)
      requires forall e <- other.elements :: e.next == old(e.next) && e.data == old(e.data)
      ensures other.Valid() && other.Contents() == old(other.Contents())
    {
    }

    /** List `i` is replaced by one that is not in the table. */
    method Put(i: nat, l: List<T>)
      requires Valid() && i < |lists| && l.Valid() && l !in Repr
      modifies this
      ensures Valid() && Repr == old(Repr) + l.Objects()
      ensures Values() == old(Values())[i := l.Contents()]
    {
      lists := lists[i := l];
      Repr := Repr + l.Objects();
    }

    /** One more, empty list. */
    method Append()
      requires Valid()
      modifies this
      ensures Valid() && fresh(Repr - old(Repr)) && old(Repr) <= Repr
      ensures Values() == old(Values()) + [[]]
    {
      var l := new List<T>();
      lists := lists + [l];
      Repr := Repr + {l};
    }
  }
}

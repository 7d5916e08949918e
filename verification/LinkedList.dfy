/**
 The kernel's singly linked lists, changed in place: append at the end, removal at the front, count and indexed read.
 */
module LinkedList {
  import opened Optional

  class ListElement<T> {
    var data: T
    var next: ListElement?<T>

    /** The list that this is an element of; no element is in two lists. */
    ghost const owner: object

    constructor (data: T, ghost owner: object)
      ensures this.data == data && next == null && this.owner == owner
    {
      this.data, next := data, null;
      this.owner := owner;
    }
  }

  ghost function Cells<T>(elements: seq<ListElement<T>>): (objects: set<object>) {
    set e <- elements :: e as object
  }

  lemma CellsAppended<T>(elements: seq<ListElement<T>>, element: ListElement<T>)
    ensures Cells(elements + [element]) == Cells(elements) + {element}
  {
    forall o | o in Cells(elements) + {element} ensures o in Cells(elements + [element]) {
      if o in Cells(elements) {
        var e :| e in elements && e as object == o;
        assert e in elements + [element];
      } else {
        assert element in elements + [element];
      }
    }
  }

  lemma CellsOfRest<T>(elements: seq<ListElement<T>>)
    requires elements != []
    ensures Cells(elements[1..]) <= Cells(elements)
  {
    forall o | o in Cells(elements[1..]) ensures o in Cells(elements) {
      var e :| e in elements[1..] && e as object == o;
      assert e in elements;
    }
  }

  class List<T> {
    var first: ListElement?<T>
    ghost var elements: seq<ListElement<T>>

    /** The element at position `i`, null past the end. */
    ghost function At(i: nat): ListElement?<T>
      reads this
    {
      if i < |elements| then elements[i] else null
    }

    ghost predicate Valid()
      reads this, elements
    {
      && first == At(0)
      && (forall i: nat {:trigger elements[i].next} | i < |elements| :: elements[i].next == At(i + 1))
      && (forall e <- elements :: e.owner == this)
      && (forall i: nat, j: nat | i < j < |elements| :: elements[i] != elements[j])
    }

    ghost function Contents(): (s: seq<T>)
      reads this, elements
      ensures |s| == |elements|
    {
      seq(|elements|, i requires 0 <= i < |elements| reads this, elements => elements[i].data)
    }

    /** The list and its elements. */
    ghost function Objects(): (objects: set<object>)
      reads this
    {
      Cells(elements) + {this}
    }

    constructor ()
      ensures Valid() && Contents() == [] && Objects() == {this}
    {
      first, elements := null, [];
    }

    /** `listAdd`. */
    method Add(data: T)
      requires Valid()
      modifies Objects()
      ensures Valid() && Contents() == old(Contents()) + [data]
      ensures elements != [] && fresh(elements[|elements| - 1])
      ensures elements == old(elements) + [elements[|elements| - 1]]
    {
      var element := new ListElement(data, this);
      var last := Last();
      if last == null {
        first := element;
      } else {
        assert last in elements;
        last.next := element;
      }
      elements := elements + [element];
      assert forall i: nat | i < |elements| - 1 :: elements[i].data == old(elements[i].data);
    }

    /** The walk of `listAdd` to the last element. */
    method Last() returns (last: ListElement?<T>)
      requires Valid()
      ensures last == if elements == [] then null else elements[|elements| - 1]
    {
      if first == null {
        return null;
      }
      last := first;
      ghost var i: nat := 0;
      while last.next != null
        invariant i < |elements| && last == elements[i]
        decreases |elements| - i
      {
        last := last.next;
        i := i + 1;
      }
    }

    /** `listPopFirst`: the oldest datum, or nothing for the empty list. */
    method PopFirst() returns (result: Option<T>)
      requires Valid()
      modifies this
      ensures Valid() && Objects() <= old(Objects())
      ensures if old(Contents()) == [] then result == None && Contents() == []
              else result == Some(old(Contents())[0]) && Contents() == old(Contents())[1..]
    {
      if first == null {
        return None;
      }
      result := Some(first.data);
      CellsOfRest(elements);
      first := first.next;
      elements := elements[1..];
    }

    /** `listCount`. */
    method Count() returns (count: nat)
      requires Valid()
      ensures count == |Contents()|
    {
      var current := first;
      count := 0;
      while current != null
        invariant current == At(count) && count <= |elements|
        decreases |elements| - count
      {
        count := count + 1;
        current := current.next;
      }
    }

    /** `listGet`: nothing for a position past the end. */
    method Get(position: nat) returns (result: Option<T>)
      requires Valid()
      ensures result == if position < |Contents()| then Some(Contents()[position]) else None
    {
      var current := first;
      for i := 0 to position
        invariant i <= |elements| && current == At(i)
      {
        if current == null {
          return None;
        }
        current := current.next;
      }
      return if current == null then None else Some(current.data);
    }
  }
}

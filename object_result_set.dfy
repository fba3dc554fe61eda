/**
 * ObjectResultSet: an append-only singly-linked chain of mapped objects with
 * a head and a tail pointer, iterated from the head.
 */
module ObjectResultSets {
  import opened JavaLang

  /** One link of the chain. */
  class Chainable<T> {
    var value: T
    var next: Chainable?<T>

    constructor (value: T)
      ensures this.value == value && next == null
    {
      this.value := value;
      next := null;
    }
  }

  class ObjectResultSet<T> {
    // public view of the class:
    ghost var Contents: seq<T>     // the values chained so far, in order
    ghost var Repr: set<object>    // this object and its links

    // private implementation:
    var head: Chainable?<T>
    var tail: Chainable?<T>
    ghost var nodes: seq<Chainable<T>>  // the links, from head to tail

    ghost predicate Valid()
      reads this, Repr
      ensures Valid() ==> this in Repr
    {
      && this in Repr
      && |nodes| == |Contents|
      && (forall i :: 0 <= i < |nodes| ==> nodes[i] in Repr)
      && (forall i, j :: 0 <= i < j < |nodes| ==> nodes[i] != nodes[j])
      && (forall i :: 0 <= i < |nodes| ==> nodes[i].value == Contents[i])
      && (forall i :: 0 <= i < |nodes| - 1 ==> nodes[i].next == nodes[i + 1])
      && (|nodes| == 0 ==> head == null && tail == null)
      && (|nodes| > 0 ==> head == nodes[0] && tail == nodes[|nodes| - 1] && tail.next == null)
    }

    constructor ()
      ensures Valid() && fresh(Repr)
      ensures Contents == [] && head == null
    {
      head, tail := null, null;
      nodes := [];
      Contents := [];
      Repr := {this};
    }

    /** `chain(value)`: links a new last element; the head stays where it was once set. */
    method Chain(value: T)
      requires Valid()
      modifies Repr
      ensures Valid() && fresh(Repr - old(Repr))
      ensures Contents == old(Contents) + [value]
      ensures old(head) != null ==> head == old(head)
      ensures tail != null && fresh(tail) && tail.value == value
    {
      var c := new Chainable(value);
      if head == null {
        head, tail := c, c;
      } else {
        tail.next := c;
        tail := c;
      }
      nodes := nodes + [c];
      Contents := Contents + [value];
      Repr := Repr + {c};
    }

    /** `iterator()`: a new iterator positioned at the head; the chain itself is not touched. */
    method Iterator() returns (it: ResultIterator<T>)
      requires Valid()
      ensures fresh(it) && it.Valid() && it.list == this && it.pos == 0
    {
      it := new ResultIterator(this);
    }
  }

  /** The anonymous `Iterator` of `iterator()`: a cursor `current` over the links. */
  class ResultIterator<T> {
    var current: Chainable?<T>
    ghost const list: ObjectResultSet<T>
    ghost var pos: nat

    ghost predicate Valid()
      reads this, list, list.Repr
    {
      && list.Valid()
      && pos <= |list.nodes|
      && current == (if pos < |list.nodes| then list.nodes[pos] else null)
    }

    constructor (list: ObjectResultSet<T>)
      requires list.Valid()
      ensures Valid() && this.list == list && pos == 0
    {
      this.list := list;
      current := list.head;
      pos := 0;
    }

    /** `hasNext()`: whether values remain. */
    method HasNext() returns (b: bool)
      requires Valid()
      ensures b <==> pos < |list.Contents|
    {
      b := current != null;
    }

    /**
     * `next()`: the next value, or `None` where Java throws
     * `NoSuchElementException`, on an exhausted iterator.
     */
    method Next() returns (r: Option<T>)
      requires Valid()
      modifies this
      ensures Valid()
      ensures old(pos) < |list.Contents| ==> r == Some(list.Contents[old(pos)]) && pos == old(pos) + 1
      ensures old(pos) == |list.Contents| ==> r == None && pos == old(pos)
    {
      if current == null {
        return None;
      }
      var c := current;
      current := c.next;
      pos := pos + 1;
      r := Some(c.value);
    }
  }

  /** Iterating a result set yields exactly the values chained into it, in order, and leaves it unchanged. */
  method Collect<T>(rs: ObjectResultSet<T>) returns (xs: seq<T>)
    requires rs.Valid()
    ensures xs == rs.Contents
  {
    var it := rs.Iterator();
    xs := [];
    var more := it.HasNext();
    while more
      invariant it.Valid() && it.list == rs && fresh(it)
      invariant xs == rs.Contents[..it.pos]
      invariant more <==> it.pos < |rs.Contents|
      decreases |rs.Contents| - it.pos
    {
      var x := it.Next();
      xs := xs + [x.value];
      more := it.HasNext();
    }
  }

  /** A result set built by chaining `values` one by one. */
  method Build<T>(values: seq<T>) returns (rs: ObjectResultSet<T>)
    ensures rs.Valid() && fresh(rs.Repr)
    ensures rs.Contents == values
  {
    rs := new ObjectResultSet();
    var i := 0;
    while i < |values|
      invariant 0 <= i <= |values|
      invariant rs.Valid() && fresh(rs.Repr)
      invariant rs.Contents == values[..i]
    {
      rs.Chain(values[i]);
      i := i + 1;
    }
  }

  /** After `chain(v1) … chain(vn)`, iteration yields exactly v1 … vn; a fresh result set yields nothing. */
  method ChainThenIterate<T>(values: seq<T>) returns (xs: seq<T>)
    ensures xs == values
  {
    var rs := Build(values);
    xs := Collect(rs);
  }
}

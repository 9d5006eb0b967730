/**
 * `pl::vector_ptr` (include/pl/vector_ptr.hpp): a doubly linked list of
 * `vector_ptr_item`s held by shared pointers, with a head, a tail and a
 * size counter.
 *
 * Shared pointers are object references and a null pointer is `null`;
 * reference counts and deallocation are not modelled. The value pointer an
 * item holds is its value of type T. The list the head reaches is the ghost
 * field `items`, which the methods keep in step with the links.
 */
module VectorPtrs {

  /** `vector_ptr_item<T>`. */
  class Item<T> {
    var previous: Item?<T>
    var next: Item?<T>
    const value: T

    /** The constructor: the given value, no links. */
    constructor (v: T)
      ensures value == v && previous == null && next == null
    {
      value := v;
      previous := null;
      next := null;
    }

    /** `set_next`: link `n` after this item, in both directions. */
    method SetNext(n: Item<T>)
      modifies this, n
      ensures next == n && n.previous == this
      ensures n != this ==> previous == old(previous) && n.next == old(n.next)
    {
      next := n;
      n.previous := this;
    }

    /** `set_previous`: link `p` before this item, in both directions. */
    method SetPrevious(p: Item<T>)
      modifies this, p
      ensures previous == p && p.next == this
      ensures p != this ==> next == old(next) && p.previous == old(p.previous)
    {
      previous := p;
      p.next := this;
    }
  }

  /** The values of a run of items, in order. */
  function ValuesOf<T>(s: seq<Item<T>>): (r: seq<T>)
    ensures |r| == |s| && forall i :: 0 <= i < |s| ==> r[i] == s[i].value
  {
    if s == [] then [] else [s[0].value] + ValuesOf(s[1..])
  }

  /** `vector_ptr<T>`. */
  class VectorPtr<T> {
    var head: Item?<T>
    var tail: Item?<T>
    /** `m_size`; a `size_t`, whose wrap-around is not modelled. */
    var size: nat
    /** The items from the head along `next`, in order. */
    ghost var items: seq<Item<T>>

    /**
     * The list is well formed: the head and the tail are the ends of
     * `items`, consecutive items are linked both ways, nothing hangs off
     * either end, and the size counts the items.
     */
    ghost predicate Valid()
      reads this, items
    {
      && size == |items|
      && (items == [] ==> head == null && tail == null)
      && (items != [] ==>
        && head == items[0] && tail == items[|items| - 1]
        && items[0].previous == null && items[|items| - 1].next == null)
      && (forall i :: 0 <= i < |items| - 1 ==> items[i].next == items[i + 1] && items[i + 1].previous == items[i])
    }

    /** The values of the items, from the head. */
    ghost function Values(): seq<T>
      reads this
    {
      ValuesOf(items)
    }

    /** The members' initialisers; `m_size` has none and is taken to start at 0. */
    constructor ()
      ensures Valid() && Values() == []
    {
      head := null;
      tail := null;
      size := 0;
      items := [];
    }

    /**
     * `push_back`: one more item; on an empty list it is both head and
     * tail, otherwise it is linked after the old tail and becomes the tail.
     */
    method PushBack(v: T)
      requires Valid()
      modifies this, tail
      ensures Valid() && Values() == old(Values()) + [v]
      ensures size == old(size) + 1
      ensures fresh(tail) && (old(tail) != null ==> head == old(head) && tail.previous == old(tail))
    {
      size := size + 1;
      var item := new Item(v);
      if tail != null {
        item.SetPrevious(tail);
        tail := item;
        items := items + [item];
      } else {
        head := item;
        tail := item;
        items := [item];
      }
    }

    /**
     * `push_front`, as written: on a non-empty list a new item is linked
     * after the tail and the size grows, and then, on every list, head and
     * tail are replaced by a second fresh item. The list the head reaches
     * is that one item, and the size no longer counts it.
     */
    method PushFront(v: T)
      requires Valid()
      modifies this, tail
      ensures fresh(head) && head == tail && items == [head] && Values() == [v]
      ensures size == if old(tail) != null then old(size) + 1 else old(size)
      ensures !Valid()
    {
      if tail != null {
        size := size + 1;
        var dropped := new Item(v);
        dropped.SetPrevious(tail);
        tail := dropped;
      }
      var item := new Item(v);
      head := item;
      tail := item;
      items := [item];
    }

    /** `push_front` as evidently intended: the new item is linked before the head. */
    method PushFrontIntended(v: T)
      requires Valid()
      modifies this, head
      ensures Valid() && Values() == [v] + old(Values())
      ensures size == old(size) + 1
      ensures fresh(head) && (old(head) != null ==> tail == old(tail) && head.next == old(head))
    {
      size := size + 1;
      var item := new Item(v);
      if head != null {
        item.SetNext(head);
        head := item;
        items := [item] + items;
      } else {
        head := item;
        tail := item;
        items := [item];
      }
    }

    /**
     * `join_back`: link the other list's head after this list's tail. The
     * tail and the size of this list are left as they were. Both pointers
     * are dereferenced, so neither list may be empty.
     */
    method JoinBack(right: VectorPtr<T>)
      requires Valid() && right.Valid() && tail != null && right.head != null
      modifies tail, right.head
      ensures old(tail).next == old(right.head) && old(right.head).previous == old(tail)
      ensures old(tail) != old(right.head) ==>
        old(tail).previous == old(tail.previous) && old(right.head).next == old(right.head.next)
    {
      right.head.SetPrevious(tail);
    }

    /** `clear`: no head, no tail, size 0. */
    method Clear()
      modifies this
      ensures Valid() && Values() == [] && head == null && tail == null && size == 0
    {
      head := null;
      tail := null;
      size := 0;
      items := [];
    }

    /**
     * `_for`: follow `next` from the head and hand each value to the
     * callback; the values it is given, in order, are the list's values.
     */
    method For() returns (visited: seq<T>)
      requires Valid()
      ensures visited == Values()
      ensures |visited| == size
    {
      visited := [];
      var node := head;
      ghost var k := 0;
      while node != null
        invariant k <= |items|
        invariant node == if k < |items| then items[k] else null
        invariant visited == Values()[..k]
        decreases |items| - k
      {
        visited := visited + [node.value];
        node := node.next;
        k := k + 1;
      }
    }
  }
}

/**
 * `pl::coin` (include/pl/coin.hpp): an intrusive node of a doubly linked
 * list, with raw `next` and `previous` pointers and a value pointer.
 *
 * A null pointer is `null`; the value pointer is `None` when null and
 * `Some(v)` otherwise. Deleting the value in the destructor is not modelled.
 */
module Coins {
  import opened Scan

  class Coin<T> {
    var next: Coin?<T>
    var previous: Coin?<T>
    var value: Option<T>

    /** `coin()`: a null value and no links. */
    constructor Empty()
      ensures value == None && next == null && previous == null
    {
      value := None;
      next := null;
      previous := null;
    }

    /** `coin(T*)`: the given value pointer and no links. */
    constructor (v: Option<T>)
      ensures value == v && next == null && previous == null
    {
      value := v;
      next := null;
      previous := null;
    }

    /**
     * The copy and the move constructors: the value pointer and both links
     * of `other`, whose neighbours still point at `other`, and which is left
     * as it was.
     */
    constructor Copy(other: Coin<T>)
      ensures value == other.value && next == other.next && previous == other.previous
    {
      value := other.value;
      next := other.next;
      previous := other.previous;
    }

    /** `value()`. */
    function Value(): Option<T>
      reads this
    {
      value
    }

    /** `set_value`: only the value pointer changes. */
    method SetValue(v: Option<T>)
      modifies this`value
      ensures Value() == v
    {
      value := v;
    }

    /**
     * `set_next`: nothing when `n` is this node; otherwise `n` becomes the
     * next node and, when not null, points back at this one.
     */
    method SetNext(n: Coin?<T>)
      modifies this, n
      ensures n == this ==> unchanged(this)
      ensures n != this ==> next == n && previous == old(previous) && value == old(value)
      ensures n != this && n != null ==> n.previous == this && n.next == old(n.next) && n.value == old(n.value)
    {
      if n == this {
        return;
      }
      next := n;
      if n != null {
        n.previous := this;
      }
    }

    /** `set_previous`: the mirror image of `set_next`. */
    method SetPrevious(p: Coin?<T>)
      modifies this, p
      ensures p == this ==> unchanged(this)
      ensures p != this ==> previous == p && next == old(next) && value == old(value)
      ensures p != this && p != null ==> p.next == this && p.previous == old(p.previous) && p.value == old(p.value)
    {
      if p == this {
        return;
      }
      previous := p;
      if p != null {
        p.next := this;
      }
    }

    /**
     * `remove_from_list`, as written: the previous node, if any, is linked
     * to the next one; the next node is then given itself as its previous,
     * which `set_previous` ignores; both links of this node are cleared.
     * When this node is cs[k] of a chain cs: removed from the middle or the
     * end, the rest is a chain again; removed from the head of a chain of
     * two or more, the new head still points back at this node.
     */
    method RemoveFromList(ghost cs: seq<Coin<T>>, ghost k: nat)
      modifies this, previous, next
      ensures next == null && previous == null && value == old(value)
      ensures old(InChain(cs, k, this)) && 0 < k ==> Chain(cs[..k] + cs[k + 1..])
      ensures old(InChain(cs, k, this)) && k == 0 && |cs| >= 2 ==> cs[1].previous == this && !Chain(cs[1..])
    {
      ghost var inChain := InChain(cs, k, this);
      if previous != null {
        previous.SetNext(next);
      }
      if next != null {
        next.SetPrevious(next);
      }
      previous := null;
      next := null;
      if inChain && 0 < k {
        assert Spliced(cs, k);
        RemovedChain(cs, k);
      }
    }

    /**
     * The links the destructor leaves: the next node, if any, is given the
     * previous one as its previous, and the previous node, if any, the next
     * one as its next. This node's own links are not touched. When this
     * node is cs[k] of a chain cs, the rest is a chain again.
     */
    method Unlink(ghost cs: seq<Coin<T>>, ghost k: nat)
      modifies previous, next
      ensures value == old(value)
      ensures old(InChain(cs, k, this)) ==> Chain(cs[..k] + cs[k + 1..])
    {
      ghost var inChain := InChain(cs, k, this);
      assert inChain ==> previous == (if k > 0 then cs[k - 1] else null) && next == (if k + 1 < |cs| then cs[k + 1] else null);
      if next != null {
        next.SetPrevious(previous);
      }
      if previous != null {
        previous.SetNext(next);
      }
      if inChain {
        assert Spliced(cs, k);
        RemovedChain(cs, k);
      }
    }

    /**
     * `remove_from_list` as evidently intended: the destructor's relinking,
     * then both links cleared. Removed from anywhere in a chain, the rest is
     * a chain.
     */
    method RemoveFromListIntended(ghost cs: seq<Coin<T>>, ghost k: nat)
      modifies this, previous, next
      ensures next == null && previous == null && value == old(value)
      ensures old(InChain(cs, k, this)) ==> Chain(cs[..k] + cs[k + 1..])
    {
      Unlink(cs, k);
      previous := null;
      next := null;
    }
  }

  /**
   * A well-formed list of distinct coins: each is linked to the next in both
   * directions, and nothing hangs off either end.
   */
  ghost predicate Chain<T>(cs: seq<Coin<T>>)
    reads set c | c in cs
  {
    && (forall i, j :: 0 <= i < j < |cs| ==> cs[i] != cs[j])
    && (cs != [] ==> cs[0].previous == null && cs[|cs| - 1].next == null)
    && (forall i :: 0 <= i < |cs| - 1 ==> cs[i].next == cs[i + 1] && cs[i + 1].previous == cs[i])
  }

  /** The coin c is at position k of the chain cs. */
  ghost predicate InChain<T>(cs: seq<Coin<T>>, k: nat, c: Coin<T>)
    reads set d | d in cs
  {
    Chain(cs) && k < |cs| && cs[k] == c
  }

  /**
   * The links around position k after cs[k] is taken out: the others are
   * as in a chain, and the neighbours of cs[k] are linked to each other, or
   * are the new ends.
   */
  ghost predicate Spliced<T>(cs: seq<Coin<T>>, k: nat)
    reads set c | c in cs
  {
    && k < |cs|
    && (forall i, j :: 0 <= i < j < |cs| ==> cs[i] != cs[j])
    && (forall i :: 0 <= i < |cs| - 1 && i + 1 != k && i != k ==> cs[i].next == cs[i + 1] && cs[i + 1].previous == cs[i])
    && (0 < k ==> cs[0].previous == null)
    && (k < |cs| - 1 ==> cs[|cs| - 1].next == null)
    && (0 < k < |cs| - 1 ==> cs[k - 1].next == cs[k + 1] && cs[k + 1].previous == cs[k - 1])
    && (k == 0 && 1 < |cs| ==> cs[1].previous == null)
    && (0 < k == |cs| - 1 ==> cs[k - 1].next == null)
  }

  /** Once cs[k] is spliced out, the other coins form a chain. */
  lemma RemovedChain<T>(cs: seq<Coin<T>>, k: nat)
    requires Spliced(cs, k)
    ensures Chain(cs[..k] + cs[k + 1..])
  {
    var ds := cs[..k] + cs[k + 1..];
    assert forall i :: 0 <= i < |ds| ==> ds[i] == if i < k then cs[i] else cs[i + 1];
  }
}

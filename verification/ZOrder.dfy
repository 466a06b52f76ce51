/** The drawing order of a paper's elements: a doubly linked list from `bottom` to `top`. */
module ZOrder {

  // ---------------------------------------------------------------- moves on the abstract order

  ghost predicate NoRepeats<T>(s: seq<T>) {
    forall i, j :: 0 <= i < j < |s| ==> s[i] != s[j]
  }

  ghost function IndexOf<T>(s: seq<T>, x: T): (i: nat)
    requires x in s
    ensures i < |s| && s[i] == x
  {
    if s[0] == x then 0 else 1 + IndexOf(s[1..], x)
  }

  /** Take `x` out. */
  ghost function Remove<T>(s: seq<T>, x: T): (r: seq<T>)
    requires x in s
    ensures |r| == |s| - 1
    ensures forall j :: 0 <= j < IndexOf(s, x) ==> r[j] == s[j]
    ensures forall j {:trigger r[j]} :: IndexOf(s, x) <= j < |r| ==> r[j] == s[j + 1]
  {
    var i := IndexOf(s, x);
    s[..i] + s[i + 1..]
  }

  /** Put `x` right before place `k`. */
  ghost function Place<T>(s: seq<T>, k: nat, x: T): (t: seq<T>)
    requires k <= |s|
    ensures |t| == |s| + 1 && t[k] == x
    ensures forall j :: 0 <= j < k ==> t[j] == s[j]
    ensures forall j {:trigger t[j]} :: k < j < |t| ==> t[j] == s[j - 1]
  {
    s[..k] + [x] + s[k..]
  }

  lemma {:induction false} IndexIs<T>(s: seq<T>, x: T, i: nat)
    requires NoRepeats(s) && i < |s| && s[i] == x
    ensures IndexOf(s, x) == i
  {
  }

  lemma {:induction false} RemoveSpares<T>(s: seq<T>, x: T)
    requires NoRepeats(s) && x in s
    ensures NoRepeats(Remove(s, x)) && x !in Remove(s, x) && |Remove(s, x)| == |s| - 1
    ensures forall y :: y in s && y != x ==> y in Remove(s, x)
    ensures forall y :: y in Remove(s, x) ==> y in s
  {
  }

  /** A move changes no other pair: taking the moved element out again gives what was left
      when it was taken out before. */
  lemma {:induction false} MoveSparesOthers<T>(s: seq<T>, x: T, k: nat)
    requires NoRepeats(s) && x in s && k < |s|
    ensures |Remove(s, x)| == |s| - 1
    ensures var t := Place(Remove(s, x), k, x);
            && NoRepeats(t) && x in t && Remove(t, x) == Remove(s, x)
            && multiset(t) == multiset(s)
  {
    RemoveSpares(s, x);
    PlacedThenRemoved(Remove(s, x), x, k);
    RemoveOne(s, x);
    PlaceOne(Remove(s, x), k, x);
  }

  lemma {:induction false} PlacedThenRemoved<T>(r: seq<T>, x: T, k: nat)
    requires NoRepeats(r) && x !in r && k <= |r|
    ensures var t := Place(r, k, x);
            NoRepeats(t) && x in t && Remove(t, x) == r
  {
  }

  lemma {:induction false} RemoveOne<T>(s: seq<T>, x: T)
    requires x in s
    ensures multiset(s) == multiset(Remove(s, x)) + multiset{x}
  {
    var i := IndexOf(s, x);
    assert s == s[..i] + [x] + s[i + 1..];
    assert multiset(s) == multiset(s[..i]) + multiset([x]) + multiset(s[i + 1..]);
  }

  lemma {:induction false} PlaceOne<T>(r: seq<T>, k: nat, x: T)
    requires k <= |r|
    ensures multiset(Place(r, k, x)) == multiset(r) + multiset{x}
  {
    assert r == r[..k] + r[k..];
  }

  lemma {:induction false} PlaceNoRepeats<T>(s: seq<T>, k: nat, x: T)
    requires NoRepeats(s) && x !in s && k <= |s|
    ensures NoRepeats(Place(s, k, x))
  {
  }

  // ---------------------------------------------------------------- the list

  class Element {
    var prev: Element?
    var next: Element?
    constructor ()
      ensures prev == null && next == null
    {
      prev, next := null, null;
    }
  }

  class Paper {
    var bottom: Element?
    var top: Element?
    ghost var order: seq<Element>

    /** The element at place `k`, null outside. */
    static ghost function At(s: seq<Element>, k: int): Element? {
      if 0 <= k < |s| then s[k] else null
    }

    /** The list is exactly `order`, from bottom to top, linked both ways. */
    ghost predicate Valid()
      reads this, order
    {
      && bottom == At(order, 0)
      && top == At(order, |order| - 1)
      && NoRepeats(order)
      && (forall k {:trigger order[k].prev} :: 0 <= k < |order| ==> order[k].prev == At(order, k - 1))
      && (forall k {:trigger order[k].next} :: 0 <= k < |order| ==> order[k].next == At(order, k + 1))
    }

    constructor ()
      ensures Valid() && order == []
    {
      bottom, top := null, null;
      order := [];
    }

    /** What every element constructor does: append on top. */
    method Append(e: Element)
      requires Valid() && e !in order
      modifies this, order, e
      ensures Valid() && order == old(order) + [e]
    {
      if bottom == null {
        bottom := e;
      }
      e.prev := top;
      if top != null {
        top.next := e;
      }
      top := e;
      e.next := null;
      order := order + [e];
    }

    /** Unlink `e`.  Its own links stay as they were. */
    method Tear(e: Element)
      requires Valid() && e in order
      modifies this, order
      ensures Valid() && order == Remove(old(order), e)
      ensures e.next == old(e.next) && e.prev == old(e.prev)
      ensures (e.next != null ==> e.next in order) && (e.prev != null ==> e.prev in order)
    {
      hide Place, Remove;
      ghost var i: int := IndexOf(order, e);
      assert order[i].next == At(order, i + 1) && order[i].prev == At(order, i - 1);
      ghost var r := Remove(order, e);
      RemoveSpares(order, e);
      if e == top {
        top := e.prev;
      }
      if e == bottom {
        bottom := e.next;
      }
      if e.next != null {
        e.next.prev := e.prev;
      }
      if e.prev != null {
        e.prev.next := e.next;
      }
      order := r;
    }

    method LinkTop(e: Element)
      requires Valid() && e !in order && order != []
      modifies this, order, e
      ensures Valid() && order == old(order) + [e]
    {
      e.next := null;
      e.prev := top;
      top.next := e;
      top := e;
      order := order + [e];
    }

    method LinkBottom(e: Element)
      requires Valid() && e !in order && order != []
      modifies this, order, e
      ensures Valid() && order == [e] + old(order)
    {
      e.next := bottom;
      e.prev := null;
      bottom.prev := e;
      bottom := e;
      order := [e] + order;
    }

    method ToFront(e: Element)
      requires Valid() && e in order
      modifies this, order
      ensures Valid() && order == Remove(old(order), e) + [e]
    {
      if top != e {
        RemoveSpares(order, e);
        Tear(e);
        LinkTop(e);
      } else {
        IndexIs(order, e, |order| - 1);
        assert order == Remove(order, e) + [e];
      }
    }

    method ToBack(e: Element)
      requires Valid() && e in order
      modifies this, order
      ensures Valid() && order == [e] + Remove(old(order), e)
    {
      if bottom != e {
        RemoveSpares(order, e);
        Tear(e);
        LinkBottom(e);
      } else {
        IndexIs(order, e, 0);
        assert order == [e] + Remove(order, e);
      }
    }

    /** The old links around place `k` redirected to `e` make a good list. */
    lemma {:induction false} Placed(was: seq<Element>, k: nat, e: Element)
      requires k <= |was| && order == Place(was, k, e) && NoRepeats(order)
      requires e.prev == At(was, k - 1) && e.next == At(was, k)
      requires bottom == (if k == 0 then e else At(was, 0)) && top == (if k == |was| then e else At(was, |was| - 1))
      requires forall j {:trigger was[j].prev} :: 0 <= j < |was| ==> was[j].prev == if j == k then e else At(was, j - 1)
      requires forall j {:trigger was[j].next} :: 0 <= j < |was| ==> was[j].next == if j == k - 1 then e else At(was, j + 1)
      ensures Valid()
    {
    }

    /** Link a torn element in right above `other`. */
    method LinkAbove(e: Element, other: Element)
      requires Valid() && e !in order && (other == e || other in order)
      requires (e.next != null ==> e.next in order) && (e.prev != null ==> e.prev in order)
      modifies this, order, e
      ensures e != other ==> Valid() && order == Place(old(order), IndexOf(old(order), other) + 1, e)
      ensures e == other ==> e.next == e && e.prev == e
    {
      hide Place, Remove;
      ghost var k: int := if e != other then IndexOf(order, other) else 0;
      if e != other {
        PlaceNoRepeats(order, k + 1, e);
        assert other.next == At(order, k + 1);
      }
      if other == top {
        top := e;
      }
      if other.next != null {
        other.next.prev := e;
      }
      e.next := other.next;
      e.prev := other;
      other.next := e;
      if e != other {
        ghost var was := order;
        order := Place(was, k + 1, e);
        Placed(was, k + 1, e);
      }
    }

    /** Link a torn element in right below `other`. */
    method LinkBelow(e: Element, other: Element)
      requires Valid() && e !in order && (other == e || other in order)
      requires (e.next != null ==> e.next in order) && (e.prev != null ==> e.prev in order)
      modifies this, order, e
      ensures e != other ==> Valid() && order == Place(old(order), IndexOf(old(order), other), e)
      ensures e == other ==> e.next == e && e.prev == e
    {
      hide Place, Remove;
      ghost var k: int := if e != other then IndexOf(order, other) else 0;
      if e != other {
        PlaceNoRepeats(order, k, e);
        assert other.prev == At(order, k - 1);
      }
      if other == bottom {
        bottom := e;
      }
      if other.prev != null {
        other.prev.next := e;
      }
      e.prev := other.prev;
      other.prev := e;
      e.next := other;
      if e != other {
        ghost var was := order;
        order := Place(was, k, e);
        Placed(was, k, e);
      }
    }

    /** Move `e` right above `other`.  An element put after itself ends up linked to itself. */
    method InsertAfter(e: Element, other: Element)
      requires Valid() && e in order && other in order
      modifies this, order
      ensures e != other ==> other in Remove(old(order), e) && Valid()
                             && order == Place(Remove(old(order), e), IndexOf(Remove(old(order), e), other) + 1, e)
      ensures e == other ==> e.next == e && e.prev == e
    {
      RemoveSpares(order, e);
      Tear(e);
      LinkAbove(e, other);
    }

    /** Move `e` right below `other`. */
    method InsertBefore(e: Element, other: Element)
      requires Valid() && e in order && other in order
      modifies this, order
      ensures e != other ==> other in Remove(old(order), e) && Valid()
                             && order == Place(Remove(old(order), e), IndexOf(Remove(old(order), e), other), e)
      ensures e == other ==> e.next == e && e.prev == e
    {
      RemoveSpares(order, e);
      Tear(e);
      LinkBelow(e, other);
    }
  }
}

/**
  The circular list of list.h: a head that never leaves the first slot of a
  64-slot pool (afl-prealloc.h), and elements taken from the pool while it
  lasts and from malloc() afterwards.
 */
module PoolList {
  import opened Machine

  const POOL: nat := 64

  datatype Status = Unused | Used | Malloc

  datatype Outcome = Fine | Fatal

  class Element<D(0)> {
    var prev: Element?<D>
    var next: Element?<D>
    var data: D
    var status: Status

    /** Zeroed memory. */
    constructor (data: D)
      ensures prev == null && next == null && status == Unused && this.data == data
    {
      this.data := data;
      prev, next, status := null, null, Unused;
    }
  }

  /** s without the first d. */
  function Without<T(==)>(s: seq<T>, d: T): seq<T> {
    if s == [] then [] else if s[0] == d then s[1..] else [s[0]] + Without(s[1..], d)
  }

  lemma {:induction false} WithoutAt<T>(s: seq<T>, d: T, i: nat)
    requires i < |s| && s[i] == d && d !in s[..i]
    ensures Without(s, d) == s[..i] + s[i + 1..]
  {
    if i > 0 {
      assert s[0] != d by { assert s[..i][0] == s[0]; }
      WithoutAt(s[1..], d, i - 1);
    }
  }

  /** A pool with as many used slots as slots has no free one. */
  lemma {:induction false} AllUsed(used: set<nat>, n: nat)
    requires forall i :: 0 <= i < n ==> i in used
    ensures |used| >= n
  {
    if n > 0 {
      AllUsed(used - {n - 1}, n - 1);
    }
  }

  lemma Others<T>(s: seq<T>, k: nat)
    requires k < |s| && forall i, j :: 0 <= i < j < |s| ==> s[i] != s[j]
    ensures forall e :: e in s[..k] + s[k + 1..] <==> e in s && e != s[k]
  {
    assert s == s[..k] + [s[k]] + s[k + 1..];
  }

  /** A ring with one element left out. */
  lemma RingWithout<T>(head: T, nodes: seq<T>, k: nat)
    requires k < |nodes| && head !in nodes && forall i, j :: 0 <= i < j < |nodes| ==> nodes[i] != nodes[j]
    ensures
      var ring, left := [head] + nodes + [head], nodes[..k] + nodes[k + 1..];
      && [head] + left + [head] == ring[..k + 1] + ring[k + 2..]
      && head !in left && forall i, j :: 0 <= i < j < |left| ==> left[i] != left[j]
  {
  }

  class List<D(0,==)> {
    const pool: seq<Element<D>>
    var count: int

    // The elements behind the head, and the pool slots in use.
    ghost var nodes: seq<Element<D>>
    ghost var used: set<nat>

    /** A zeroed list. */
    constructor (zero: D)
      ensures Valid() && !Ready() && nodes == [] && fresh(pool)
    {
      var slots: seq<Element<D>> := [];
      while |slots| < POOL
        invariant |slots| <= POOL && fresh(slots)
        invariant forall i, j :: 0 <= i < j < |slots| ==> slots[i] != slots[j]
        invariant forall e :: e in slots ==> e.next == null && e.status == Unused
      {
        var e := new Element<D>(zero);
        slots := slots + [e];
      }
      pool, count := slots, 0;
      nodes, used := [], {};
    }

    ghost predicate Shape()
      reads this`nodes
    {
      && |pool| == POOL && SlotsDiffer()
      && (forall i, j :: 0 <= i < j < |nodes| ==> nodes[i] != nodes[j])
      && pool[0] !in nodes
    }

    ghost predicate SlotsDiffer() {
      forall i, j :: 0 <= i < j < |pool| ==> pool[i] != pool[j]
    }

    /** Slots are marked exactly as they are used, and counted. */
    ghost predicate Slots(members: set<Element<D>>)
      requires |pool| == POOL
      reads this`count, this`used, pool`status, members`status
    {
      && count == |used|
      && (forall i :: i in used ==> i < POOL)
      && (forall i :: 0 <= i < POOL ==> pool[i].status == if i in used then Used else Unused)
      && (forall i :: 1 <= i < POOL ==> (i in used <==> pool[i] in members))
      && (forall e :: e in members && e !in pool ==> e.status == Malloc)
    }

    ghost function Members(): set<Element<D>>
      reads this`nodes
    {
      set e | e in nodes
    }

    /** Once around: from the head through all elements and back to the head. */
    ghost function Ring(): seq<Element<D>>
      requires Shape()
      reads this`nodes
    {
      [pool[0]] + nodes + [pool[0]]
    }

    lemma FirstInRing()
      requires Shape()
      ensures |Ring()| == |nodes| + 2 && Ring()[1] == if nodes == [] then pool[0] else nodes[0]
      ensures |nodes| > 0 ==> Ring()[2] == if |nodes| == 1 then pool[0] else nodes[1]
      ensures nodes != [] ==> nodes[0] != pool[0]
    {
    }

    ghost predicate Linked()
      requires Shape()
      reads this`nodes, pool`next, pool`prev, nodes`next, nodes`prev
    {
      forall i :: 0 <= i <= |nodes| ==> LinkedAt(i)
    }

    ghost predicate LinkedAt(i: nat)
      requires Shape() && i <= |nodes|
      reads this`nodes, pool`next, pool`prev, nodes`next, nodes`prev
    {
      Ring()[i].next == Ring()[i + 1] && Ring()[i + 1].prev == Ring()[i]
    }

    predicate Ready()
      requires |pool| == POOL
      reads pool`next
    {
      pool[0].next != null
    }

    ghost predicate Valid()
      reads this, pool, nodes
    {
      && Shape()
      && Slots(Members())
      && (0 in used <==> Ready())
      && (if Ready() then Linked() else nodes == [] && used == {})
    }

    ghost function Contents(): seq<D>
      requires Valid()
      reads this, pool, nodes
    {
      seq(|nodes|, i requires 0 <= i < |nodes| reads this, nodes => nodes[i].data)
    }

    /** PRE_ALLOC: a free slot as long as there is one, fresh memory afterwards. */
    method Alloc(zero: D, memory: bool) returns (el: Element?<D>)
      requires Valid() && Ready()
      modifies this`count, this`used, pool`status
      ensures el == null <==> old(count) >= POOL && !memory
      ensures el == null ==> Slots(Members()) && used == old(used)
      ensures el != null ==> el !in nodes && el != pool[0] && 0 in used && Slots(Members() + {el})
      ensures el != null && el !in pool ==> fresh(el) && old(count) >= POOL
    {
      if count >= POOL {
        if !memory { return null; }
        el := new Element<D>(zero);
        el.status := Malloc;
        return;
      }
      hide Linked;
      var i := FindFree();
      el := pool[i];
      TakeSlot(el, i);
    }

    method TakeSlot(el: Element<D>, ghost slot: nat)
      requires |pool| == POOL && SlotsDiffer()
      requires Slots(Members()) && 0 < slot < POOL && slot !in used && pool[slot] == el
      modifies this`count, this`used, el`status
      ensures Slots(Members() + {el}) && used == old(used) + {slot}
    {
      count := count + 1;
      el.status := Used;
      used := used + {slot};
      forall i | 0 <= i < POOL
        ensures pool[i].status == if i in used then Used else Unused
      {
        if i != slot { assert pool[i] != el; }
      }
    }

    /** The search loop of PRE_ALLOC: below the limit there is a free slot. */
    method FindFree() returns (i: nat)
      requires |pool| == POOL && Slots(Members()) && count < POOL
      ensures i < POOL && i !in used && pool[i].status == Unused
      ensures forall j :: 0 <= j < i ==> j in used
    {
      i := 0;
      while i < POOL
        invariant i <= POOL
        invariant forall j :: 0 <= j < i ==> j in used
      {
        if pool[i].status == Unused { return; }
        i := i + 1;
      }
      AllUsed(used, POOL);
      assert false;
    }

    /** The head, in the first slot of a zeroed list. */
    method Init()
      requires Valid() && !Ready()
      modifies this`count, this`used, pool
      ensures Valid() && Ready() && nodes == [] && old(count) == 0 && count == 1
    {
      Zero();
      var head := pool[0];
      head.status := Used;
      count := count + 1;
      used := {0};
      head.next, head.prev := head, head;
    }

    /** memset() of the whole list. */
    method Zero()
      requires Shape()
      modifies this`count, pool`status, pool`prev, pool`next
      ensures count == 0
      ensures forall i :: 0 <= i < POOL ==> pool[i].status == Unused
    {
      count := 0;
      forall i | 0 <= i < POOL { pool[i].status := Unused; }
      forall i | 0 <= i < POOL { pool[i].prev := null; }
      forall i | 0 <= i < POOL { pool[i].next := null; }
    }

    /** list_append() */
    method Append(d: D, memory: bool) returns (o: Outcome)
      requires Valid()
      modifies this, pool, nodes
      ensures Valid() && Ready()
      ensures o.Fatal? <==> old(count) >= POOL && !memory
      ensures o.Fatal? ==> Contents() == old(Contents())
      ensures o.Fine? ==> Contents() == old(Contents()) + [d]
      ensures forall e :: e in nodes ==> e in old(nodes) || e in pool || fresh(e)
    {
      hide Linked, Ring, LinkedAt, Slots, SlotsDiffer;
      if pool[0].next == null {
        Init();
        assert old(Contents()) == [] == Contents();
      }
      o := Push(d, memory);
    }

    /** list_append() to a list that has its head. */
    method Push(d: D, memory: bool) returns (o: Outcome)
      requires Valid() && Ready()
      modifies this, pool, nodes
      ensures Valid() && Ready()
      ensures o.Fatal? <==> old(count) >= POOL && !memory
      ensures o.Fatal? ==> Contents() == old(Contents())
      ensures o.Fine? ==> Contents() == old(Contents()) + [d]
      ensures forall e :: e in nodes ==> e in old(nodes) || e in pool || fresh(e)
    {
      hide Linked, Ring, LinkedAt, Slots, SlotsDiffer;
      var el := Alloc(d, memory);
      if el == null { return Fatal; }
      el.data := d;
      ghost var all := Members();
      LinkLast(el);
      assert Members() == all + {el};
      return Fine;
    }

    /** Put an element between the last one and the head. */
    method LinkLast(el: Element<D>)
      requires Shape() && Linked() && el !in nodes && el != pool[0]
      modifies this`nodes, el`next, el`prev, pool`next, pool`prev, nodes`next, nodes`prev
      ensures nodes == old(nodes) + [el] && Shape() && Linked() && Ready()
    {
      hide SlotsDiffer;
      var head := pool[0];
      ghost var n, ring := |nodes|, Ring();
      assert LinkedAt(n);
      el.next := head;
      el.prev := head.prev;
      head.prev.next := el;
      head.prev := el;
      nodes := nodes + [el];
      forall i | 0 <= i <= n + 1
        ensures LinkedAt(i)
      {
        if i < n {
          assert old(LinkedAt(i));
          assert ring[i] != ring[n];
        }
      }
      assert LinkedAt(0);
    }

    /** Take an element out of the ring. */
    method Bypass(el: Element<D>, ghost k: nat)
      requires Shape() && Linked() && k < |nodes| && nodes[k] == el
      modifies this`nodes, pool`next, pool`prev, nodes`next, nodes`prev
      ensures nodes == old(nodes[..k] + nodes[k + 1..]) && Shape() && Linked() && Ready()
    {
      hide SlotsDiffer;
      ghost var n, ring := |nodes|, Ring();
      assert LinkedAt(k) && LinkedAt(k + 1);
      el.prev.next := el.next;
      el.next.prev := el.prev;
      nodes := nodes[..k] + nodes[k + 1..];
      RingWithout(pool[0], old(nodes), k);
      forall i | 0 <= i < n
        ensures LinkedAt(i)
      {
        if i < k {
          assert old(LinkedAt(i));
          assert ring[i] != ring[k] && ring[i + 1] != ring[k + 2];
        } else if i > k {
          assert old(LinkedAt(i + 1));
          assert ring[i + 1] != ring[k] && ring[i + 2] != ring[k + 2];
        }
      }
      assert LinkedAt(0);
    }

    /** Unlink an element and give its memory back. */
    method Unlink(el: Element<D>, ghost k: nat)
      requires Valid() && Ready() && k < |nodes| && nodes[k] == el
      modifies this`count, this`used, this`nodes, pool, nodes
      ensures Valid() && Ready() && nodes == old(nodes[..k] + nodes[k + 1..])
      ensures forall e :: e in old(nodes) ==> e.data == old(e.data)
    {
      hide Linked, Ring, SlotsDiffer;
      ghost var all := Members();
      Others(nodes, k);
      Bypass(el, k);
      assert Members() == all - {el};
      Free(el, all);
    }

    /** PRE_FREE; none of its failures can happen to an element of the list. */
    method Free(el: Element<D>, ghost members: set<Element<D>>)
      requires |pool| == POOL && SlotsDiffer()
      requires Slots(members) && el in members && pool[0] !in members
      modifies this`count, this`used, el`status
      ensures Slots(members - {el}) && (0 in used <==> 0 in old(used))
    {
      assert el.status != Unused;
      if el.status == Used {
        ghost var slot :| 0 <= slot < POOL && pool[slot] == el;
        FreeSlot(el, members, slot);
        assert count >= 0;
      } else {
        el.status := Unused;
        assert Slots(members - {el});
      }
    }

    method FreeSlot(el: Element<D>, ghost members: set<Element<D>>, ghost slot: nat)
      requires |pool| == POOL && SlotsDiffer()
      requires Slots(members) && el in members && 0 < slot < POOL && pool[slot] == el
      modifies this`count, this`used, el`status
      ensures Slots(members - {el}) && (0 in used <==> 0 in old(used))
    {
      el.status := Unused;
      count := count - 1;
      used := used - {slot};
      forall i | 0 <= i < POOL
        ensures pool[i].status == if i in used then Used else Unused
      {
        if i != slot { assert pool[i] != el; }
      }
    }

    /** The search loop behind list_contains() and list_remove(). */
    method Find(d: D) returns (el: Element?<D>, ghost k: nat)
      requires Valid() && Ready()
      ensures el == null <==> d !in Contents()
      ensures el != null ==> k < |nodes| && nodes[k] == el && Contents()[k] == d && d !in Contents()[..k]
    {
      hide Slots, Linked, SlotsDiffer;
      var head := pool[0];
      el, k := head.next, 0;
      NextInRing(0);
      while el != head
        invariant 0 <= k <= |nodes| && el == Ring()[k + 1]
        invariant d !in Contents()[..k]
        decreases |nodes| - k
      {
        assert el == nodes[k];
        if el.data == d {
          assert Contents()[k] == d;
          return;
        }
        NextInRing(k + 1);
        assert Contents()[..k + 1] == Contents()[..k] + [Contents()[k]];
        el, k := el.next, k + 1;
      }
      assert Contents()[..k] == Contents();
      el := null;
    }

    lemma NextInRing(i: nat)
      requires Valid() && Ready() && i <= |nodes|
      ensures Ring()[i].next == Ring()[i + 1]
    {
      assert LinkedAt(i);
    }

    /** list_contains() */
    method Contains(d: D) returns (o: Outcome, found: bool)
      requires Valid()
      ensures o.Fatal? <==> !Ready()
      ensures o.Fine? ==> (found <==> d in Contents())
    {
      if pool[0].next == null { return Fatal, false; }
      var el, _ := Find(d);
      return Fine, el != null;
    }

    /** list_remove(): the first occurrence goes, and a missing one is fatal. */
    method Remove(d: D) returns (o: Outcome)
      requires Valid()
      modifies this, pool, nodes
      ensures Valid() && Ready() == old(Ready())
      ensures o.Fatal? <==> !old(Ready()) || d !in old(Contents())
      ensures o.Fatal? ==> Contents() == old(Contents())
      ensures o.Fine? ==> Contents() == Without(old(Contents()), d)
      ensures forall e :: e in nodes ==> e in old(nodes)
    {
      hide Slots, Linked, SlotsDiffer;
      if pool[0].next == null { return Fatal; }
      var el, k := Find(d);
      if el == null { return Fatal; }
      WithoutAt(Contents(), d, k);
      Unlink(el, k);
      assert Contents() == old(Contents()[..k] + Contents()[k + 1..]);
      return Fine;
    }

    /** LIST_REMOVE_CURRENT_EL_IN_FOREACH at the front of the list. */
    method PopFirst(el: Element<D>) returns (next: Element?<D>)
      requires Valid() && Ready() && nodes != [] && el == nodes[0]
      modifies this`count, this`used, this`nodes, pool, nodes
      ensures Valid() && Ready() && nodes == old(nodes[1..]) && next == Ring()[1]
      ensures old(Contents()) == [old(el.data)] + Contents()
    {
      hide Slots, Linked, SlotsDiffer, Ring;
      NextInRing(1);
      FirstInRing();
      next := el.next;
      ghost var rest := nodes[1..];
      Unlink(el, 0);
      assert nodes == rest;
      FirstInRing();
    }

    /** LIST_FOREACH_CLEAR: every element is visited once, in order, and leaves the list. */
    method Clear() returns (o: Outcome, seen: seq<D>)
      requires Valid()
      modifies this, pool, nodes
      ensures Valid() && Ready() == old(Ready())
      ensures o.Fatal? <==> !old(Ready())
      ensures o.Fine? ==> seen == old(Contents()) && Contents() == [] && count == 1
    {
      hide Slots, Linked, SlotsDiffer, Contents;
      seen := [];
      var head := pool[0];
      var el := head.next;
      if el == null { return Fatal, seen; }
      NextInRing(0);
      FirstInRing();
      while el != head
        invariant Valid() && Ready()
        invariant el == if nodes == [] then head else nodes[0]
        invariant seen + Contents() == old(Contents())
        invariant forall i :: 0 <= i < |nodes| ==> nodes[i] in old(nodes)
        decreases |nodes|
      {
        ghost var before, first := seen, [el.data];
        seen := seen + [el.data];
        el := PopFirst(el);
        Associative(before, first, Contents());
        FirstInRing();
      }
      FirstInRing();
      OnlyHead();
      return Fine, seen;
    }

    lemma OnlyHead()
      requires Valid() && Ready() && nodes == []
      ensures count == 1 && Contents() == []
    {
      assert used == {0};
    }
  }
}

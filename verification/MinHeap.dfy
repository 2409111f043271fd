/** The timer heap of lea_heap.c as it stands in memory: an array of events that know their slots. */
module Heaps {
  import opened HeapOrder

  class MinHeap {
    var p: array<Event?>
    var n: nat
    var a: nat
    const greater: Comparator

    /** min_heap_constructor_ */
    constructor (greater: Comparator)
      ensures Valid() && Live() == [] && this.greater == greater
    {
      this.greater := greater;
      p := new Event?[0];
      n, a := 0, 0;
    }

    /** The first m slots but for the hole hold events that name their slots, and none of them is e. */
    ghost predicate Placed(m: nat, hole: nat, e: Event)
      reads this, p, if m <= p.Length then p[..m] else []
    {
      && m <= p.Length
      && forall i :: 0 <= i < m && i != hole ==> p[i] != null && p[i] != e && p[i].minHeapIdx == i
    }

    /** The first m slots with e in the hole. */
    ghost function Filled(m: nat, hole: nat, e: Event): (s: seq<Event>)
      requires hole < m && Placed(m, hole, e)
      reads this, p, if m <= p.Length then p[..m] else []
      ensures |s| == m && forall i :: 0 <= i < m ==> s[i] == if i == hole then e else p[i]
    {
      p[..m][hole := e]
    }

    /** The first m slots hold events that name their slots. */
    ghost predicate Indexed(m: nat)
      reads this, p, if m <= p.Length then p[..m] else []
    {
      m <= p.Length && forall i :: 0 <= i < m ==> p[i] != null && p[i].minHeapIdx == i
    }

    /** The events in the first m slots but for the hole. */
    ghost function Others(m: nat, hole: nat): set<Event?>
      requires m <= p.Length
      reads this, p
    {
      set i | 0 <= i < m && i != hole :: p[i]
    }

    ghost predicate Valid()
      reads this, p, if n <= p.Length then p[..n] else []
    {
      a == p.Length && Indexed(n)
    }

    ghost predicate NoNulls()
      reads this, p
    {
      n <= p.Length && forall i :: 0 <= i < n ==> p[i] != null
    }

    /** The events in the first m slots. */
    ghost function Upto(m: nat): (s: seq<Event>)
      requires m <= p.Length && forall i :: 0 <= i < m ==> p[i] != null
      reads this, p
      ensures |s| == m && forall i :: 0 <= i < m ==> s[i] == p[i]
    {
      p[..m]
    }

    /** The events of the heap, by slots. */
    ghost function Live(): (s: seq<Event>)
      requires NoNulls()
      reads this, p
    {
      Upto(n)
    }

    /** The whole invariant of a heap that compares as intended. */
    ghost predicate InOrder()
      reads this, p, if n <= p.Length then p[..n] else []
    {
      greater == GREATER && Valid() && Ordered(Live())
    }

    lemma LiveDistinct()
      requires Valid()
      ensures Distinct(Live())
    {
    }

    /** min_heap_reserve_: room for m events; a growing array doubles, and starts with 8. */
    method Reserve(m: nat) returns (rc: int)
      requires Valid()
      modifies this`p, this`a
      ensures Valid() && Live() == old(Live()) && rc == 0
      ensures p == old(p) || fresh(p)
      ensures a == if m <= old(a) then old(a) else if old(a) == 0 then if m <= 8 then 8 else m
                   else if m <= 2 * old(a) then 2 * old(a) else m
    {
      if a < m {
        var a' := if a != 0 then a * 2 else 8;
        if a' < m {
          a' := m;
        }
        var was := p;
        var p' := new Event?[a'](i requires 0 <= i < a' reads was => if i < was.Length then was[i] else null);
        p, a := p', a';
      }
      return 0;
    }

    /** Ends a sift: the event takes the hole, which may be the slot behind the last. */
    method Settle(ghost m: nat, hole: nat, e: Event)
      requires hole <= m && hole < p.Length && Placed(m, hole, e)
      modifies p, e
      ensures Indexed(m)
      ensures hole < m ==> p[..m] == old(Filled(m, hole, e)) && p[m..] == old(p[m..])
      ensures hole == m ==> p[..m] == old(p[..m])
    {
      p[hole] := e;
      p[hole].minHeapIdx := hole;
    }

    /** Moves the event in slot `from` into the hole; the hole is then there. */
    method Move(ghost m: nat, hole: nat, from: nat, ghost e: Event)
      requires hole < m && from < m && hole != from && Placed(m, hole, e)
      modifies p, p[from]
      ensures Placed(m, from, e) && p[m..] == old(p[m..])
      ensures Filled(m, from, e) == Swap(old(Filled(m, hole, e)), hole, from)
      ensures Others(m, from) <= old(Others(m, hole))
    {
      p[hole] := p[from];
      p[hole].minHeapIdx := hole;
    }

    /** min_heap_shift_up_ */
    method ShiftUp(hole0: nat, e: Event, ghost m: nat)
      requires hole0 < m && Placed(m, hole0, e)
      modifies p, Others(m, hole0), e
      ensures Indexed(m) && p[m..] == old(p[m..])
      ensures p[..m] == SiftUp(greater, old(Filled(m, hole0, e)), hole0)
    {
      hide Swap;
      var hole: nat := hole0;
      while hole > 0 && greater(p[Parent(hole)].endtime, e.endtime)
        invariant hole < m && Placed(m, hole, e) && p[m..] == old(p[m..])
        invariant Others(m, hole) <= old(Others(m, hole0))
        invariant SiftUp(greater, Filled(m, hole, e), hole) == SiftUp(greater, old(Filled(m, hole0, e)), hole0)
      {
        Move(m, hole, Parent(hole), e);
        hole := Parent(hole);
      }
      Settle(m, hole, e);
    }

    /** min_heap_shift_up_unconditional_ */
    method ShiftUpUnconditional(hole0: nat, e: Event, ghost m: nat)
      requires 0 < hole0 < m && Placed(m, hole0, e)
      modifies p, Others(m, hole0), e
      ensures Indexed(m) && p[m..] == old(p[m..])
      ensures p[..m] == HeapOrder.SiftUpUnconditional(greater, old(Filled(m, hole0, e)), hole0)
    {
      hide Swap;
      Move(m, hole0, Parent(hole0), e);
      var hole: nat := Parent(hole0);
      while hole > 0 && greater(p[Parent(hole)].endtime, e.endtime)
        invariant hole < m && Placed(m, hole, e) && p[m..] == old(p[m..])
        invariant Others(m, hole) <= old(Others(m, hole0))
        invariant SiftUp(greater, Filled(m, hole, e), hole) ==
                  HeapOrder.SiftUpUnconditional(greater, old(Filled(m, hole0, e)), hole0)
      {
        Move(m, hole, Parent(hole), e);
        hole := Parent(hole);
      }
      Settle(m, hole, e);
    }

    /** min_heap_shift_down_; a hole behind the last slot takes the event as it is. */
    method ShiftDown(hole0: nat, e: Event)
      requires hole0 <= n < p.Length && Placed(n, hole0, e)
      modifies p, Others(n, hole0), e
      ensures Indexed(n)
      ensures hole0 < n ==> p[..n] == SiftDown(greater, old(Filled(n, hole0, e)), hole0)
      ensures hole0 == n ==> p[..n] == old(p[..n])
    {
      hide Swap, SiftDown, MinChild;
      var hole: nat := hole0;
      var minChild := 2 * (hole + 1);
      while minChild <= n
        invariant hole < n || hole == hole0 == n
        invariant minChild == 2 * (hole + 1)
        invariant Placed(n, hole, e) && Others(n, hole) <= old(Others(n, hole0))
        invariant hole0 == n ==> p[..n] == old(p[..n])
        invariant hole0 < n ==>
                    SiftDown(greater, Filled(n, hole, e), hole) == SiftDown(greater, old(Filled(n, hole0, e)), hole0)
        decreases n - hole
      {
        ghost var s := Filled(n, hole, e);
        if minChild == n || greater(p[minChild].endtime, p[minChild - 1].endtime) {
          minChild := minChild - 1;
        }
        LesserChild(greater, s, hole, minChild);
        if !greater(e.endtime, p[minChild].endtime) {
          break;
        }
        DownOn(greater, s, hole);
        Move(n, hole, minChild, e);
        hole := minChild;
        minChild := 2 * (hole + 1);
      }
      if hole < n {
        DownEnd(greater, Filled(n, hole, e), hole);
      }
      Settle(n, hole, e);
    }

    /** min_heap_push_ */
    method Push(e: Event) returns (rc: int)
      requires Valid() && e !in Live()
      modifies this`p, this`a, this`n, p, p[..n], e
      ensures Valid() && rc == 0 && (p == old(p) || fresh(p))
      ensures Live() == HeapOrder.Push(greater, old(Live()), e)
      ensures multiset(Live()) == multiset(old(Live())) + multiset{e}
      ensures old(InOrder()) ==> InOrder()
    {
      hide SiftUp, Ordered;
      rc := Reserve(n + 1);
      n := n + 1;
      assert Filled(n, n - 1, e) == old(Live()) + [e];
      ShiftUp(n - 1, e, n);
      PushBag(greater, old(Live()), e);
      if old(InOrder()) {
        PushOrdered(old(Live()), e);
      }
    }

    /** min_heap_pop_: the first event, or null. */
    method Pop() returns (e: Event?)
      requires Valid()
      modifies this`n, p, p[..n]
      ensures Valid() && p == old(p)
      ensures old(n) == 0 ==> e == null && Live() == []
      ensures old(n) > 0 ==>
                e == old(Live())[0] && e.minHeapIdx == -1 && Live() == HeapOrder.Pop(greater, old(Live()))
      ensures old(n) > 0 ==> multiset(Live()) == multiset(old(Live())) - multiset{e}
      ensures old(InOrder()) ==> InOrder()
      ensures old(InOrder()) && e != null ==> forall x :: x in old(Live()) ==> Due(e) <= Due(x)
    {
      if n == 0 {
        return null;
      }
      hide Ordered, SiftDown, Distinct, Due;
      ghost var s := Live();
      LiveDistinct();
      e := p[0];
      n := n - 1;
      assert n > 0 ==> Filled(n, 0, p[n]) == s[..n][0 := s[n]];
      ShiftDown(0, p[n]);
      PopKeeps(greater, s);
      e.minHeapIdx := -1;
    }

    /** The last event, already cut off, takes slot i (lea_heap.c:114-119). */
    method Refill(i: nat, last: Event)
      requires i <= n < p.Length && Indexed(n + 1) && p[n] == last
      modifies p, p[..n + 1]
      ensures NoNulls() && Live() == HeapOrder.Erase(greater, old(Upto(n + 1)), i)
      ensures !Slips(greater, old(Upto(n + 1)), i) ==> Indexed(n)
    {
      hide SiftUp, SiftDown, Swap, HeapOrder.SiftUpUnconditional;
      ghost var s := Upto(n + 1);
      assert Filled(n + 1, n, last) == s;
      assert i < n ==> Filled(n, i, last) == s[..n][i := s[n]];
      if i > 0 && greater(p[Parent(i)].endtime, last.endtime) {
        ShiftUpUnconditional(i, last, if i == n then n + 1 else n);
      } else {
        ShiftDown(i, last);
      }
    }

    /** min_heap_erase_: takes out an event by the slot it names. */
    method Erase(e: Event) returns (rc: int)
      requires Valid() && 0 <= e.minHeapIdx < n && p[e.minHeapIdx] == e
      modifies this`n, p, p[..n]
      ensures rc == 0 && p == old(p) && n == old(n) - 1 && e.minHeapIdx == -1
      ensures NoNulls() && Live() == HeapOrder.Erase(greater, old(Live()), old(e.minHeapIdx))
      ensures !Slips(greater, old(Live()), old(e.minHeapIdx)) ==>
                Valid() && multiset(Live()) == multiset(old(Live())) - multiset{e}
      ensures old(InOrder()) ==> InOrder() && multiset(Live()) == multiset(old(Live())) - multiset{e}
    {
      hide HeapOrder.Erase, Slips, Distinct, Ordered;
      LiveDistinct();
      EraseKeeps(greater, Live(), e.minHeapIdx);
      n := n - 1;
      Refill(e.minHeapIdx, p[n]);
      e.minHeapIdx := -1;
      return 0;
    }
  }
}

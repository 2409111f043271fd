/** The timer heap of lea_heap.c as sequences of events: what its operations compute. */
module HeapOrder {
  import opened Times

  class Event {
    const endtime: Time
    var minHeapIdx: int

    /** min_heap_elem_init_: an event in no heap. */
    constructor (endtime: Time)
      ensures this.endtime == endtime && minHeapIdx == -1
    {
      this.endtime := endtime;
      minHeapIdx := -1;
    }
  }

  /** When an event is due. */
  function Due(e: Event): int { Instant(e.endtime) }

  /** How the heap compares two ends. */
  type Comparator = (Time, Time) -> bool

  /** The comparison min_heap_elem_greater is named for. */
  const GREATER: Comparator := (a, b) => Difference(a, b) > 0

  /** What C makes of its signed difference as a condition. */
  const NONZERO: Comparator := (a, b) => Difference(a, b) != 0

  function Parent(k: nat): nat
    requires k > 0
  {
    (k - 1) / 2
  }

  /** No event is due before its parent. */
  predicate Ordered(s: seq<Event>) {
    forall i :: 0 < i < |s| ==> Due(s[Parent(i)]) <= Due(s[i])
  }

  // ---------- sifting ----------

  function Swap(s: seq<Event>, i: nat, j: nat): seq<Event>
    requires i < |s| && j < |s|
  {
    s[i := s[j]][j := s[i]]
  }

  /** The event in slot k moves up while its parent is greater. */
  function SiftUp(g: Comparator, s: seq<Event>, k: nat): (r: seq<Event>)
    requires k < |s|
    ensures |r| == |s|
    decreases k
  {
    if k > 0 && g(s[Parent(k)].endtime, s[k].endtime) then SiftUp(g, Swap(s, k, Parent(k)), Parent(k)) else s
  }

  /** The first step up is made without a comparison. */
  function SiftUpUnconditional(g: Comparator, s: seq<Event>, k: nat): (r: seq<Event>)
    requires 0 < k < |s|
    ensures |r| == |s|
  {
    SiftUp(g, Swap(s, k, Parent(k)), Parent(k))
  }

  /** The lesser child of slot k, the left one of two equals. */
  function MinChild(g: Comparator, s: seq<Event>, k: nat): (c: nat)
    requires 2 * k + 1 < |s|
    ensures c < |s| && (c == 2 * k + 1 || c == 2 * k + 2)
  {
    var right := 2 * (k + 1);
    if right == |s| || g(s[right].endtime, s[right - 1].endtime) then right - 1 else right
  }

  /** The event in slot k moves down while it is greater than its lesser child. */
  function SiftDown(g: Comparator, s: seq<Event>, k: nat): (r: seq<Event>)
    requires k < |s|
    ensures |r| == |s|
    decreases |s| - k
  {
    if 2 * k + 1 < |s| && g(s[k].endtime, s[MinChild(g, s, k)].endtime) then
      SiftDown(g, Swap(s, k, MinChild(g, s, k)), MinChild(g, s, k))
    else s
  }

  /** The child the code picks. */
  lemma LesserChild(g: Comparator, s: seq<Event>, k: nat, c: nat)
    requires 2 * k + 1 < |s|
    requires c == if 2 * k + 2 == |s| || g(s[2 * k + 2].endtime, s[2 * k + 1].endtime) then 2 * k + 1 else 2 * k + 2
    ensures c == MinChild(g, s, k)
  {
  }

  lemma DownOn(g: Comparator, s: seq<Event>, k: nat)
    requires 2 * k + 1 < |s| && g(s[k].endtime, s[MinChild(g, s, k)].endtime)
    ensures var c := MinChild(g, s, k);
            |Swap(s, k, c)| == |s| && SiftDown(g, s, k) == SiftDown(g, Swap(s, k, c), c)
  {
  }

  lemma DownEnd(g: Comparator, s: seq<Event>, k: nat)
    requires k < |s|
    requires 2 * k + 1 < |s| ==> !g(s[k].endtime, s[MinChild(g, s, k)].endtime)
    ensures SiftDown(g, s, k) == s
  {
  }

  // ---------- operations ----------

  function Push(g: Comparator, s: seq<Event>, e: Event): (r: seq<Event>)
    ensures |r| == |s| + 1
  {
    SiftUp(g, s + [e], |s|)
  }

  /** What is left after the event in slot i has gone. */
  function Erase(g: Comparator, s: seq<Event>, i: nat): (r: seq<Event>)
    requires i < |s|
    ensures |r| == |s| - 1
  {
    var n := |s| - 1;
    var up := i > 0 && g(s[Parent(i)].endtime, s[n].endtime);
    if i < n then
      var t := s[..n][i := s[n]];
      if up then SiftUpUnconditional(g, t, i) else SiftDown(g, t, i)
    else if up then SiftUpUnconditional(g, s, i)[..n]
    else s[..n]
  }

  /** What is left after the first event has gone. */
  function Pop(g: Comparator, s: seq<Event>): (r: seq<Event>)
    requires s != []
    ensures |r| == |s| - 1
  {
    var n := |s| - 1;
    if n == 0 then [] else SiftDown(g, s[..n][0 := s[n]], 0)
  }

  // ---------- the bag, for every comparison ----------

  lemma SwapBag(s: seq<Event>, i: nat, j: nat)
    requires i < |s| && j < |s|
    ensures multiset(Swap(s, i, j)) == multiset(s)
  {
  }

  lemma {:induction false} SiftUpBag(g: Comparator, s: seq<Event>, k: nat)
    requires k < |s|
    ensures multiset(SiftUp(g, s, k)) == multiset(s)
    decreases k
  {
    hide Swap;
    if k > 0 && g(s[Parent(k)].endtime, s[k].endtime) {
      SwapBag(s, k, Parent(k));
      SwapLength(s, k, Parent(k));
      SiftUpBag(g, Swap(s, k, Parent(k)), Parent(k));
    }
  }

  lemma SwapLength(s: seq<Event>, i: nat, j: nat)
    requires i < |s| && j < |s|
    ensures |Swap(s, i, j)| == |s|
  {
  }

  lemma {:induction false} SiftDownBag(g: Comparator, s: seq<Event>, k: nat)
    requires k < |s|
    ensures multiset(SiftDown(g, s, k)) == multiset(s)
    decreases |s| - k
  {
    hide Swap, MinChild;
    if 2 * k + 1 < |s| && g(s[k].endtime, s[MinChild(g, s, k)].endtime) {
      var c := MinChild(g, s, k);
      SwapBag(s, k, c);
      SwapLength(s, k, c);
      SiftDownBag(g, Swap(s, k, c), c);
    }
  }

  /** The last event in the slot of another: the bag loses that other. */
  lemma ReplaceBag(s: seq<Event>, i: nat)
    requires i < |s| - 1
    ensures multiset(s[..|s| - 1][i := s[|s| - 1]]) == multiset(s) - multiset{s[i]}
  {
    var n := |s| - 1;
    assert s == s[..n] + [s[n]];
    assert s[..n][i] == s[i];
  }

  lemma PushBag(g: Comparator, s: seq<Event>, e: Event)
    ensures multiset(Push(g, s, e)) == multiset(s) + multiset{e}
  {
    SiftUpBag(g, s + [e], |s|);
  }

  lemma PopBag(g: Comparator, s: seq<Event>)
    requires s != []
    ensures multiset(Pop(g, s)) == multiset(s) - multiset{s[0]}
  {
    hide SiftDown;
    var n := |s| - 1;
    if n == 0 {
      assert s == [s[0]];
    } else {
      ReplaceBag(s, 0);
      SiftDownBag(g, s[..n][0 := s[n]], 0);
    }
  }

  /** The branch that takes the last event up although it is the one that goes. */
  predicate Slips(g: Comparator, s: seq<Event>, i: nat)
    requires i < |s|
  {
    0 < i == |s| - 1 && g(s[Parent(i)].endtime, s[i].endtime)
  }

  /**
   Erase takes out its event and no other, for every comparison, unless it slips; if it does, the
   event stays and its parent goes.
   */
  lemma EraseBag(g: Comparator, s: seq<Event>, i: nat)
    requires i < |s|
    ensures !Slips(g, s, i) ==> multiset(Erase(g, s, i)) == multiset(s) - multiset{s[i]}
    ensures Slips(g, s, i) ==> multiset(Erase(g, s, i)) == multiset(s) - multiset{s[Parent(i)]}
  {
    hide SiftUp, SiftDown, Swap;
    var n := |s| - 1;
    if i < n {
      var t := s[..n][i := s[n]];
      ReplaceBag(s, i);
      SiftDownBag(g, t, i);
      if i > 0 {
        UnconditionalBag(g, t, i);
      }
    } else {
      assert s == s[..n] + [s[n]];
      if Slips(g, s, i) {
        UnconditionalLast(g, s);
        var r := SiftUpUnconditional(g, s, i);
        assert r == r[..n] + [r[n]];
        UnconditionalBag(g, s, i);
      }
    }
  }

  predicate Distinct(s: seq<Event>) {
    forall i, j :: 0 <= i < j < |s| ==> s[i] != s[j]
  }

  lemma DistinctOnce(s: seq<Event>, i: nat)
    requires Distinct(s) && i < |s|
    ensures multiset(s)[s[i]] == 1
  {
    assert s == s[..i] + [s[i]] + s[i + 1..];
  }

  /** The event that a pop or an erase takes out is no longer in the heap. */
  lemma TakenOut(g: Comparator, s: seq<Event>, i: nat)
    requires Distinct(s) && i < |s|
    ensures i == 0 ==> s[0] !in Pop(g, s)
    ensures !Slips(g, s, i) ==> s[i] !in Erase(g, s, i)
  {
    hide Pop, Erase, Slips;
    DistinctOnce(s, i);
    PopBag(g, s);
    EraseBag(g, s, i);
    assert s[i] in Pop(g, s) ==> s[i] in multiset(Pop(g, s));
    assert s[i] in Erase(g, s, i) ==> s[i] in multiset(Erase(g, s, i));
  }

  lemma UnconditionalBag(g: Comparator, s: seq<Event>, k: nat)
    requires 0 < k < |s|
    ensures multiset(SiftUpUnconditional(g, s, k)) == multiset(s)
  {
    hide SiftUp, Swap;
    SwapBag(s, k, Parent(k));
    SwapLength(s, k, Parent(k));
    SiftUpBag(g, Swap(s, k, Parent(k)), Parent(k));
  }

  /** Slots behind the one sifted up are not touched. */
  lemma {:induction false} SiftUpBehind(g: Comparator, s: seq<Event>, k: nat, i: nat)
    requires k < i < |s|
    ensures SiftUp(g, s, k)[i] == s[i]
    decreases k
  {
    if k > 0 && g(s[Parent(k)].endtime, s[k].endtime) {
      SiftUpBehind(g, Swap(s, k, Parent(k)), Parent(k), i);
    }
  }

  lemma UnconditionalLast(g: Comparator, s: seq<Event>)
    requires |s| > 1
    ensures SiftUpUnconditional(g, s, |s| - 1)[|s| - 1] == s[Parent(|s| - 1)]
  {
    hide SiftUp;
    var k := |s| - 1;
    SiftUpBehind(g, Swap(s, k, Parent(k)), Parent(k), k);
  }

  // ---------- the order, for the strict comparison ----------

  /** Ordered but for slot k, which may be due before its parent. */
  predicate UpHole(s: seq<Event>, k: nat) {
    && (forall i :: 0 < i < |s| && i != k ==> Due(s[Parent(i)]) <= Due(s[i]))
    && (forall i :: 0 < i < |s| && k > 0 && Parent(i) == k < |s| ==> Due(s[Parent(k)]) <= Due(s[i]))
  }

  /** Ordered but for the children of slot k. */
  predicate DownHole(s: seq<Event>, k: nat) {
    && (forall i :: 0 < i < |s| && Parent(i) != k ==> Due(s[Parent(i)]) <= Due(s[i]))
    && (forall i :: 0 < i < |s| && k > 0 && Parent(i) == k < |s| ==> Due(s[Parent(k)]) <= Due(s[i]))
  }

  lemma UpStep(s: seq<Event>, k: nat)
    requires 0 < k < |s| && UpHole(s, k) && Due(s[k]) < Due(s[Parent(k)])
    ensures UpHole(Swap(s, k, Parent(k)), Parent(k))
  {
    hide Due;
  }

  lemma {:induction false} SiftUpOrdered(s: seq<Event>, k: nat)
    requires k < |s| && UpHole(s, k)
    ensures Ordered(SiftUp(GREATER, s, k))
    decreases k
  {
    if k > 0 && GREATER(s[Parent(k)].endtime, s[k].endtime) {
      UpStep(s, k);
      SiftUpOrdered(Swap(s, k, Parent(k)), Parent(k));
    }
  }

  lemma DownStep(s: seq<Event>, k: nat)
    requires 2 * k + 1 < |s| && DownHole(s, k) && Due(s[MinChild(GREATER, s, k)]) < Due(s[k])
    ensures DownHole(Swap(s, k, MinChild(GREATER, s, k)), MinChild(GREATER, s, k))
  {
  }

  lemma {:induction false} SiftDownOrdered(s: seq<Event>, k: nat)
    requires k < |s| && DownHole(s, k)
    ensures Ordered(SiftDown(GREATER, s, k))
    decreases |s| - k
  {
    if 2 * k + 1 < |s| {
      var c := MinChild(GREATER, s, k);
      if GREATER(s[k].endtime, s[c].endtime) {
        DownStep(s, k);
        SiftDownOrdered(Swap(s, k, c), c);
      }
    }
  }

  lemma PushOrdered(s: seq<Event>, e: Event)
    requires Ordered(s)
    ensures Ordered(Push(GREATER, s, e))
  {
    SiftUpOrdered(s + [e], |s|);
  }

  lemma PopOrdered(s: seq<Event>)
    requires Ordered(s) && s != []
    ensures Ordered(Pop(GREATER, s))
  {
    hide SiftDown;
    var n := |s| - 1;
    if n > 0 {
      SiftDownOrdered(s[..n][0 := s[n]], 0);
    }
  }

  /** The last event in the place of another: only that slot may be out of order. */
  lemma RefillHole(s: seq<Event>, i: nat)
    requires Ordered(s) && i < |s| - 1
    ensures var n := |s| - 1;
            var t := s[..n][i := s[n]];
            if i > 0 && Due(s[n]) < Due(s[Parent(i)]) then UpHole(t, i) else DownHole(t, i)
  {
    hide Due;
  }

  /** On a heap in order the erasing of the last slot cannot slip. */
  lemma EraseOrdered(s: seq<Event>, i: nat)
    requires Ordered(s) && i < |s|
    ensures !Slips(GREATER, s, i)
    ensures Ordered(Erase(GREATER, s, i))
  {
    hide SiftDown, SiftUp, UpHole, DownHole;
    var n := |s| - 1;
    if i < n {
      var t := s[..n][i := s[n]];
      RefillHole(s, i);
      if i > 0 && GREATER(s[Parent(i)].endtime, s[n].endtime) {
        UpStep(t, i);
        SiftUpOrdered(Swap(t, i, Parent(i)), Parent(i));
      } else {
        SiftDownOrdered(t, i);
      }
    }
  }

  /** The first event of a heap in order is due no later than any other. */
  lemma {:induction false} FirstIsLeast(s: seq<Event>, i: nat)
    requires Ordered(s) && i < |s|
    ensures Due(s[0]) <= Due(s[i])
    decreases i
  {
    if i > 0 {
      FirstIsLeast(s, Parent(i));
    }
  }

  /** What pop and erase keep, and what they take out. */
  lemma PopKeeps(g: Comparator, s: seq<Event>)
    requires Distinct(s) && s != []
    ensures s[0] !in Pop(g, s) && multiset(Pop(g, s)) == multiset(s) - multiset{s[0]}
    ensures g == GREATER && Ordered(s) ==> Ordered(Pop(g, s)) && forall e :: e in s ==> Due(s[0]) <= Due(e)
  {
    hide Pop, Ordered, Distinct;
    TakenOut(g, s, 0);
    PopBag(g, s);
    if g == GREATER && Ordered(s) {
      PopOrdered(s);
      forall e | e in s
        ensures Due(s[0]) <= Due(e)
      {
        var i: nat :| i < |s| && s[i] == e;
        FirstIsLeast(s, i);
      }
    }
  }

  lemma EraseKeeps(g: Comparator, s: seq<Event>, i: nat)
    requires Distinct(s) && i < |s|
    ensures !Slips(g, s, i) ==> s[i] !in Erase(g, s, i) && multiset(Erase(g, s, i)) == multiset(s) - multiset{s[i]}
    ensures g == GREATER && Ordered(s) ==> !Slips(g, s, i) && Ordered(Erase(g, s, i))
  {
    hide Erase, Ordered, Distinct, Slips;
    TakenOut(g, s, i);
    EraseBag(g, s, i);
    if g == GREATER && Ordered(s) {
      EraseOrdered(s, i);
    }
  }

  // ---------- runs ----------

  datatype Op = Insert(e: Event) | Remove(slot: nat) | Take

  /** One operation; one that finds nothing to remove changes nothing. */
  function Apply(g: Comparator, s: seq<Event>, op: Op): seq<Event> {
    match op
    case Insert(e) => Push(g, s, e)
    case Remove(slot) => if slot < |s| then Erase(g, s, slot) else s
    case Take => if s != [] then Pop(g, s) else s
  }

  function Run(g: Comparator, s: seq<Event>, ops: seq<Op>): seq<Event>
    decreases |ops|
  {
    if ops == [] then s else Run(g, Apply(g, s, ops[0]), ops[1..])
  }

  /** The events an operation puts in and takes out. */
  function Joined(op: Op): multiset<Event> {
    if op.Insert? then multiset{op.e} else multiset{}
  }

  function Gone(s: seq<Event>, op: Op): multiset<Event> {
    match op
    case Insert(e) => multiset{}
    case Remove(slot) => if slot < |s| then multiset{s[slot]} else multiset{}
    case Take => if s != [] then multiset{s[0]} else multiset{}
  }

  function AllJoined(ops: seq<Op>): multiset<Event> {
    if ops == [] then multiset{} else Joined(ops[0]) + AllJoined(ops[1..])
  }

  function AllGone(g: Comparator, s: seq<Event>, ops: seq<Op>): multiset<Event>
    decreases |ops|
  {
    if ops == [] then multiset{} else Gone(s, ops[0]) + AllGone(g, Apply(g, s, ops[0]), ops[1..])
  }

  lemma ApplyKeeps(s: seq<Event>, op: Op)
    requires Ordered(s)
    ensures Ordered(Apply(GREATER, s, op))
    ensures multiset(Apply(GREATER, s, op)) + Gone(s, op) == multiset(s) + Joined(op)
  {
    hide Push, Pop, Erase, Ordered;
    match op
    case Insert(e) =>
      PushOrdered(s, e);
      PushBag(GREATER, s, e);
    case Remove(slot) =>
      if slot < |s| {
        EraseOrdered(s, slot);
        EraseBag(GREATER, s, slot);
        assert s[slot] in multiset(s);
      }
    case Take =>
      if s != [] {
        PopOrdered(s);
        PopBag(GREATER, s);
        assert s[0] in multiset(s);
      }
  }

  /** Every run keeps the order, and no event is lost or doubled on the way. */
  lemma {:induction false} RunKeeps(s: seq<Event>, ops: seq<Op>)
    requires Ordered(s)
    ensures Ordered(Run(GREATER, s, ops))
    ensures multiset(Run(GREATER, s, ops)) + AllGone(GREATER, s, ops) == multiset(s) + AllJoined(ops)
    decreases |ops|
  {
    hide Apply, Ordered, Joined, Gone;
    if ops != [] {
      ApplyKeeps(s, ops[0]);
      RunKeeps(Apply(GREATER, s, ops[0]), ops[1..]);
      Balance(multiset(Run(GREATER, s, ops)), multiset(Apply(GREATER, s, ops[0])), multiset(s),
              Gone(s, ops[0]), AllGone(GREATER, Apply(GREATER, s, ops[0]), ops[1..]),
              Joined(ops[0]), AllJoined(ops[1..]));
    }
  }

  lemma Balance(end: multiset<Event>, mid: multiset<Event>, start: multiset<Event>,
                gone: multiset<Event>, gone': multiset<Event>, joined: multiset<Event>, joined': multiset<Event>)
    requires end + gone' == mid + joined' && mid + gone == start + joined
    ensures end + (gone + gone') == start + (joined + joined')
  {
    assert end + (gone + gone') == (end + gone') + gone;
    assert (mid + gone) + joined' == mid + joined' + gone;
  }

  /** The events in the order in which pops take them. */
  function Drain(g: Comparator, s: seq<Event>): (r: seq<Event>)
    ensures |r| == |s|
    decreases |s|
  {
    if s == [] then [] else [s[0]] + Drain(g, Pop(g, s))
  }

  predicate Sorted(s: seq<Event>) {
    forall i, j :: 0 <= i < j < |s| ==> Due(s[i]) <= Due(s[j])
  }

  /** Draining takes out every event once, whatever the comparison. */
  lemma {:induction false} DrainBag(g: Comparator, s: seq<Event>)
    ensures multiset(Drain(g, s)) == multiset(s)
    decreases |s|
  {
    hide Pop;
    if s != [] {
      PopBag(g, s);
      DrainBag(g, Pop(g, s));
      assert s[0] in multiset(s);
    }
  }

  /** Draining a heap in order is sorting it. */
  lemma {:induction false} DrainSorts(s: seq<Event>)
    requires Ordered(s)
    ensures Sorted(Drain(GREATER, s))
    decreases |s|
  {
    hide Pop, Ordered;
    if s != [] {
      var rest := Pop(GREATER, s);
      PopOrdered(s);
      DrainSorts(rest);
      var d := Drain(GREATER, rest);
      forall j | 0 <= j < |d|
        ensures Due(s[0]) <= Due(d[j])
      {
        assert d[j] in multiset(d);
        DrainBag(GREATER, rest);
        PopBag(GREATER, s);
        assert d[j] in multiset(s);
        var i: nat :| i < |s| && s[i] == d[j];
        FirstIsLeast(s, i);
      }
    }
  }
}

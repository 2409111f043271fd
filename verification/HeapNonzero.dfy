/** The heap under the comparison as it is written: when push, pop and erase keep the order, and when not. */
module HeapNonzero {
  import opened Times
  import opened HeapOrder

  /** Some slot on the way from k to the root holds an event due at the same time. */
  predicate TiesAbove(s: seq<Event>, k: nat, due: int)
    requires k <= |s|
    decreases k
  {
    k > 0 && (Due(s[Parent(k)]) == due || TiesAbove(s, Parent(k), due))
  }

  lemma {:induction false} TiesKept(s: seq<Event>, t: seq<Event>, k: nat, due: int)
    requires k <= |s| && k <= |t| && forall i :: 0 <= i < k ==> s[i] == t[i]
    ensures TiesAbove(s, k, due) == TiesAbove(t, k, due)
    decreases k
  {
    if k > 0 {
      TiesKept(s, t, Parent(k), due);
    }
  }

  /** Ordered but for slot k, which nothing is known of. */
  predicate Hole(s: seq<Event>, k: nat) {
    && (forall i :: 0 < i < |s| && i != k && Parent(i) != k ==> Due(s[Parent(i)]) <= Due(s[i]))
    && (forall i :: 0 < i < |s| && k > 0 && Parent(i) == k < |s| ==> Due(s[Parent(k)]) <= Due(s[i]))
  }

  lemma HoleStep(s: seq<Event>, k: nat)
    requires 0 < k < |s| && Hole(s, k)
    ensures Hole(Swap(s, k, Parent(k)), Parent(k))
  {
    hide Due;
  }

  /** Compared for difference, an event stops below the first tie, or else goes all the way up. */
  lemma {:induction false} NonzeroUp(s: seq<Event>, k: nat)
    requires k < |s| && Hole(s, k)
    ensures var r := SiftUp(NONZERO, s, k);
            if TiesAbove(s, k, Due(s[k])) then Ordered(r) else r[0] == s[k] && Hole(r, 0)
    decreases k
  {
    if k > 0 && NONZERO(s[Parent(k)].endtime, s[k].endtime) {
      var t := Swap(s, k, Parent(k));
      HoleStep(s, k);
      TiesKept(s, t, Parent(k), Due(s[k]));
      NonzeroUp(t, Parent(k));
    }
  }

  /**
   A push that takes the comparison for difference keeps the order exactly if the event is due no
   later than the first, or at the same time as one above its slot.
   */
  lemma NonzeroPush(s: seq<Event>, e: Event)
    requires Ordered(s)
    ensures Ordered(Push(NONZERO, s, e)) <==>
              s == [] || Due(e) <= Due(s[0]) || TiesAbove(s, |s|, Due(e))
  {
    hide SiftUp, TiesAbove;
    var t, n := s + [e], |s|;
    var r := Push(NONZERO, s, e);
    NonzeroUp(t, n);
    TiesKept(s, t, n, Due(e));
    PushBag(NONZERO, s, e);
    if s != [] && !TiesAbove(s, n, Due(e)) {
      if Ordered(r) {
        assert s[0] in multiset(r);
        var i: nat :| i < |r| && r[i] == s[0];
        FirstIsLeast(r, i);
      } else if Due(e) <= Due(s[0]) {
        forall i | 0 <= i < |r|
          ensures Due(e) <= Due(r[i])
        {
          FromBag(s, e, r, i);
        }
      }
    }
  }

  lemma FromBag(s: seq<Event>, e: Event, r: seq<Event>, i: nat)
    requires Ordered(s) && s != [] && Due(e) <= Due(s[0])
    requires multiset(r) == multiset(s) + multiset{e} && i < |r|
    ensures Due(e) <= Due(r[i])
  {
    hide Due, Ordered;
    assert r[i] in multiset(r);
    if r[i] != e {
      assert r[i] in multiset(s);
      var j: nat :| j < |s| && s[j] == r[i];
      FirstIsLeast(s, j);
    }
  }

  /** Pushed one after the other, the later of two events ends up on top. */
  lemma NonzeroPushFails(a: Event, b: Event)
    requires a.endtime == Time(1, 0) && b.endtime == Time(2, 0)
    ensures Ordered([a]) && Push(NONZERO, [], a) == [a] && Push(NONZERO, [a], b) == [b, a]
    ensures !Ordered([b, a])
  {
  }

  // ---------- sifting down ----------

  /**
   An event due at x that is sifted down from slot k ends in order: the left child is due no later
   than the right one all along the way, and at a leaf what moved up is due no later than x.
   */
  predicate SinksWell(s: seq<Event>, k: nat, above: int, x: int)
    requires k < |s|
    decreases |s| - k
  {
    if 2 * k + 1 >= |s| then above <= x
    else
      var c := MinChild(NONZERO, s, k);
      && (2 * k + 2 < |s| ==> Due(s[2 * k + 1]) <= Due(s[2 * k + 2]))
      && (Due(s[c]) == x || SinksWell(s, c, Due(s[c]), x))
  }

  lemma {:induction false} SinksKept(s: seq<Event>, t: seq<Event>, k: nat, above: int, x: int)
    requires k < |s| == |t| && forall i :: k < i < |s| ==> s[i] == t[i]
    ensures SinksWell(s, k, above, x) == SinksWell(t, k, above, x)
    decreases |s| - k
  {
    if 2 * k + 1 < |s| {
      var c := MinChild(NONZERO, s, k);
      assert c == MinChild(NONZERO, t, k);
      SinksKept(s, t, c, Due(s[c]), x);
    }
  }

  /** Slot i is k, or stands below it. */
  predicate Below(k: nat, i: nat)
    decreases i
  {
    i == k || (i > k && Below(k, Parent(i)))
  }

  lemma {:induction false} SiftDownElsewhere(g: Comparator, s: seq<Event>, k: nat, i: nat)
    requires k < |s| && i < |s| && !Below(k, i)
    ensures SiftDown(g, s, k)[i] == s[i]
    decreases |s| - k
  {
    if 2 * k + 1 < |s| && g(s[k].endtime, s[MinChild(g, s, k)].endtime) {
      var c := MinChild(g, s, k);
      if Below(c, i) {
        BelowChild(k, c, i);
      }
      SiftDownElsewhere(g, Swap(s, k, c), c, i);
    }
  }

  /** What stands below a child stands below its parent. */
  lemma {:induction false} BelowChild(k: nat, c: nat, i: nat)
    requires c > 0 && Parent(c) == k && Below(c, i)
    ensures Below(k, i)
    decreases i
  {
    if i != c {
      BelowChild(k, c, Parent(i));
    }
  }

  lemma SinkStep(s: seq<Event>, k: nat, c: nat)
    requires 2 * k + 1 < |s| && Hole(s, k) && c < |s| && (c == 2 * k + 1 || c == 2 * k + 2)
    requires forall i :: 0 < i < |s| && Parent(i) == k ==> Due(s[c]) <= Due(s[i])
    ensures Hole(Swap(s, k, c), c)
  {
    hide Due;
  }

  /** What the parent of slot k is due at. */
  function Floor(s: seq<Event>, k: nat): int
    requires k < |s|
  {
    if k > 0 then Due(s[Parent(k)]) else Due(s[k])
  }

  /** If the left child is the later one, it ends up above the right one. */
  lemma SinksAstray(s: seq<Event>, k: nat)
    requires 2 * k + 2 < |s| && Due(s[2 * k + 2]) < Due(s[2 * k + 1])
    ensures !Ordered(SiftDown(NONZERO, s, k))
  {
    var left, right := 2 * k + 1, 2 * k + 2;
    var r := SiftDown(NONZERO, s, k);
    assert MinChild(NONZERO, s, k) == left;
    if NONZERO(s[k].endtime, s[left].endtime) {
      var t := Swap(s, k, left);
      assert !Below(left, right) && !Below(left, k);
      SiftDownElsewhere(NONZERO, t, left, right);
      SiftDownElsewhere(NONZERO, t, left, k);
    }
    assert Due(r[Parent(right)]) > Due(r[right]);
  }

  /** Of two children that stand in order the chosen one is due no later than the other. */
  lemma Chosen(s: seq<Event>, k: nat)
    requires 2 * k + 1 < |s| && (2 * k + 2 < |s| ==> Due(s[2 * k + 1]) <= Due(s[2 * k + 2]))
    ensures var c := MinChild(NONZERO, s, k);
            && (forall i :: 0 < i < |s| && Parent(i) == k ==> Due(s[c]) <= Due(s[i]))
            && (NONZERO(s[k].endtime, s[c].endtime) <==> Due(s[k]) != Due(s[c]))
  {
  }

  lemma {:induction false} NonzeroDown(s: seq<Event>, k: nat)
    requires k < |s| && Hole(s, k)
    ensures Ordered(SiftDown(NONZERO, s, k)) <==> SinksWell(s, k, Floor(s, k), Due(s[k]))
    decreases |s| - k
  {
    hide Hole, Ordered, Due, MinChild;
    var left, right := 2 * k + 1, 2 * k + 2;
    if left >= |s| {
      LeafOrdered(s, k);
    } else if right < |s| && Due(s[right]) < Due(s[left]) {
      SinksAstray(s, k);
    } else {
      var c := MinChild(NONZERO, s, k);
      Chosen(s, k);
      if Due(s[c]) == Due(s[k]) {
        TieOrdered(s, k, c);
      } else {
        var t := Swap(s, k, c);
        SinkStep(s, k, c);
        NonzeroDown(t, c);
        SinksKept(s, t, c, Due(s[c]), Due(s[k]));
      }
    }
  }

  lemma LeafOrdered(s: seq<Event>, k: nat)
    requires k < |s| <= 2 * k + 1 && Hole(s, k)
    ensures Ordered(s) <==> Floor(s, k) <= Due(s[k])
  {
    hide Due;
  }

  lemma TieOrdered(s: seq<Event>, k: nat, c: nat)
    requires c < |s| && (c == 2 * k + 1 || c == 2 * k + 2) && Hole(s, k) && Due(s[c]) == Due(s[k])
    requires forall i :: 0 < i < |s| && Parent(i) == k ==> Due(s[c]) <= Due(s[i])
    ensures Ordered(s)
  {
    hide Due;
  }

  // ---------- pop ----------

  /** A pop that takes the comparison for difference keeps the order exactly if the last event sinks well from the top. */
  lemma NonzeroPop(s: seq<Event>)
    requires Ordered(s) && s != []
    ensures var n := |s| - 1;
            Ordered(Pop(NONZERO, s)) <==> n == 0 || SinksWell(s[..n], 0, Due(s[n]), Due(s[n]))
  {
    hide SiftDown, SinksWell;
    var n := |s| - 1;
    if n > 0 {
      var t := s[..n][0 := s[n]];
      NonzeroDown(t, 0);
      SinksKept(s[..n], t, 0, Due(s[n]), Due(s[n]));
    }
  }

  // ---------- erase ----------

  /** In an inner slot: the last event goes up to a tie, or where it need not go up sinks well. */
  predicate ErasesWell(s: seq<Event>, i: nat)
    requires i < |s| - 1
  {
    var n := |s| - 1;
    var x := Due(s[n]);
    if i > 0 && Due(s[Parent(i)]) != x then TiesAbove(s, i, x) else SinksWell(s[..n], i, x, x)
  }

  lemma NonzeroErase(s: seq<Event>, i: nat)
    requires Ordered(s) && i < |s| - 1
    ensures Ordered(Erase(NONZERO, s, i)) <==> ErasesWell(s, i)
  {
    hide SiftDown, SiftUp, SinksWell, TiesAbove;
    var n := |s| - 1;
    var t := s[..n][i := s[n]];
    if i > 0 && Due(s[Parent(i)]) != Due(s[n]) {
      UpStarts(t, i);
      NonzeroUp(t, i);
      TiesKept(s, t, i, Due(s[n]));
      if !TiesAbove(s, i, Due(s[n])) {
        NoTieUp(s, i);
      }
    } else {
      NonzeroDown(t, i);
      SinksKept(s[..n], t, i, Due(s[n]), Due(s[n]));
    }
  }

  /** Where the parent differs, the unconditional sift is the ordinary one. */
  lemma UpStarts(t: seq<Event>, k: nat)
    requires 0 < k < |t| && Due(t[Parent(k)]) != Due(t[k])
    ensures SiftUpUnconditional(NONZERO, t, k) == SiftUp(NONZERO, t, k)
  {
  }

  /** Without a tie the last event comes to the top, where it is too late. */
  lemma NoTieUp(s: seq<Event>, i: nat)
    requires Ordered(s) && 0 < i < |s| - 1 && !TiesAbove(s, i, Due(s[|s| - 1]))
    ensures !Ordered(SiftUp(NONZERO, s[..|s| - 1][i := s[|s| - 1]], i))
  {
    hide SiftUp, TiesAbove;
    var n := |s| - 1;
    var t := s[..n][i := s[n]];
    var r := SiftUp(NONZERO, t, i);
    NonzeroUp(t, i);
    TiesKept(s, t, i, Due(s[n]));
    FirstIsLeast(s, n);
    NoTieFirst(s, i, Due(s[n]));
    SiftUpBag(NONZERO, t, i);
    assert t[0] == s[0] && t[0] in multiset(r);
    var j: nat :| j < |r| && r[j] == s[0];
    if Ordered(r) {
      FirstIsLeast(r, j);
    }
  }

  lemma {:induction false} NoTieFirst(s: seq<Event>, k: nat, due: int)
    requires 0 < k <= |s| && !TiesAbove(s, k, due)
    ensures Due(s[0]) != due
    decreases k
  {
    if Parent(k) > 0 {
      NoTieFirst(s, Parent(k), due);
    }
  }

  /** In the last slot: no slip, or a tie, or so few events that it does not show. */
  lemma NonzeroEraseLast(s: seq<Event>)
    requires Ordered(s) && s != []
    ensures var n := |s| - 1;
            Ordered(Erase(NONZERO, s, n)) <==>
              !Slips(NONZERO, s, n) || TiesAbove(s, n, Due(s[n])) || n == 1 || (n == 2 && Due(s[2]) <= Due(s[1]))
  {
    hide SiftUp, TiesAbove;
    var n := |s| - 1;
    if Slips(NONZERO, s, n) {
      UpStarts(s, n);
      NonzeroUp(s, n);
      if !TiesAbove(s, n, Due(s[n])) {
        SlippedUp(s);
      }
    }
  }

  lemma StillThere(s: seq<Event>, i: nat, j: nat)
    requires i < j < |s|
    ensures s[i] in multiset(s) - multiset{s[j]}
  {
    assert s == s[..j] + [s[j]] + s[j + 1..];
    assert s[i] in multiset(s[..j]);
  }

  lemma SlippedUp(s: seq<Event>)
    requires Ordered(s) && |s| > 1 && !TiesAbove(s, |s| - 1, Due(s[|s| - 1]))
    ensures var n := |s| - 1;
            Ordered(SiftUp(NONZERO, s, n)[..n]) <==> n == 1 || (n == 2 && Due(s[2]) <= Due(s[1]))
  {
    hide TiesAbove, SiftUp;
    NoTieFirst(s, |s| - 1, Due(s[|s| - 1]));
    if |s| == 3 {
      OneStep(s);
      OrderedPair(s[2], s[1]);
    } else if |s| > 3 {
      SlippedFar(s);
    }
  }

  /** In a larger heap the first event is left behind somewhere below the last. */
  lemma SlippedFar(s: seq<Event>)
    requires Ordered(s) && |s| > 3 && !TiesAbove(s, |s| - 1, Due(s[|s| - 1]))
    ensures !Ordered(SiftUp(NONZERO, s, |s| - 1)[..|s| - 1])
  {
    hide TiesAbove, SiftUp, Hole, Swap;
    var n := |s| - 1;
    var r := SiftUp(NONZERO, s, n);
    NonzeroUp(s, n);
    NoTieFirst(s, n, Due(s[n]));
    NoTieParent(s, n, Due(s[n]));
    UpStarts(s, n);
    EraseBag(NONZERO, s, n);
    StillThere(s, 0, Parent(n));
    assert s[0] in multiset(r[..n]);
    var j: nat :| j < n && r[..n][j] == s[0];
    FirstIsLeast(s, n);
    if Ordered(r[..n]) {
      FirstIsLeast(r[..n], j);
    }
  }

  lemma NoTieParent(s: seq<Event>, k: nat, due: int)
    requires 0 < k <= |s| && !TiesAbove(s, k, due)
    ensures Due(s[Parent(k)]) != due
  {
  }

  lemma OrderedPair(a: Event, b: Event)
    ensures Ordered([a, b]) <==> Due(a) <= Due(b)
  {
    assert [a, b][Parent(1)] == a && [a, b][1] == b;
  }

  /** The last of three events changes places with the first. */
  lemma OneStep(s: seq<Event>)
    requires |s| == 3 && Due(s[0]) != Due(s[2])
    ensures SiftUp(NONZERO, s, 2)[..2] == [s[2], s[1]]
  {
  }

  // ---------- heaps that lose their order, or the wrong event ----------

  /** Due at 1, 3 and 2 seconds: after a pop, or the erasing of slot 1, the later of the two left is on top. */
  lemma NonzeroPopFails(a: Event, b: Event, c: Event)
    requires a.endtime == Time(1, 0) && b.endtime == Time(3, 0) && c.endtime == Time(2, 0)
    ensures Ordered([a, b, c])
    ensures Pop(NONZERO, [a, b, c]) == [b, c] && !Ordered([b, c])
    ensures Erase(NONZERO, [a, b, c], 1) == [c, a] && !Ordered([c, a])
  {
    var s := [a, b, c];
    assert s[..2][0 := c] == [c, b] && Swap([c, b], 0, 1) == [b, c];
    assert MinChild(NONZERO, [c, b], 0) == 1;
    DownEnd(NONZERO, [b, c], 1);
    DownOn(NONZERO, [c, b], 0);
    assert s[..2][1 := c] == [a, c] && Swap([a, c], 1, 0) == [c, a];
    assert Due([b, c][Parent(1)]) > Due([b, c][1]);
    assert Due([c, a][Parent(1)]) > Due([c, a][1]);
  }

  /** Due at 1 and 2 seconds: erasing the second event leaves it in the heap and takes out the first. */
  lemma NonzeroEraseSlips(a: Event, b: Event)
    requires a.endtime == Time(1, 0) && b.endtime == Time(2, 0)
    ensures Ordered([a, b]) && Slips(NONZERO, [a, b], 1) && Erase(NONZERO, [a, b], 1) == [b]
  {
    assert Swap([a, b], 1, 0) == [b, a] && [b, a][..1] == [b];
  }
}

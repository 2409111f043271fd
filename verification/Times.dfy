/** Instants and timeouts (event_lea.c:410-457). */
module Times {

  const GIGA := 1_000_000_000

  /** struct timespec. */
  datatype Time = Time(sec: int, nsec: int)

  /** The nanoseconds an instant stands for. */
  function Instant(t: Time): int { t.sec * GIGA + t.nsec }

  /** lt_time_a_sub_b */
  function Difference(a: Time, b: Time): int { a.sec * GIGA + a.nsec - b.sec * GIGA - b.nsec }

  /** The instant `to` nanoseconds later: a sum of exactly 10^9 is not carried over. */
  function Later(time: Time, to: int): Time {
    var nsec := to + time.nsec;
    if nsec <= GIGA then Time(time.sec, nsec)
    else Time(time.sec + (nsec - 1) / GIGA, (nsec - 1) % GIGA + 1)
  }

  /** lt_time_addition */
  method Addition(time: Time, to: int) returns (r: Time)
    ensures r == Later(time, to)
  {
    var nsec, sec := to + time.nsec, time.sec;
    while nsec > GIGA
      invariant Later(time, to) == Later(Time(sec, nsec), 0)
    {
      nsec := nsec - GIGA;
      sec := sec + 1;
    }
    r := Time(sec, nsec);
  }

  /** Subtracting the start gives the timeout back, for any instant and any timeout. */
  lemma AddThenSubtract(time: Time, to: int)
    ensures Difference(Later(time, to), time) == to
    ensures Later(time, to).nsec <= GIGA
    ensures 0 <= to + time.nsec ==> 0 <= Later(time, to).nsec
    ensures GIGA < to + time.nsec ==> 0 < Later(time, to).nsec
  {
    var n := to + time.nsec - 1;
    assert n == n / GIGA * GIGA + n % GIGA;
  }

  /** Two timeouts one after the other are one timeout. */
  lemma AddTwice(time: Time, a: int, b: nat)
    ensures Later(Later(time, a), b) == Later(time, a + b)
  {
    var n := a + time.nsec - 1;
    if n >= GIGA {
      var q, m := n / GIGA, n % GIGA + b;
      assert n + b == q * GIGA + m;
      assert (n + b) / GIGA == q + m / GIGA && (n + b) % GIGA == m % GIGA by {
        assert m == m / GIGA * GIGA + m % GIGA;
        DivisionUnique(n + b, q + m / GIGA, m % GIGA);
      }
    }
  }

  lemma DivisionUnique(x: int, q: int, r: int)
    requires x == q * GIGA + r && 0 <= r < GIGA
    ensures x / GIGA == q && x % GIGA == r
  {
  }

  /** lt_ev_check_timeout: 1 while the end has not passed. */
  function CheckTimeout(endtime: Time, now: Time): int {
    var secDiff := endtime.sec - now.sec;
    var nsecDiff := endtime.nsec - now.nsec;
    if secDiff > 0 then 1
    else if secDiff == 0 then if nsecDiff >= 0 then 1 else 0
    else 0
  }

  /** The clock reports normalised instants. */
  predicate Normal(t: Time) { 0 <= t.nsec < GIGA }

  /**
   The check made at `now` of a timeout set at `start`: 1 as long as no more than `to` has gone by,
   save for the one instant where exactly `to` has and the sum stopped at 10^9 nanoseconds.
   */
  lemma TimeoutMeans(start: Time, to: nat, now: Time)
    requires Normal(start) && Normal(now)
    ensures var gone := Difference(now, start);
            CheckTimeout(Later(start, to), now) == 1 <==>
              gone < to || (gone == to && !(0 < start.nsec + to && (start.nsec + to) % GIGA == 0))
  {
    AddThenSubtract(start, to);
    var end := Later(start, to);
    var n := start.nsec + to;
    assert Difference(end, now) == to - Difference(now, start);
    StopsAtGiga(start, to);
    if end.sec == now.sec {
    } else if end.sec > now.sec {
      assert end.sec * GIGA >= now.sec * GIGA + GIGA;
    } else {
      assert end.sec * GIGA + GIGA <= now.sec * GIGA;
    }
  }

  lemma StopsAtGiga(start: Time, to: nat)
    requires Normal(start)
    ensures Later(start, to).nsec == GIGA <==> 0 < start.nsec + to && (start.nsec + to) % GIGA == 0
  {
    var n := start.nsec + to - 1;
    if n >= GIGA {
      assert n == n / GIGA * GIGA + n % GIGA;
      if n % GIGA == GIGA - 1 {
        DivisionUnique(n + 1, n / GIGA + 1, 0);
      } else {
        DivisionUnique(n + 1, n / GIGA, n % GIGA + 1);
      }
    }
  }

  /** The instant that is missed: one second after the epoch is where this timeout ends. */
  lemma MissedInstant()
    ensures Difference(Later(Time(0, 999_999_999), 1), Time(1, 0)) == 0
    ensures CheckTimeout(Later(Time(0, 999_999_999), 1), Time(1, 0)) == 0
  {
  }
}

/** The countdown card to the festival's opening, 2026-01-31 00:00 local time:
    the time left split into days, hours, minutes and seconds. */
module EventCountdown {
  import Arith

  datatype TimeLeft = TimeLeft(days: int, hours: int, minutes: int, seconds: int)

  /** JavaScript's `x % m` for a non-negative number and a positive modulus:
      what is left after taking away whole multiples of `m`. */
  function JsRealRem(x: real, m: real): real
    requires x >= 0.0 && m > 0.0
  {
    x - m * ((x / m).Floor as real)
  }

  /** Dividing twice is dividing by the product. */
  lemma DivDiv(a: int, b: int, c: int)
    requires a >= 0 && b > 0 && c > 0
    ensures a / b / c == a / (b * c)
  {
    var q1, r1 := a / b, a % b;
    var q2, r2 := q1 / c, q1 % c;
    assert a == b * c * q2 + (b * r2 + r1);
    assert 0 <= b * r2 + r1 < b * c by {
      Arith.MulMonotone(b, r2, c - 1);
    }
    Arith.DivModUnique(a, b * c, q2, b * r2 + r1);
  }

  /** `Math.floor((a / n) % m)` computed on exact numbers is the remainder of
      the whole quotient. */
  lemma FloorOfRem(a: int, n: int, m: int)
    requires a >= 0 && n > 0 && m > 0
    ensures JsRealRem((a as real) / (n as real), m as real).Floor == (a / n) % m
  {
    var x := (a as real) / (n as real);
    assert x / (m as real) == (a as real) / ((n * m) as real);
    Arith.FloorOfQuotient(a, n * m);
    DivDiv(a, n, m);
    var k := a / n / m;
    var j := m * k;
    assert JsRealRem(x, m as real) == x - j as real;
    Arith.FloorOfQuotient(a, n);
    assert (x - j as real).Floor == x.Floor - j;
  }

  /** `calculateTimeLeft` for `difference` milliseconds to go: nothing once the
      moment has passed; otherwise whole days, then the hours, minutes and
      seconds within them, which together make up the whole seconds left. */
  function CalculateTimeLeft(difference: int): (t: TimeLeft)
    ensures difference <= 0 ==> t == TimeLeft(0, 0, 0, 0)
    ensures difference > 0 ==> t.days == difference / 86400000
    ensures 0 <= t.hours < 24 && 0 <= t.minutes < 60 && 0 <= t.seconds < 60
    ensures difference > 0 ==>
              t.days * 86400 + t.hours * 3600 + t.minutes * 60 + t.seconds == difference / 1000
  {
    if difference > 0 then
      var d := difference as real;
      Arith.FloorOfQuotient(difference, 86400000);
      FloorOfRem(difference, 3600000, 24);
      assert d / 1000.0 / 60.0 == d / 60000.0;
      FloorOfRem(difference, 60000, 60);
      FloorOfRem(difference, 1000, 60);
      Decomposition(difference);
      TimeLeft(
        (d / 86400000.0).Floor,
        JsRealRem(d / 3600000.0, 24.0).Floor,
        JsRealRem(d / 1000.0 / 60.0, 60.0).Floor,
        JsRealRem(d / 1000.0, 60.0).Floor)
    else
      TimeLeft(0, 0, 0, 0)
  }

  /** Whole seconds split into days, hours within the day, minutes within the
      hour and seconds within the minute. */
  lemma Decomposition(difference: int)
    requires difference >= 0
    ensures (difference / 86400000) * 86400 + ((difference / 3600000) % 24) * 3600
            + ((difference / 60000) % 60) * 60 + (difference / 1000) % 60 == difference / 1000
  {
    var s := difference / 1000;
    DivDiv(difference, 1000, 60);
    DivDiv(difference, 1000, 3600);
    DivDiv(difference, 1000, 86400);
    DivDiv(s, 60, 60);
    DivDiv(s, 3600, 24);
  }
}

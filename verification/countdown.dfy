/** The landing page's countdown (components/countdown-timer.tsx): a positive
    number of milliseconds until the target split into days, hours, minutes and
    seconds, recomputed on every tick and shown zero-padded to two digits.
    The clock is a parameter: `now` and `target` are milliseconds since the
    epoch, as `getTime()` returns them. */
module Countdown {
  import Strings

  const MsPerSecond := 1000
  const MsPerMinute := 1000 * 60
  const MsPerHour := 1000 * 60 * 60
  const MsPerDay := 1000 * 60 * 60 * 24

  /** The `timeLeft` state. */
  datatype TimeLeft = TimeLeft(days: int, hours: int, minutes: int, seconds: int)

  /** The state before the first tick. */
  const Initial := TimeLeft(0, 0, 0, 0)

  /** Every part is non-negative and each part below days is below its unit's size. */
  predicate InRange(t: TimeLeft) {
    0 <= t.days && 0 <= t.hours < 24 && 0 <= t.minutes < 60 && 0 <= t.seconds < 60
  }

  /** The milliseconds a state stands for. */
  function Millis(t: TimeLeft): int {
    t.days * MsPerDay + t.hours * MsPerHour + t.minutes * MsPerMinute + t.seconds * MsPerSecond
  }

  /** The four `Math.floor` expressions of `calculateTimeLeft`. The parts are in
      range and stand for the difference rounded down to a whole second. */
  function Decompose(difference: int): (t: TimeLeft)
    requires 0 < difference
    ensures InRange(t)
    ensures Millis(t) <= difference < Millis(t) + MsPerSecond
  {
    var t := TimeLeft(difference / MsPerDay,
                      (difference % MsPerDay) / MsPerHour,
                      (difference % MsPerHour) / MsPerMinute,
                      (difference % MsPerMinute) / MsPerSecond);
    DecomposeBounds(difference);
    t
  }

  /** Quotient and remainder are determined by any exact split. */
  lemma DivModUnique(n: int, q: int, r: int, m: int)
    requires 0 < m && 0 <= r < m && n == q * m + r
    ensures n / m == q && n % m == r
  {
    var k := q - n / m;
    assert k * m == n % m - r;
  }

  /** Reducing modulo a multiple of `a` first does not change the remainder by `a`. */
  lemma ModOfMultiple(n: int, a: int, b: int)
    requires 0 < a && 0 < b
    ensures n % (a * b) % a == n % a
  {
    var q := n / (a * b);
    var r := n % (a * b);
    assert n == (q * b) * a + r;
    DivModUnique(r, r / a, r % a, a);
    DivModUnique(n, q * b + r / a, r % a, a);
  }

  /** The arithmetic behind `Decompose`'s contract, one unit at a time. */
  lemma DecomposeBounds(d: int)
    requires 0 < d
    ensures var t := TimeLeft(d / MsPerDay, (d % MsPerDay) / MsPerHour,
                              (d % MsPerHour) / MsPerMinute, (d % MsPerMinute) / MsPerSecond);
            InRange(t) && Millis(t) <= d < Millis(t) + MsPerSecond
  {
    var days, rd := d / MsPerDay, d % MsPerDay;
    var hours, rh := rd / MsPerHour, rd % MsPerHour;
    ModOfMultiple(d, MsPerHour, 24);
    var minutes, rm := rh / MsPerMinute, rh % MsPerMinute;
    ModOfMultiple(d, MsPerMinute, 60);
    ModOfMultiple(d, MsPerMinute, 60 * 24);
    var seconds, rs := rm / MsPerSecond, rm % MsPerSecond;
    assert d % MsPerHour == rh && d % MsPerMinute == rm;
    assert d == days * MsPerDay + hours * MsPerHour + minutes * MsPerMinute + seconds * MsPerSecond + rs;
  }

  /** The decomposition is the only one: any in-range state together with
      less than a second of remainder decomposes back to itself. */
  lemma DecomposeMillis(t: TimeLeft, ms: int)
    requires InRange(t) && 0 <= ms < MsPerSecond && 0 < Millis(t) + ms
    ensures Decompose(Millis(t) + ms) == t
  {
    var d := Millis(t) + ms;
    var rm := t.seconds * MsPerSecond + ms;
    var rh := t.minutes * MsPerMinute + rm;
    var rd := t.hours * MsPerHour + rh;
    DivModUnique(d, t.days, rd, MsPerDay);
    DivModUnique(rd, t.hours, rh, MsPerHour);
    DivModUnique(d, t.days * 24 + t.hours, rh, MsPerHour);
    DivModUnique(rh, t.minutes, rm, MsPerMinute);
    DivModUnique(d, (t.days * 24 + t.hours) * 60 + t.minutes, rm, MsPerMinute);
    DivModUnique(rm, t.seconds, ms, MsPerSecond);
  }

  /** Exactly one day before the target the countdown reads 1 day, 0:00:00. */
  lemma OneDayBefore()
    ensures Decompose(MsPerDay) == TimeLeft(1, 0, 0, 0)
  {
    DecomposeMillis(TimeLeft(1, 0, 0, 0), 0);
  }

  /** One tick of the timer: a positive difference replaces the state with its
      decomposition; once the target is reached the previous state stays. */
  function Tick(previous: TimeLeft, target: int, now: int): (r: TimeLeft)
    ensures target - now <= 0 ==> r == previous
    ensures 0 < target - now ==> InRange(r) && Millis(r) <= target - now < Millis(r) + MsPerSecond
  {
    var difference := target - now;
    if 0 < difference then Decompose(difference) else previous
  }

  /** The state after ticks at the instants `nows`, in order. */
  function Ticks(start: TimeLeft, target: int, nows: seq<int>): TimeLeft
    decreases |nows|
  {
    if nows == [] then start else Ticks(Tick(start, target, nows[0]), target, nows[1..])
  }

  /** From the initial state, whatever the clock says, the countdown never
      shows a negative or out-of-range part. */
  lemma {:induction false} TicksStayInRange(start: TimeLeft, target: int, nows: seq<int>)
    requires InRange(start)
    ensures InRange(Ticks(start, target, nows))
    decreases |nows|
  {
    if nows != [] {
      TicksStayInRange(Tick(start, target, nows[0]), target, nows[1..]);
    }
  }

  /** Once the target has passed, further ticks freeze the display: there is
      no distinct "started" state, the last value computed simply stays. */
  lemma {:induction false} FrozenAfterTarget(start: TimeLeft, target: int, nows: seq<int>)
    requires forall k :: 0 <= k < |nows| ==> target <= nows[k]
    ensures Ticks(start, target, nows) == start
    decreases |nows|
  {
    if nows != [] {
      FrozenAfterTarget(start, target, nows[1..]);
    }
  }

  lemma InitialInRange()
    ensures InRange(Initial) && Millis(Initial) == 0
  {
  }

  // ---------------------------------------------------------------------------
  // Display
  // ---------------------------------------------------------------------------

  /** `value.toString().padStart(2, "0")`. The parts of an in-range state
      are never negative (`TicksStayInRange`), so the value is a `nat`. */
  function Display(value: nat): string {
    Strings.PadStart(Strings.NatToString(value), 2, '0')
  }

  /** A non-negative value is shown as its decimal numeral padded with '0' to
      two characters; a longer numeral is shown whole, so values below 100 take
      exactly two characters. Either way the text reads back as the value. */
  lemma DisplayReadsBack(value: nat)
    ensures var shown := Display(value);
            var digits := Strings.NatToString(value);
            |shown| == (if |digits| < 2 then 2 else |digits|) &&
            shown[|shown| - |digits|..] == digits &&
            (value < 10 ==> shown[0] == '0') &&
            (value < 100 ==> |shown| == 2) &&
            Strings.AllDigits(shown) && Strings.ParseDigits(shown) == value
  {
    var shown := Display(value);
    var digits := Strings.NatToString(value);
    Strings.ParseNatToString(value);
    if value < 10 {
      assert shown == ['0'] + digits;
      assert shown[..1] == ['0'];
    } else if value < 100 {
      assert |Strings.NatToString(value / 10)| == 1;
    }
  }
}

/** `struct timeval` and `duration`, with C's division, which truncates towards zero. */
module Clock {
  const IDLE_LIMIT := 10
  const MILLION := 1_000_000

  datatype TimeVal = TimeVal(sec: int, usec: int)

  function Micros(t: TimeVal): int {
    MILLION * t.sec + t.usec
  }

  /** C's `/` and `%` for a positive divisor. */
  function TruncDiv(a: int, b: int): int
    requires b > 0
  {
    if a >= 0 then a / b else -(-a / b)
  }

  function TruncMod(a: int, b: int): int
    requires b > 0
  {
    a - b * TruncDiv(a, b)
  }

  /** The difference of two times, exact in every case; it fails exactly when `stop` is before `start`. */
  method Duration(start: TimeVal, stop: TimeVal) returns (rc: int, delta: TimeVal)
    ensures 1_000_000 * (start.sec + delta.sec) + start.usec + delta.usec == 1_000_000 * stop.sec + stop.usec
    ensures rc == if 1_000_000 * stop.sec + stop.usec < 1_000_000 * start.sec + start.usec then -1 else 0
    ensures rc == 0 ==> 0 <= delta.sec && 0 <= delta.usec < 1_000_000
    ensures rc == -1 ==> delta.sec <= 0 && -1_000_000 < delta.usec <= 0
    ensures rc == -1 || delta.sec >= 10 <==> !Recent(start, stop)
  {
    var microdelta := Micros(stop) - Micros(start);
    delta := TimeVal(TruncDiv(microdelta, MILLION), TruncMod(microdelta, MILLION));
    rc := if delta.sec < 0 || delta.usec < 0 then -1 else 0;
  }

  /** Not before `last`, and less than ten seconds, to the microsecond, after it. */
  predicate Recent(last: TimeVal, now: TimeVal) {
    0 <= Micros(now) - Micros(last) < IDLE_LIMIT * MILLION
  }

  /** With normalised times the seconds differ by at most ten, and at ten the microseconds decide; the
      microseconds carry into the seconds. */
  lemma RecentMeans(last: TimeVal, now: TimeVal)
    requires 0 <= last.usec < 1_000_000 && 0 <= now.usec < 1_000_000
    ensures Recent(last, now) <==>
            && (last.sec < now.sec || (last.sec == now.sec && last.usec <= now.usec))
            && (now.sec < last.sec + 10 || (now.sec == last.sec + 10 && now.usec < last.usec))
  {
  }
}

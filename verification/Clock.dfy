/** Wall-clock readings and the deadline arithmetic of the timer thread.

    Readings are POSIX `timespec` values.  A normalised reading has its nanoseconds below one
    second.  `Wrap64` is the truncation every sum of `uint64_t` milliseconds goes through. */
module Clock {

  const MS_PER_SEC := 1000
  const NS_PER_MS := 1_000_000
  const NS_PER_SEC := 1_000_000_000
  const TWO_POW_64 := 0x1_0000_0000_0000_0000

  datatype Timespec = Timespec(sec: nat, nsec: nat)

  predicate Normalised(t: Timespec) {
    t.nsec < NS_PER_SEC
  }

  function TotalNs(t: Timespec): nat {
    t.sec * NS_PER_SEC + t.nsec
  }

  /** The millisecond reading `now_ms` takes: the floor of the clock. */
  function Millis(t: Timespec): nat {
    t.sec * MS_PER_SEC + t.nsec / NS_PER_MS
  }

  /** The units, spelled out: the reading in milliseconds is the floor of the nanoseconds. */
  lemma MillisFloors(t: Timespec)
    requires Normalised(t)
    ensures t.nsec < 1_000_000_000
    ensures Millis(t) * 1_000_000 <= t.sec * 1_000_000_000 + t.nsec < (Millis(t) + 1) * 1_000_000
  {
  }

  function Wrap64(n: nat): (r: nat)
    ensures r < TWO_POW_64
  {
    n % TWO_POW_64
  }

  /** A normalised reading whose milliseconds fit the 64 bits of `now_ms`. */
  predicate IsReading(t: Timespec) {
    Normalised(t) && Millis(t) < TWO_POW_64
  }

  /** What a sum of two 64-bit numbers becomes: itself if it fits, and 2^64 less if it does not. */
  lemma WrapsOnce(n: nat)
    requires n < 2 * 0x1_0000_0000_0000_0000
    ensures Wrap64(n) == if n < 0x1_0000_0000_0000_0000 then n else n - 0x1_0000_0000_0000_0000
  {
  }

  /** An overflowing sum wraps to a time before the reading it started from. */
  lemma WrapsBelow(reading: nat, delay: nat)
    requires reading < TWO_POW_64 && delay < TWO_POW_64 <= reading + delay
    ensures Wrap64(reading + delay) < reading
  {
    assert Wrap64(reading + delay) == reading + delay - TWO_POW_64;
  }

  /** The absolute deadline of a timed wait.  A single carry is enough to normalise it, and
      nothing is lost or gained: the deadline is exactly `waitMs` after the reading. */
  function Deadline(reading: Timespec, waitMs: nat): (d: Timespec)
    requires Normalised(reading)
    ensures Normalised(d)
    ensures TotalNs(d) == TotalNs(reading) + waitMs * NS_PER_MS
    ensures d.sec * 1_000_000_000 + d.nsec == reading.sec * 1_000_000_000 + reading.nsec + waitMs * 1_000_000
  {
    var sec := reading.sec + waitMs / MS_PER_SEC;
    var nsec := reading.nsec + waitMs % MS_PER_SEC * NS_PER_MS;
    if nsec >= NS_PER_SEC then Timespec(sec + 1, nsec - NS_PER_SEC) else Timespec(sec, nsec)
  }

  /** Flooring commutes with the shift: the deadline, read in milliseconds, is the reading in
      milliseconds plus the wait. */
  lemma DeadlineMillis(reading: Timespec, waitMs: nat)
    requires Normalised(reading)
    ensures Millis(Deadline(reading, waitMs)) == Millis(reading) + waitMs
  {
  }

  /** The thread measures the wait against one reading and adds it to a second one.  Every clock
      at or past the deadline makes the timer due if and only if the millisecond clock did not
      step back between the two readings. */
  lemma ExpiryMakesDue(first: Timespec, second: Timespec, due: nat)
    requires Normalised(first) && Normalised(second)
    requires Millis(first) < due
    ensures Millis(first) <= Millis(second) <==>
            forall later: Timespec ::
              Normalised(later) && TotalNs(Deadline(second, due - Millis(first))) <= TotalNs(later)
              ==> due <= Millis(later)
  {
  }
}

/**
 The delay that watches a free-running 32-bit cycle counter.
 */
module CycleDelay {

  const UINT32_MAX: nat := 0xFFFF_FFFF
  const WORD: nat := UINT32_MAX + 1

  // The counter register t cycles into the run.
  function Counter(t: nat): nat {
    t % WORD
  }

  // Microseconds to cycles, in 64-bit arithmetic that cannot overflow.
  function UsecToCount(us: nat, clockHz: nat): nat {
    us * clockHz / 1_000_000
  }

  // No 64-bit overflow for 32-bit arguments.
  lemma UsecToCountFits(us: nat, clockHz: nat)
    requires us <= UINT32_MAX && clockHz <= UINT32_MAX
    ensures us * clockHz <= 0xFFFF_FFFF_FFFF_FFFF
  {
    MulMonotone(us, UINT32_MAX, clockHz);
    MulMonotone(clockHz, UINT32_MAX, UINT32_MAX);
  }

  lemma MulMonotone(a: nat, b: nat, c: nat)
    requires a <= b
    ensures a * c <= b * c && c * a <= c * b
  {
    assert b * c == a * c + (b - a) * c;
  }

  // The count the code compares against, and whether it must see an overflow first.
  function Overflows(start: nat, count: nat): bool {
    Counter(start) + count > UINT32_MAX
  }

  function Target(start: nat, count: nat): nat {
    var sum := Counter(start) + count;
    if sum > UINT32_MAX then sum - UINT32_MAX else sum
  }

  // The exit conditions of the two loops.
  predicate Overflowed(start: nat, count: nat, t: nat) {
    Target(start, count) >= Counter(t)
  }

  predicate Reached(start: nat, count: nat, t: nat) {
    Target(start, count) <= Counter(t)
  }

  // Before the counter has wrapped, a sample taken after the start is above the
  // target, so the first loop cannot end.
  lemma NoEarlyOverflow(start: nat, count: nat, t: nat)
    requires 0 < count <= UINT32_MAX && Overflows(start, count)
    requires start <= t && Counter(start) + (t - start) < WORD
    requires t > start || count < UINT32_MAX
    ensures !Overflowed(start, count, t)
  {
    SameLap(start, t);
  }

  lemma SameLap(start: nat, t: nat)
    requires start <= t && Counter(start) + (t - start) < WORD
    ensures Counter(t) == Counter(start) + (t - start)
  {
    var lap := start - Counter(start);
    assert t == lap + (Counter(start) + (t - start));
  }

  lemma NextLap(start: nat, t: nat)
    requires start <= t && WORD <= Counter(start) + (t - start) < 2 * WORD
    ensures Counter(t) == Counter(start) + (t - start) - WORD
  {
  }

  // After the first loop, a sample that meets the target is late enough.
  lemma WrappedEnough(start: nat, count: nat, t1: nat, t2: nat)
    requires 0 < count <= UINT32_MAX && Overflows(start, count)
    requires start <= t1 <= t2 && WORD <= Counter(start) + (t1 - start)
    requires Reached(start, count, t2)
    ensures t2 - start > count
  {
    if t2 - start <= count {
      assert Counter(start) + (t2 - start) < 2 * WORD;
      NextLap(start, t2);
    }
  }

  // Without overflow a sample that meets the target is late enough.
  lemma PlainEnough(start: nat, count: nat, t: nat)
    requires 0 < count <= UINT32_MAX && !Overflows(start, count)
    requires start <= t && Reached(start, count, t)
    ensures t - start >= count
  {
    if t - start < count {
      SameLap(start, t);
    }
  }

  // The delay is long enough for every start value, every count and every pair of
  // exit samples, given that the clock has advanced when the first loop samples it;
  // without that it still is, for every count but the largest.
  lemma DelayLongEnough(start: nat, count: nat, t1: nat, t2: nat)
    requires 0 < count <= UINT32_MAX && start <= t1 <= t2
    requires start < t1 || count < UINT32_MAX
    requires Overflows(start, count) ==> Overflowed(start, count, t1)
    requires Reached(start, count, t2)
    ensures t2 - start >= count
  {
    if Overflows(start, count) {
      if Counter(start) + (t1 - start) < WORD {
        NoEarlyOverflow(start, count, t1);
      } else {
        WrappedEnough(start, count, t1, t2);
      }
    } else {
      PlainEnough(start, count, t2);
    }
  }

  // With the largest count and no time passing, both loops end at once.
  lemma StuckClockDefeatsLargestCount(start: nat)
    requires Counter(start) > 0
    ensures Overflows(start, UINT32_MAX)
    ensures Overflowed(start, UINT32_MAX, start) && Reached(start, UINT32_MAX, start)
  {
  }

  // The sample at which the code stops: the first to reach the target, after the first
  // that shows the overflow if there is to be one.
  ghost predicate StopsAt(start: nat, count: nat, samples: seq<nat>, ended: nat) {
    && ended < |samples| && Reached(start, count, samples[ended])
    && if Overflows(start, count)
       then exists first: nat ::
              first < ended && FirstOverflow(start, count, samples, first)
              && forall j :: first < j < ended ==> !Reached(start, count, samples[j])
       else forall j :: 0 <= j < ended ==> !Reached(start, count, samples[j])
  }

  ghost predicate FirstOverflow(start: nat, count: nat, samples: seq<nat>, first: nat) {
    && first < |samples| && Overflowed(start, count, samples[first])
    && forall j :: 0 <= j < first ==> !Overflowed(start, count, samples[j])
  }

  // The whole cycles in a time: the delay in cycles is rounded down, by less than one.
  lemma CyclesOfTime(us: nat, clockHz: nat)
    ensures UsecToCount(us, clockHz) * 1_000_000 <= us * clockHz < (UsecToCount(us, clockHz) + 1) * 1_000_000
  {}

  // samples are the times at which the loops read the counter, strictly later
  // than the start and than one another. The method stops where it should, at ended,
  // or runs out of samples if that is nowhere; and then it is late enough: fewer than
  // one cycle is missing from the time asked for.
  method SdkDelayAtLeastUs(us: nat, clockHz: nat, start: nat, samples: seq<nat>)
    returns (done: bool, ended: nat)
    requires us <= UINT32_MAX && clockHz <= UINT32_MAX && UsecToCount(us, clockHz) <= UINT32_MAX
    requires forall i :: 0 <= i < |samples| ==> samples[i] > start
    requires forall i, j :: 0 <= i < j < |samples| ==> samples[i] < samples[j]
    ensures us == 0 ==> done && ended == 0
    ensures us > 0 && done ==> StopsAt(start, UsecToCount(us, clockHz), samples, ended)
    ensures us > 0 && !done ==> forall e :: !StopsAt(start, UsecToCount(us, clockHz), samples, e)
    ensures us > 0 && done ==>
      && samples[ended] - start >= UsecToCount(us, clockHz)
      && (samples[ended] - start + 1) * 1_000_000 > us * clockHz
  {
    ended := 0;
    if us == 0 {
      return true, 0;
    }
    CyclesOfTime(us, clockHz);
    var count: nat := UsecToCount(us, clockHz);
    ghost var cycles := count;
    count := count + Counter(start);
    ghost var first := 0;
    if count > UINT32_MAX {
      count := count - UINT32_MAX;
      while ended < |samples| && count < Counter(samples[ended])
        invariant ended <= |samples| && count == Target(start, cycles)
        invariant forall j :: 0 <= j < ended ==> !Overflowed(start, cycles, samples[j])
      {
        ended := ended + 1;
      }
      if ended == |samples| {
        return false, ended;
      }
      first := ended;
      assert FirstOverflow(start, cycles, samples, first);
      ended := ended + 1;
    }
    ghost var from := ended;
    while ended < |samples| && count > Counter(samples[ended])
      invariant from <= ended <= |samples| && count == Target(start, cycles)
      invariant forall j :: from <= j < ended ==> !Reached(start, cycles, samples[j])
    {
      ended := ended + 1;
    }
    if ended == |samples| {
      return false, ended;
    }
    if cycles > 0 {
      var sampled := if Overflows(start, cycles) then samples[first] else samples[ended];
      DelayLongEnough(start, cycles, sampled, samples[ended]);
    }
    done := true;
  }
}

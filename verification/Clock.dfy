/** The 32-bit millisecond clock and the age test both tables use. */
module Clock {
  import opened Bytes

  /** The uptime counter. `now` is the true time; callers only ever see it modulo 2^32. Time may
      pass between any two samples. */
  class Uptime {
    var now: nat

    constructor ()
      ensures now == 0
    {
      now := 0;
    }

    method Sample() returns (t: u32)
      modifies this
      ensures old(now) <= now
      ensures t == now % WRAP32
    {
      var elapsed: int := *;
      if elapsed > 0 {
        now := now + elapsed;
      }
      t := now % WRAP32;
    }
  }

  /** `is_timeout`, with its two branches for a counter that has or has not wrapped. */
  predicate IsTimeout(timeout: u32, start: u32, current: u32)
  {
    if start <= current then current - start >= timeout
    else 0xFFFF_FFFF - start + current + 1 >= timeout
  }

  /** What the test measures: the true age modulo 2^32. */
  lemma TimeoutIsAgeModulo(timeout: u32, touched: nat, now: nat)
    requires touched <= now
    ensures IsTimeout(timeout, touched % WRAP32, now % WRAP32) <==> (now - touched) % WRAP32 >= timeout
  {
  }

  lemma Residue(n: nat, q: nat, r: nat)
    requires n == WRAP32 * q + r && r < WRAP32
    ensures n % WRAP32 == r
  {
  }

  ghost predicate RightAbout(timeout: u32, touched: nat, now: nat)
    requires touched <= now
  {
    IsTimeout(timeout, touched % WRAP32, now % WRAP32) <==> now - touched >= timeout
  }

  lemma RightBelowWrap(timeout: u32, touched: nat, now: nat)
    requires touched <= now < touched + WRAP32
    ensures RightAbout(timeout, touched, now)
  {
    TimeoutIsAgeModulo(timeout, touched, now);
    Residue(now - touched, 0, now - touched);
  }

  /** A time between two sweeps after which the second still tells the ages apart: short of a full
      turn of the counter by the timeout, or so much after one, and not too close to the next. */
  predicate SafeGap(timeout: u32, gap: nat)
  {
    gap % WRAP32 <= WRAP32 - timeout && (gap < WRAP32 || gap % WRAP32 >= timeout)
  }

  /** What one sweep kept was younger than `timeout`; `gap` later it is between `gap` and
      `gap + timeout` old. The test is right about all those ages exactly when the gap is safe. */
  lemma GapIsSafeIff(timeout: u32, gap: nat)
    requires 0 < timeout
    ensures SafeGap(timeout, gap) <==>
            forall touched: nat, now: nat | touched <= now && gap <= now - touched < gap + timeout ::
              RightAbout(timeout, touched, now)
  {
    if SafeGap(timeout, gap) {
      forall touched: nat, now: nat | touched <= now && gap <= now - touched < gap + timeout
        ensures RightAbout(timeout, touched, now)
      {
        Residue(now - touched, gap / WRAP32, gap % WRAP32 + (now - touched - gap));
        TimeoutIsAgeModulo(timeout, touched, now);
      }
    } else {
      var age := WrongAge(timeout, gap);
      assert !RightAbout(timeout, 0, age);
    }
  }

  /** An age the test gets wrong after an unsafe gap. */
  lemma WrongAge(timeout: u32, gap: nat) returns (age: nat)
    requires !SafeGap(timeout, gap)
    ensures gap <= age < gap + timeout && timeout <= age
    ensures forall touched: nat :: !IsTimeout(timeout, touched % WRAP32, (touched + age) % WRAP32)
  {
    var q, r := gap / WRAP32, gap % WRAP32;
    if r > WRAP32 - timeout {
      age := gap + (WRAP32 - r);
      Residue(age, q + 1, 0);
    } else {
      age := gap;
    }
    forall touched: nat ensures !IsTimeout(timeout, touched % WRAP32, (touched + age) % WRAP32) {
      TimeoutIsAgeModulo(timeout, touched, touched + age);
    }
  }
}

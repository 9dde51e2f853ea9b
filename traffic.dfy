/** The traffic-light oracle: a stateless two-phase signal with a 30-tick cycle. */
module Traffic {

  const Cycle := 30

  /** Green for the first half of each cycle when u + v is even, for the
      second half when it is odd. */
  function IsGreenLight(u: int, v: int, tick: int): bool
  {
    if (u + v) % 2 == 0 then tick % Cycle < 15 else tick % Cycle >= 15
  }

  /** The light repeats every 30 ticks, forwards and backwards. */
  lemma {:induction false} GreenLightPeriodic(u: int, v: int, tick: int, n: int)
    ensures IsGreenLight(u, v, tick + Cycle * n) == IsGreenLight(u, v, tick)
  {
    assert (tick + Cycle * n) % Cycle == tick % Cycle by {
      ModShift(tick, n);
    }
  }

  lemma {:induction false} ModShift(t: int, n: int)
    ensures (t + Cycle * n) % Cycle == t % Cycle
    decreases if n < 0 then -n else n
  {
    if n > 0 {
      ModShift(t, n - 1);
      var s := t + Cycle * (n - 1);
      assert t + Cycle * n == s + Cycle;
    } else if n < 0 {
      ModShift(t, n + 1);
      var s := t + Cycle * (n + 1);
      assert t + Cycle * n == s - Cycle;
    }
  }

  /** The two phase classes are exact complements: two edges whose endpoint
      sums differ in parity see opposite lights at every tick. */
  lemma PhaseClassesComplementary(u: int, v: int, x: int, y: int, tick: int)
    requires (u + v) % 2 != (x + y) % 2
    ensures IsGreenLight(x, y, tick) == !IsGreenLight(u, v, tick)
  {
  }

  /** Half a cycle later the light of any intersection has flipped. */
  lemma {:induction false} HalfCycleFlips(u: int, v: int, tick: int)
    ensures IsGreenLight(u, v, tick + 15) == !IsGreenLight(u, v, tick)
  {
    var m := tick % Cycle;
    assert tick == Cycle * (tick / Cycle) + m;
    if m < 15 {
      assert (tick + 15) % Cycle == m + 15 by {
        ModShift(m + 15, tick / Cycle);
      }
    } else {
      assert (tick + 15) % Cycle == m - 15 by {
        ModShift(m - 15, tick / Cycle + 1);
      }
    }
  }
}

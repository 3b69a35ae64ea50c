/** The waits between reconnect attempts, as 64-bit durations in nanoseconds. */
module Backoff {
  import opened Bytes

  const MAX_BACKOFF: int := 5 * 60 * 1_000_000_000

  /** A sum or product of durations, cut to 64 bits. */
  function Wrap64(x: int): int {
    (x + TWO_63) % TWO_64 - TWO_63
  }

  /** The backoff after a failed attempt. */
  function Next(backoff: int): int {
    var doubled := Wrap64(backoff * 2);
    if doubled > MAX_BACKOFF then MAX_BACKOFF else doubled
  }

  /** The wait before the attempt that follows k failures. */
  function WaitAfter(base: int, k: nat): int {
    if k == 0 then base else Next(WaitAfter(base, k - 1))
  }

  function Power2(k: nat): nat {
    if k == 0 then 1 else 2 * Power2(k - 1)
  }

  /** The waits of a reconnect loop whose attempts fail for as long as `failing` says so. */
  method ReconnectWaits(base: int, failing: seq<bool>) returns (waits: seq<int>)
    requires 0 < base < TWO_63
    ensures 0 < |waits| <= |failing| + 1
    ensures forall k :: 0 <= k < |waits| ==> waits[k] == WaitAfter(base, k)
    ensures forall k :: 0 <= k < |waits| - 1 ==> failing[k]
    ensures |waits| <= |failing| ==> !failing[|waits| - 1]
  {
    var backoff := base;
    waits := [backoff];
    while |waits| <= |failing| && failing[|waits| - 1]
      invariant 0 < |waits| <= |failing| + 1
      invariant backoff == WaitAfter(base, |waits| - 1)
      invariant forall k :: 0 <= k < |waits| ==> waits[k] == WaitAfter(base, k)
      invariant forall k :: 0 <= k < |waits| - 1 ==> failing[k]
      decreases |failing| + 1 - |waits|
    {
      backoff := Wrap64(backoff * 2);
      if backoff > MAX_BACKOFF {
        backoff := MAX_BACKOFF;
      }
      assert backoff == WaitAfter(base, |waits|);
      waits := waits + [backoff];
    }
  }

  /** Up to five minutes a doubling does not overflow, and is cut at five minutes. */
  lemma NextUpToMax(backoff: int)
    requires 0 < backoff <= MAX_BACKOFF
    ensures Wrap64(backoff * 2) == backoff * 2
    ensures Next(backoff) == if backoff * 2 <= MAX_BACKOFF then backoff * 2 else MAX_BACKOFF
  {
    WrapSmall(backoff * 2);
  }

  lemma WrapSmall(x: int)
    requires 0 <= x + TWO_63 && x < TWO_63
    ensures Wrap64(x) == x
  {}

  lemma PowerDoubles(base: int, k: nat)
    ensures base * Power2(k + 1) == 2 * (base * Power2(k))
  {
    var p := Power2(k);
    assert Power2(k + 1) == 2 * p;
    assert base * (2 * p) == 2 * (base * p);
  }

  /** For a base of at most five minutes: doubled each time up to five minutes, and no product overflows. */
  lemma {:induction false} ClosedForm(base: int, k: nat)
    requires 0 < base <= MAX_BACKOFF
    ensures WaitAfter(base, k) == if base * Power2(k) <= MAX_BACKOFF then base * Power2(k) else MAX_BACKOFF
    ensures 0 < WaitAfter(base, k) <= MAX_BACKOFF && WaitAfter(base, k) * 2 == Wrap64(WaitAfter(base, k) * 2)
  {
    if k == 0 {
      assert base * Power2(k) == base;
      NextUpToMax(base);
    } else {
      ClosedForm(base, k - 1);
      PowerDoubles(base, k - 1);
      var before, product := WaitAfter(base, k - 1), base * Power2(k - 1);
      NextUpToMax(before);
      assert base * Power2(k) == 2 * product && WaitAfter(base, k) == Next(before);
      NextUpToMax(WaitAfter(base, k));
    }
  }

  lemma NotShorter(base: int, k: nat)
    requires 0 < base <= MAX_BACKOFF
    ensures WaitAfter(base, k) <= WaitAfter(base, k + 1)
  {
    ClosedForm(base, k);
    NextUpToMax(WaitAfter(base, k));
  }

  lemma FirstWaitTooLong(base: int)
    requires MAX_BACKOFF < base < TWO_63
    ensures WaitAfter(base, 0) > WaitAfter(base, 1)
  {
    var zero: nat := 0;
    assert WaitAfter(base, zero + 1) == Next(WaitAfter(base, zero));
  }

  lemma FirstDoubling(base: int)
    requires 0 < base < TWO_63
    ensures WaitAfter(base, 1) == Next(base)
    ensures Next(base) < 0 <==> base * 2 >= TWO_63
  {
    var zero: nat := 0;
    assert WaitAfter(base, zero + 1) == Next(WaitAfter(base, zero));
    if base * 2 >= TWO_63 {
      assert Wrap64(base * 2) == base * 2 - TWO_64 by {
        assert (base * 2 + TWO_63 - TWO_64) % TWO_64 == (base * 2 + TWO_63) % TWO_64;
      }
    } else {
      WrapSmall(base * 2);
    }
  }

  ghost predicate NeverShorter(base: int) {
    forall k: nat :: WaitAfter(base, k) <= WaitAfter(base, k + 1)
  }

  /**
   The waits never get shorter exactly when the base is at most five minutes. A base of 2^62 nanoseconds or
   more overflows at the first doubling, which makes the next wait negative.
   */
  lemma NeverShorterIff(base: int)
    requires 0 < base < TWO_63
    ensures NeverShorter(base) <==> base <= 300_000_000_000
    ensures WaitAfter(base, 1) < 0 <==> base * 2 >= TWO_63
  {
    FirstDoubling(base);
    if base <= MAX_BACKOFF {
      forall k: nat ensures WaitAfter(base, k) <= WaitAfter(base, k + 1) {
        NotShorter(base, k);
      }
    } else {
      FirstWaitTooLong(base);
      var zero: nat := 0;
      assert WaitAfter(base, zero) > WaitAfter(base, zero + 1);
    }
  }
}

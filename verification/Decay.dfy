// Time-based decay of unused pages: the backlog of jemalloc's arenas and the search for
// the next purge (3rd/jemalloc/src/arena.c, 3rd/jemalloc/src/background_thread.c).

module DecayBacklog {
  import opened Common

  const NSTEPS: nat := 200
  // One in fixed-point arithmetic with 24 binary places.
  const ONE: nat := 0x100_0000

  // The smoothstep table grows from step to step up to one.
  ghost predicate IsTable(h: seq<nat>) {
    |h| == NSTEPS && h[NSTEPS - 1] == ONE && forall i, j :: 0 <= i <= j < NSTEPS ==> h[i] <= h[j]
  }

  function Times(x: nat, y: nat): nat {
    x * y
  }

  lemma TimesMonotone(x: nat, y: nat, z: nat)
    requires y <= z
    ensures Times(x, y) <= Times(x, z) && Times(x, z - y) == Times(x, z) - Times(x, y)
  {
  }

  // The weighted sum of the first n entries.
  function Weighted(b: seq<nat>, h: seq<nat>, n: nat): nat
    requires n <= |b| && n <= |h|
  {
    if n == 0 then 0 else Weighted(b, h, n - 1) + Times(b[n - 1], h[n - 1])
  }

  // What the first n entries contribute to the purge after k epochs.
  function Purged(b: seq<nat>, h: seq<nat>, k: nat, n: nat): int
    requires n <= |b| && n <= |h| && IsTable(h)
  {
    if n == 0 then 0
    else Purged(b, h, k, n - 1)
         + (if n - 1 < k then Times(b[n - 1], h[n - 1]) else Times(b[n - 1], h[n - 1] - h[n - 1 - k]))
  }

  // The backlog k epochs later, if no page is added.
  function Shifted(b: seq<nat>, k: nat): (s: seq<nat>)
    ensures |s| == |b|
  {
    if k >= |b| then seq(|b|, _ => 0) else b[k..] + seq(k, _ => 0)
  }

  // The weights the first n entries have k epochs later.
  function Later(b: seq<nat>, h: seq<nat>, k: nat, n: nat): nat
    requires n <= |b| && n <= |h|
  {
    if n == 0 then 0
    else Later(b, h, k, n - 1) + (if n - 1 < k then 0 else Times(b[n - 1], h[n - 1 - k]))
  }

  lemma {:induction false} PurgedSplits(b: seq<nat>, h: seq<nat>, k: nat, n: nat)
    requires n <= |b| && IsTable(h) && n <= NSTEPS
    ensures Purged(b, h, k, n) == Weighted(b, h, n) - Later(b, h, k, n)
  {
    hide Times;
    if n > 0 {
      PurgedSplits(b, h, k, n - 1);
      if n - 1 >= k {
        TimesMonotone(b[n - 1], h[n - 1 - k], h[n - 1]);
      }
    }
  }

  lemma {:induction false} LaterIsShifted(b: seq<nat>, h: seq<nat>, k: nat, m: nat)
    requires |b| == NSTEPS && |h| == NSTEPS && m + k <= NSTEPS
    ensures Weighted(Shifted(b, k), h, m) == Later(b, h, k, m + k)
  {
    if m > 0 {
      LaterIsShifted(b, h, k, m - 1);
    } else {
      NothingLater(b, h, k, k);
    }
  }

  lemma {:induction false} NothingLater(b: seq<nat>, h: seq<nat>, k: nat, n: nat)
    requires n <= |b| && n <= |h| && n <= k
    ensures Later(b, h, k, n) == 0
  {
    if n > 0 {
      NothingLater(b, h, k, n - 1);
    }
  }

  lemma {:induction false} ZerosWeighNothing(b: seq<nat>, h: seq<nat>, m: nat, n: nat)
    requires m <= n <= |b| && n <= |h| && forall i :: m <= i < n ==> b[i] == 0
    ensures Weighted(b, h, n) == Weighted(b, h, m)
  {
    if m < n {
      ZerosWeighNothing(b, h, m, n - 1);
    }
  }

  // What is purged after k epochs is what k epochs without new pages take off the sum.
  lemma PurgedIsDrop(b: seq<nat>, h: seq<nat>, k: nat)
    requires |b| == NSTEPS && IsTable(h) && k <= NSTEPS
    ensures Purged(b, h, k, NSTEPS) == Weighted(b, h, NSTEPS) - Weighted(Shifted(b, k), h, NSTEPS)
  {
    PurgedSplits(b, h, k, NSTEPS);
    LaterIsShifted(b, h, k, NSTEPS - k);
    ZerosWeighNothing(Shifted(b, k), h, NSTEPS - k, NSTEPS);
  }

  // Waiting longer never purges less.
  lemma {:induction false} PurgedMonotone(b: seq<nat>, h: seq<nat>, j: nat, k: nat, n: nat)
    requires n <= |b| && IsTable(h) && n <= NSTEPS && j <= k
    ensures 0 <= Purged(b, h, j, n) <= Purged(b, h, k, n)
  {
    if n > 0 {
      PurgedMonotone(b, h, j, k, n - 1);
      var i := n - 1;
      if i >= k {
        TimesMonotone(b[i], h[i] - h[i - j], h[i] - h[i - k]);
      } else if i >= j {
        TimesMonotone(b[i], h[i] - h[i - j], h[i]);
      }
    }
  }

  function Pages(sum: nat): nat {
    sum / ONE
  }

  // The number of pages the backlog allows to be kept.
  function Limit(b: seq<nat>, h: seq<nat>): nat
    requires |b| == NSTEPS && |h| == NSTEPS
  {
    Pages(Weighted(b, h, NSTEPS))
  }

  lemma {:induction false} SamePrefix(b: seq<nat>, c: seq<nat>, h: seq<nat>, n: nat)
    requires n <= |b| && n <= |c| && n <= |h| && b[..n] == c[..n]
    ensures Weighted(b, h, n) == Weighted(c, h, n)
  {
    if n > 0 {
      assert b[..n - 1] == b[..n][..n - 1] && c[..n - 1] == c[..n][..n - 1];
      assert b[n - 1] == b[..n][n - 1] && c[n - 1] == c[..n][n - 1];
      SamePrefix(b, c, h, n - 1);
    }
  }

  // The backlog after an advance by k > 0 epochs with `delta` new pages.
  function Advanced(b: seq<nat>, k: nat, delta: nat): (s: seq<nat>)
    requires |b| == NSTEPS && 0 < k
    ensures |s| == NSTEPS
  {
    Shifted(b, k)[NSTEPS - 1 := delta]
  }

  // New pages count in full; the old ones count less than before.
  lemma AdvancedLimit(b: seq<nat>, h: seq<nat>, k: nat, delta: nat)
    requires |b| == NSTEPS && IsTable(h) && 0 < k
    ensures Limit(Advanced(b, k, delta), h) <= Limit(b, h) + delta
  {
    var s, a := Shifted(b, k), Advanced(b, k, delta);
    SamePrefix(s, a, h, NSTEPS - 1);
    assert s[NSTEPS - 1] == 0;
    var j := if k < NSTEPS then k else NSTEPS;
    assert Shifted(b, j) == s;
    PurgedIsDrop(b, h, j);
    PurgedMonotone(b, h, 0, j, NSTEPS);
    PurgedIsDrop(b, h, 0);
    assert Shifted(b, 0) == b;
    assert Weighted(a, h, NSTEPS) == Weighted(s, h, NSTEPS) + Times(delta, ONE);
    PagesOfSum(Weighted(s, h, NSTEPS), delta, Weighted(b, h, NSTEPS));
  }

  lemma PagesOfSum(x: nat, delta: nat, y: nat)
    requires x <= y
    ensures Pages(x + Times(delta, ONE)) <= Pages(y) + delta
  {
  }

  lemma WeightedZero(h: seq<nat>, n: nat)
    requires n <= NSTEPS && |h| == NSTEPS
    ensures Weighted(seq(NSTEPS, _ => 0), h, n) == 0
  {
    ZerosWeighNothing(seq(NSTEPS, _ => 0), h, 0, n);
  }

  // Pages that are purged after waiting k epochs.
  function Npurge(b: seq<nat>, h: seq<nat>, k: nat): nat
    requires |b| == NSTEPS && IsTable(h) && k <= NSTEPS
  {
    PurgedMonotone(b, h, 0, k, NSTEPS);
    Pages(Purged(b, h, k, NSTEPS))
  }

  lemma NpurgeMonotone(b: seq<nat>, h: seq<nat>, j: nat, k: nat)
    requires |b| == NSTEPS && IsTable(h) && j <= k <= NSTEPS
    ensures Npurge(b, h, j) <= Npurge(b, h, k)
  {
    PurgedMonotone(b, h, j, k, NSTEPS);
  }

  const THRESHOLD: nat := 1024
  const MIN_INTERVAL: nat := 100_000_000
  const INDEFINITE: nat := 0xFFFF_FFFF_FFFF_FFFF

  function AtLeastMin(interval: nat): nat {
    if interval < MIN_INTERVAL then MIN_INTERVAL else interval
  }

  // No more than the threshold are purged up to lb epochs, and no fewer from ub epochs on;
  // the two ends are close, in pages or in epochs.
  ghost predicate Brackets(b: seq<nat>, h: seq<nat>, first: nat, lb: nat, ub: nat)
    requires |b| == NSTEPS && IsTable(h)
  {
    && first <= lb < ub <= NSTEPS
    && (forall j :: 0 <= j <= lb ==> Npurge(b, h, j) <= THRESHOLD)
    && (forall j :: ub <= j <= NSTEPS ==> Npurge(b, h, j) >= THRESHOLD)
    && (Npurge(b, h, ub) <= Npurge(b, h, lb) + THRESHOLD || ub <= lb + 2)
  }

  class Decay {
    const h: seq<nat>
    const backlog: array<nat>
    var nunpurged: nat
    var ceilNpages: nat

    ghost predicate Shape()
      reads this
    {
      IsTable(h) && backlog.Length == NSTEPS
    }

    // What the debugging assertion needs in every state.
    ghost predicate Valid()
      reads this, backlog
    {
      Shape() && Limit(backlog[..], h) <= ceilNpages && Limit(backlog[..], h) <= nunpurged
    }

    constructor (h: seq<nat>)
      requires IsTable(h)
      ensures Valid() && fresh(backlog) && this.h == h
      ensures backlog[..] == seq(NSTEPS, _ => 0) && nunpurged == 0
    {
      this.h, nunpurged, ceilNpages := h, 0, 0;
      backlog := new nat[NSTEPS](_ => 0);
      new;
      assert backlog[..] == seq(NSTEPS, _ => 0);
      WeightedZero(h, NSTEPS);
    }

    // Starts from scratch; the peak stays.
    method Reinit()
      requires Shape()
      modifies this, backlog
      ensures Valid() && backlog[..] == seq(NSTEPS, _ => 0) && nunpurged == 0 && ceilNpages == old(ceilNpages)
    {
      nunpurged := 0;
      forall i | 0 <= i < NSTEPS {
        backlog[i] := 0;
      }
      assert backlog[..] == seq(NSTEPS, _ => 0);
      WeightedZero(h, NSTEPS);
    }

    method NpagesLimit() returns (n: nat)
      requires Shape()
      ensures n == Limit(backlog[..], h)
    {
      var sum: nat := 0;
      for i := 0 to NSTEPS
        invariant sum == Weighted(backlog[..], h, i)
      {
        sum := sum + Times(backlog[i], h[i]);
      }
      n := Pages(sum);
    }

    // The assertion is the one on the peak number of pages.
    method BacklogUpdate(nadvance: nat, current: nat)
      requires Valid() && 0 < nadvance
      modifies `ceilNpages, backlog
      ensures Shape() && nunpurged == old(nunpurged)
      ensures backlog[..] == Advanced(old(backlog[..]), nadvance, if current > nunpurged then current - nunpurged else 0)
      ensures ceilNpages == Limit(backlog[..], h) <= (if current > old(nunpurged) then current else old(nunpurged))
    {
      ghost var b := backlog[..];
      ShiftBacklog(nadvance);
      var delta: nat := if current > nunpurged then current - nunpurged else 0;
      backlog[NSTEPS - 1] := delta;
      assert backlog[..] == Advanced(b, nadvance, delta);
      AdvancedLimit(b, h, nadvance, delta);
      LimitStays(b, nadvance);
      if current > ceilNpages {
        ceilNpages := current;
      }
      var npagesLimit := NpagesLimit();
      assert ceilNpages >= npagesLimit;
      if ceilNpages > npagesLimit {
        ceilNpages := npagesLimit;
      }
    }

    lemma LimitStays(b: seq<nat>, k: nat)
      requires Shape() && |b| == NSTEPS && 0 < k
      ensures Limit(Advanced(b, k, 0), h) <= Limit(b, h)
    {
      AdvancedLimit(b, h, k, 0);
    }

    // Moves the entries and clears the ones behind; the last one is written by the caller.
    method ShiftBacklog(nadvance: nat)
      requires Shape() && 0 < nadvance
      modifies backlog
      ensures backlog[..NSTEPS - 1] == Shifted(old(backlog[..]), nadvance)[..NSTEPS - 1]
    {
      if nadvance >= NSTEPS {
        forall i | 0 <= i < NSTEPS - 1 {
          backlog[i] := 0;
        }
      } else {
        forall i | 0 <= i < NSTEPS - nadvance {
          backlog[i] := backlog[i + nadvance];
        }
        if nadvance > 1 {
          forall i | NSTEPS - nadvance <= i < NSTEPS - 1 {
            backlog[i] := 0;
          }
        }
      }
    }

    // One advance: the new limit, and how many pages are over it.
    method EpochAdvance(nadvance: nat, current: nat) returns (npurge: nat)
      requires Valid() && 0 < nadvance
      modifies this, backlog
      ensures Valid()
      ensures backlog[..]
           == Advanced(old(backlog[..]), nadvance, if current > old(nunpurged) then current - old(nunpurged) else 0)
      ensures var limit := Limit(backlog[..], h);
        && nunpurged == (if limit > current then limit else current)
        && npurge == (if current > limit then current - limit else 0)
    {
      BacklogUpdate(nadvance, current);
      var npagesLimit := NpagesLimit();
      nunpurged := if npagesLimit > current then npagesLimit else current;
      npurge := if current > npagesLimit then current - npagesLimit else 0;
    }

    method NpurgeAfterInterval(interval: nat) returns (n: nat)
      requires Shape() && interval <= NSTEPS
      ensures n == Npurge(backlog[..], h, interval)
    {
      ghost var b := backlog[..];
      var sum := 0;
      var i := 0;
      while i < interval
        invariant 0 <= i <= interval && sum == Purged(b, h, interval, i)
      {
        sum := sum + Times(backlog[i], h[i]);
        i := i + 1;
      }
      while i < NSTEPS
        invariant interval <= i <= NSTEPS && sum == Purged(b, h, interval, i)
      {
        sum := sum + Times(backlog[i], h[i] - h[i - interval]);
        i := i + 1;
      }
      PurgedMonotone(b, h, 0, interval, NSTEPS);
      n := Pages(sum);
    }

    // The search, which takes at most eight steps, as the assertion says.
    method Search(lb0: nat) returns (lb: nat, ub: nat)
      requires Shape() && 2 <= lb0 && lb0 + 2 <= NSTEPS
      requires Npurge(backlog[..], h, lb0) <= THRESHOLD <= Npurge(backlog[..], h, NSTEPS)
      ensures Brackets(backlog[..], h, lb0, lb, ub)
    {
      ghost var b := backlog[..];
      lb, ub := lb0, NSTEPS;
      var npurgeLb := NpurgeAfterInterval(lb);
      var npurgeUb := NpurgeAfterInterval(ub);
      var nSearch := 0;
      while npurgeLb + THRESHOLD < npurgeUb && lb + 2 < ub
        invariant lb0 <= lb < ub <= NSTEPS && 0 <= nSearch
        invariant npurgeLb == Npurge(b, h, lb) <= THRESHOLD <= npurgeUb == Npurge(b, h, ub)
        invariant (ub - lb - 1) * Pow2(nSearch) <= 197
        decreases ub - lb
      {
        FewSteps(ub - lb - 1, nSearch);
        var target := (lb + ub) / 2;
        var npurge := NpurgeAfterInterval(target);
        Halved(ub - lb - 1, target - lb - 1, nSearch);
        Halved(ub - lb - 1, ub - target - 1, nSearch);
        if npurge > THRESHOLD {
          ub, npurgeUb := target, npurge;
        } else {
          lb, npurgeLb := target, npurge;
        }
        assert nSearch < 8;
        nSearch := nSearch + 1;
      }
      forall j | 0 <= j <= lb ensures Npurge(b, h, j) <= THRESHOLD {
        NpurgeMonotone(b, h, j, lb);
      }
      forall j | ub <= j <= NSTEPS ensures Npurge(b, h, j) >= THRESHOLD {
        NpurgeMonotone(b, h, ub, j);
      }
    }

    // When to wake up next. `contended` says that the lock was taken.
    method ComputePurgeInterval(contended: bool, timeMs: int, intervalNs: nat, npages: nat)
      returns (interval: nat, ghost lb: nat, ghost ub: nat)
      requires Shape() && 0 < intervalNs
      ensures contended ==> interval == MIN_INTERVAL
      ensures !contended && timeMs <= 0 ==> interval == INDEFINITE
      ensures !contended && timeMs > 0 && npages <= THRESHOLD ==>
                interval == if npages == 0 && backlog[..] == seq(NSTEPS, _ => 0) then INDEFINITE
                            else AtLeastMin(intervalNs * NSTEPS)
      ensures !contended && timeMs > 0 && npages > THRESHOLD ==>
                Searched(backlog[..], intervalNs, interval, lb, ub)
    {
      lb, ub := 0, 0;
      if contended {
        return MIN_INTERVAL, 0, 0;
      }
      if timeMs <= 0 {
        return INDEFINITE, 0, 0;
      }
      if npages == 0 {
        var i := 0;
        while i < NSTEPS && backlog[i] == 0
          invariant 0 <= i <= NSTEPS && forall j :: 0 <= j < i ==> backlog[j] == 0
        {
          i := i + 1;
        }
        if i == NSTEPS {
          return INDEFINITE, 0, 0;
        }
        assert backlog[..][i] != 0;
      }
      if npages <= THRESHOLD {
        return AtLeastMin(intervalNs * NSTEPS), 0, 0;
      }
      interval, lb, ub := SearchInterval(intervalNs);
    }

    function First(intervalNs: nat): nat
      requires 0 < intervalNs
    {
      var lb := MIN_INTERVAL / intervalNs;
      if lb < 2 then 2 else lb
    }

    // The end of the range that settles it, or the middle of the bracket.
    ghost predicate Searched(b: seq<nat>, intervalNs: nat, interval: nat, lb: nat, ub: nat)
      requires Shape() && |b| == NSTEPS && 0 < intervalNs
      reads this
    {
      var first := First(intervalNs);
      if intervalNs * NSTEPS <= MIN_INTERVAL || first + 2 > NSTEPS then interval == MIN_INTERVAL
      else if Npurge(b, h, first) > THRESHOLD then interval == AtLeastMin(intervalNs * first)
      else if Npurge(b, h, NSTEPS) < THRESHOLD then interval == AtLeastMin(intervalNs * NSTEPS)
      else Brackets(b, h, first, lb, ub) && interval == AtLeastMin(intervalNs * (ub + lb) / 2)
    }

    method SearchInterval(intervalNs: nat) returns (interval: nat, ghost lb: nat, ghost ub: nat)
      requires Shape() && 0 < intervalNs
      ensures Searched(backlog[..], intervalNs, interval, lb, ub)
    {
      var l, u := First(intervalNs), NSTEPS;
      lb, ub := l, u;
      if intervalNs * u <= MIN_INTERVAL || l + 2 > u {
        return MIN_INTERVAL, l, u;
      }
      var npurgeLb := NpurgeAfterInterval(l);
      if npurgeLb > THRESHOLD {
        return AtLeastMin(intervalNs * l), l, u;
      }
      var npurgeUb := NpurgeAfterInterval(u);
      if npurgeUb < THRESHOLD {
        return AtLeastMin(intervalNs * u), l, u;
      }
      l, u := Search(l);
      lb, ub := l, u;
      interval := AtLeastMin(intervalNs * (u + l) / 2);
    }
  }

  lemma FewSteps(w: nat, n: nat)
    requires 2 <= w && w * Pow2(n) <= 197
    ensures n < 7
  {
    assert Pow2(7) == 128;
    if n >= 7 {
      Pow2Grows(7, n);
    }
  }

  lemma {:induction false} Pow2Grows(m: nat, n: nat)
    requires m <= n
    ensures Pow2(m) <= Pow2(n)
    decreases n - m
  {
    if m < n {
      Pow2Grows(m, n - 1);
    }
  }

  lemma Halved(w: nat, v: nat, n: nat)
    requires 2 * v <= w && w * Pow2(n) <= 197
    ensures v * Pow2(n + 1) <= 197
  {
    assert v * Pow2(n + 1) == (2 * v) * Pow2(n);
  }
}

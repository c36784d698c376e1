/**
 * Which images a full queue gives up.  The bridge computes the ratios in floating point; here they
 * are exact: a target is a rounded-down fraction of the file limit, the i-th image removed from a
 * middle section of `len` images is number floor(i * len / count).
 */
module Thinning {
  datatype Health = Healthy | CatchingUp | Degraded | Critical

  datatype Config = Config(
    maxFiles: int, maxSizeMB: int, maxAge: int,
    thinningEnabled: bool, protectNewest: nat, protectOldest: nat,
    catchingUp: real, degraded: real, critical: real,
    pauseOnCritical: bool, resume: real)

  function TargetCount(c: Config, health: Health): int {
    match health
    case CatchingUp => c.maxFiles * 8 / 10
    case Degraded => c.maxFiles * 6 / 10
    case Critical => c.maxFiles * 4 / 10
    case Healthy => 0
  }

  /** The protected ends; when they would cover the whole queue they shrink to a quarter each. */
  function KeepOldest(c: Config, n: nat): nat {
    if c.protectOldest + c.protectNewest >= n then n / 4 else c.protectOldest
  }

  function KeepNewest(c: Config, n: nat): nat {
    if c.protectOldest + c.protectNewest >= n then n / 4 else c.protectNewest
  }

  function MiddleTarget(c: Config, health: Health, n: nat): nat {
    var t := TargetCount(c, health) - KeepOldest(c, n) - KeepNewest(c, n);
    if t < 0 then 0 else t
  }

  /** How many images of the middle section go. */
  function ThinCount(c: Config, health: Health, n: nat): nat {
    if !c.thinningEnabled || n == 0 || health == Healthy || n <= TargetCount(c, health) then 0
    else if KeepOldest(c, n) + KeepNewest(c, n) >= n then 0
    else
      var toRemove := n - KeepOldest(c, n) - KeepNewest(c, n) - MiddleTarget(c, health, n);
      if toRemove <= 0 then 0 else toRemove
  }

  function ThinIndex(i: nat, len: nat, count: nat): nat
    requires count > 0
  {
    i * len / count
  }

  function MiddleLength(c: Config, n: nat): nat {
    if KeepOldest(c, n) + KeepNewest(c, n) >= n then 0 else n - KeepOldest(c, n) - KeepNewest(c, n)
  }

  /** The first `upto` positions, in time order, of `count` images to remove from a queue of n. */
  function FirstPositions(c: Config, n: nat, count: nat, upto: nat): set<int>
    requires upto <= count
  {
    set i: nat | i < upto :: KeepOldest(c, n) + ThinIndex(i, MiddleLength(c, n), count)
  }

  function ThinPositions(c: Config, health: Health, n: nat): set<int> {
    var count := ThinCount(c, health, n);
    FirstPositions(c, n, count, count)
  }

  // ----- evenness

  lemma DivBounds(a: nat, b: nat)
    requires b > 0
    ensures a / b * b <= a < a / b * b + b
  {
  }

  lemma MulCancels(a: int, b: int, k: int)
    requires k > 0 && a * k < b * k
    ensures a < b
  {
    assert (b - a) * k > 0;
  }

  lemma MulGrows(a: int, b: int, k: int)
    requires a <= b && k >= 0
    ensures a * k <= b * k
  {
    assert (b - a) * k >= 0;
  }

  /** Consecutive removed images are len/count or len/count + 1 apart. */
  lemma ThinStep(i: nat, len: nat, count: nat)
    requires 0 < count <= len
    ensures 1 <= len / count <= ThinIndex(i + 1, len, count) - ThinIndex(i, len, count) <= len / count + 1
  {
    var q, q', d := ThinIndex(i, len, count), ThinIndex(i + 1, len, count), len / count;
    DivBounds(i * len, count);
    DivBounds((i + 1) * len, count);
    DivBounds(len, count);
    assert (i + 1) * len == i * len + len;
    assert (q' - q) * count == q' * count - q * count;
    assert (d - 1) * count == d * count - count;
    assert (d + 1) * count == d * count + count;
    assert (d + 2) * count == d * count + 2 * count;
    MulCancels(d - 1, q' - q, count);
    MulCancels(q' - q, d + 2, count);
    MulCancels(1, d + 1, count);
  }

  lemma {:induction false} ThinIncreasing(i: nat, j: nat, len: nat, count: nat)
    requires i < j && 0 < count <= len
    ensures ThinIndex(i, len, count) < ThinIndex(j, len, count)
    decreases j
  {
    ThinStep(j - 1, len, count);
    if i < j - 1 {
      ThinIncreasing(i, j - 1, len, count);
    }
  }

  /** Every removed index is inside the section; the last one is its end only when all of it goes. */
  lemma ThinLast(i: nat, len: nat, count: nat)
    requires i < count <= len
    ensures ThinIndex(0, len, count) == 0
    ensures ThinIndex(i, len, count) <= len - 1
    ensures ThinIndex(i, len, count) == len - 1 <==> i == count - 1 && count == len
  {
    assert 0 * len == 0;
    var q := ThinIndex(i, len, count);
    DivBounds(i * len, count);
    assert q * count <= i * len;
    if count == len {
      assert q == i by { WholeSection(i, len); }
    } else {
      MulGrows(i, count - 1, len);
      assert (count - 1) * len == len * count - len;
      assert (len - 1) * count == len * count - count;
      MulCancels(q, len - 1, count);
    }
  }

  lemma WholeSection(i: nat, len: nat)
    requires len > 0
    ensures ThinIndex(i, len, len) == i
  {
    DivBounds(i * len, len);
    var q := i * len / len;
    assert (i + 1) * len == i * len + len && (q + 1) * len == q * len + len;
    MulCancels(q, i + 1, len);
    MulCancels(i, q + 1, len);
  }

  /**
   * Evenly spaced: any two gaps between consecutive removed images differ by at most one.
   */
  lemma ThinningIsEven(i: nat, j: nat, len: nat, count: nat)
    requires 0 < count <= len
    ensures -1 <= (ThinIndex(i + 1, len, count) - ThinIndex(i, len, count))
                  - (ThinIndex(j + 1, len, count) - ThinIndex(j, len, count)) <= 1
  {
    ThinStep(i, len, count);
    ThinStep(j, len, count);
  }

  // ----- exactness

  lemma CountPositions(c: Config, n: nat, count: nat, upto: nat)
    requires upto <= count <= MiddleLength(c, n)
    ensures |FirstPositions(c, n, count, upto)| == upto
  {
    var all := FirstPositions(c, n, count, upto);
    if upto == 0 {
      assert all == {};
    } else {
      var rest := FirstPositions(c, n, count, upto - 1);
      var last := KeepOldest(c, n) + ThinIndex(upto - 1, MiddleLength(c, n), count);
      CountPositions(c, n, count, upto - 1);
      forall i: nat | i < upto - 1 ensures KeepOldest(c, n) + ThinIndex(i, MiddleLength(c, n), count) != last {
        ThinIncreasing(i, upto - 1, MiddleLength(c, n), count);
      }
      assert last !in rest;
      assert all == rest + {last};
    }
  }

  /**
   * Thinning is exact: an overfull, unhealthy queue of n images loses exactly enough of its middle
   * to leave max(target, protected ends), and both protected ends stay whole.
   */
  lemma ThinningIsExact(c: Config, health: Health, n: nat)
    ensures var gone := ThinPositions(c, health, n);
            && |gone| == ThinCount(c, health, n) <= MiddleLength(c, n) <= n
            && (forall p :: p in gone ==> KeepOldest(c, n) <= p < n - KeepNewest(c, n))
            && (c.thinningEnabled && health != Healthy && n > 0 && n > TargetCount(c, health) ==>
                  var ends := KeepOldest(c, n) + KeepNewest(c, n);
                  ends < n && n - |gone| == if TargetCount(c, health) > ends then TargetCount(c, health) else ends)
  {
    var count := ThinCount(c, health, n);
    CountPositions(c, n, count, count);
    forall i: nat | i < count ensures ThinIndex(i, MiddleLength(c, n), count) <= MiddleLength(c, n) - 1 {
      ThinLast(i, MiddleLength(c, n), count);
    }
  }

  /**
   * The newest image goes exactly when none of the newest is protected and the whole middle goes.
   */
  lemma {:induction false} NewestThinnedIff(c: Config, health: Health, n: nat)
    requires ThinCount(c, health, n) > 0
    ensures n - 1 in ThinPositions(c, health, n) <==>
            KeepNewest(c, n) == 0 && MiddleTarget(c, health, n) == 0
  {
    var count, len := ThinCount(c, health, n), MiddleLength(c, n);
    if n - 1 in ThinPositions(c, health, n) {
      var i: nat :| i < count && n - 1 == KeepOldest(c, n) + ThinIndex(i, len, count);
      ThinLast(i, len, count);
    }
    if KeepNewest(c, n) == 0 && MiddleTarget(c, health, n) == 0 {
      ThinLast(count - 1, len, count);
      assert KeepOldest(c, n) + ThinIndex(count - 1, len, count) == n - 1;
    }
  }

  /** A configuration under which thinning always spares the newest image. */
  predicate SparesNewest(c: Config) {
    c.maxFiles >= 3 && c.protectNewest >= 1
  }

  lemma NewestSpared(c: Config, health: Health, n: nat)
    requires SparesNewest(c)
    ensures n - 1 !in ThinPositions(c, health, n)
  {
    if ThinCount(c, health, n) > 0 {
      NewestThinnedIff(c, health, n);
      assert TargetCount(c, health) >= 1;
    } else {
      assert ThinPositions(c, health, n) == {};
    }
  }

  /** With a file limit of two the guarantee is lost: a critical queue of two empties itself. */
  lemma TinyLimitThinsNewest(c: Config)
    requires c.maxFiles == 2 && c.protectNewest == 10 && c.protectOldest == 5 && c.thinningEnabled
    ensures 1 in ThinPositions(c, Critical, 2)
  {
    assert ThinCount(c, Critical, 2) == 2;
    NewestThinnedIff(c, Critical, 2);
  }

  // ----- emergency thinning

  /** How many of the oldest images an emergency thin tries to remove; it keeps at least one. */
  function EmergencyCount(n: nat, keepRatio: real): (k: nat)
    ensures n > 0 ==> k < n
    ensures n == 0 ==> k == 0
  {
    var keep := (n as real * keepRatio).Floor;
    var kept := if keep < 1 then 1 else keep;
    if kept >= n then 0 else n - kept
  }
}

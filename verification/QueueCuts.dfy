/**
 * What thinning, space recovery and expiry take from the directory, and what a dequeue hands out:
 * exactly, also where the order of the names is not the order of the times.
 */
module QueueCuts {
  import opened Common
  import opened FileNames
  import opened Directory
  import opened Thinning
  import opened QueueSpec
  import opened QueueRuns

  // ----- thinning the directory

  lemma ThinSelection(c: Config, s: QueueState)
    ensures var files := Listing(s);
            var gone := FilesAt(files, ThinPositions(c, s.health, |files|));
            gone <= s.dir.Keys && |gone| == ThinCount(c, s.health, |files|)
  {
    var files := Listing(s);
    SortedListing(s.dir.Keys);
    ThinningIsExact(c, s.health, |files|);
    CountFiles(files, ThinPositions(c, s.health, |files|));
    forall k | k in FilesAt(files, ThinPositions(c, s.health, |files|)) ensures k in s.dir {
      assert k in Elements(files);
    }
  }

  lemma AllGo(s: QueueState, victims: set<int>)
    requires victims <= s.dir.Keys
    ensures Gone(s, victims, _ => true) == victims
    ensures victims == {} ==> s.dir - victims == s.dir
  {
  }

  lemma ThinAndCheckTakes(c: Config, s: QueueState, gone: set<int>)
    requires gone <= s.dir.Keys
    ensures var t := ThinAndCheck(c, s, gone); t.dir == s.dir - gone && t.count == s.count - |gone|
  {
    if gone == {} {
      assert s.dir - gone == s.dir;
    }
  }

  /** What a fully successful thinning takes out. */
  lemma ThinVictims(c: Config, s: QueueState)
    requires Counted(s)
    ensures var files, t := Listing(s), Thin(c, s, _ => true);
            var gone := FilesAt(files, ThinPositions(c, s.health, |files|));
            t.dir == s.dir - gone && t.count == |files| - ThinCount(c, s.health, |files|)
  {
    var files := Listing(s);
    SortedListing(s.dir.Keys);
    ThinSelection(c, s);
    var gone := FilesAt(files, ThinPositions(c, s.health, |files|));
    AllGo(s, gone);
    ThinAndCheckTakes(c, s, gone);
    assert Gone(s, gone, _ => true) == gone;
  }

  lemma NotAmong(files: seq<int>, positions: set<int>, p: int)
    requires Increasing(files) && 0 <= p < |files| && p !in positions
    ensures files[p] in Elements(files) && files[p] !in FilesAt(files, positions)
  {
    NoRepeats(files);
  }

  /** Thinning when every remove succeeds: exact count, both protected blocks whole. */
  lemma ThinIsExact(c: Config, s: QueueState)
    requires Counted(s)
    ensures var files, t := Listing(s), Thin(c, s, _ => true);
            var n := |files|;
            && (forall p :: 0 <= p < n && (p < KeepOldest(c, n) || p >= n - KeepNewest(c, n)) ==> files[p] in t.dir)
            && (c.thinningEnabled && s.health != Healthy && n > 0 && n > TargetCount(c, s.health) ==>
                  var ends := KeepOldest(c, n) + KeepNewest(c, n);
                  t.count == if TargetCount(c, s.health) > ends then TargetCount(c, s.health) else ends)
  {
    var files := Listing(s);
    var n := |files|;
    ThinVictims(c, s);
    SortedListing(s.dir.Keys);
    ThinningIsExact(c, s.health, n);
    forall p | 0 <= p < n && (p < KeepOldest(c, n) || p >= n - KeepNewest(c, n))
      ensures files[p] in s.dir.Keys && files[p] !in FilesAt(files, ThinPositions(c, s.health, n))
    {
      NotAmong(files, ThinPositions(c, s.health, n), p);
    }
  }

  lemma {:induction false} CountFiles(files: seq<int>, positions: set<int>)
    requires Increasing(files) && forall p :: p in positions ==> 0 <= p < |files|
    ensures |FilesAt(files, positions)| == |positions|
    decreases |positions|
  {
    if positions == {} {
      assert FilesAt(files, positions) == {};
    } else {
      Inhabited(positions);
      var p :| p in positions;
      CountFiles(files, positions - {p});
      assert FilesAt(files, positions) == FilesAt(files, positions - {p}) + {files[p]};
      NoRepeats(files);
    }
  }

  /** The ways a queue is thinned: for health, in an emergency, or for space. */
  datatype Cut =
    | ByHealth(ok: Removes)
    | ByRatio(keepRatio: real, ok: Removes)
    | BySpace(space: nat -> bool, ok: Removes)

  ghost function Apply(c: Config, s: QueueState, cut: Cut): QueueState {
    match cut
    case ByHealth(ok) => Thin(c, s, ok)
    case ByRatio(ratio, ok) => EmergencyThin(c, s, ratio, ok)
    case BySpace(space, ok) => ThinForSpace(s, space, ok)
  }

  ghost function ApplyAll(c: Config, s: QueueState, cuts: seq<Cut>): QueueState {
    if cuts == [] then s else Apply(c, ApplyAll(c, s, cuts[..|cuts|-1]), cuts[|cuts|-1])
  }

  /** What a cut tries to remove. */
  ghost function Victims(c: Config, s: QueueState, cut: Cut): set<int> {
    var files := Listing(s);
    match cut
    case ByHealth(_) => FilesAt(files, ThinPositions(c, s.health, |files|))
    case ByRatio(ratio, _) => Oldest(files, EmergencyCount(|files|, ratio))
    case BySpace(space, _) => SpaceVictims(files, space)
  }

  lemma LastNotAmong(files: seq<int>, positions: set<int>)
    requires Increasing(files) && files != [] && |files| - 1 !in positions
    ensures files[|files|-1] !in FilesAt(files, positions)
  {
    NoRepeats(files);
  }

  lemma LastNotAmongFirst(files: seq<int>, k: nat)
    requires Increasing(files) && k < |files|
    ensures files[|files|-1] !in Oldest(files, k)
  {
    NoRepeats(files);
  }

  lemma NewestNotVictim(c: Config, s: QueueState, cut: Cut)
    requires s.dir.Keys != {} && (cut.ByHealth? ==> SparesNewest(c))
    ensures Last(s.dir.Keys) !in Victims(c, s, cut)
  {
    var files := Listing(s);
    SortedListing(s.dir.Keys);
    SortedEnds(s.dir.Keys);
    match cut {
      case ByHealth(_) =>
        NewestSpared(c, s.health, |files|);
        LastNotAmong(files, ThinPositions(c, s.health, |files|));
      case ByRatio(ratio, _) => LastNotAmongFirst(files, EmergencyCount(|files|, ratio));
      case BySpace(space, _) =>
        if |files| > 1 {
          LastNotAmongFirst(files, Attempts(space, 0, |files| - 1));
        }
    }
  }

  lemma CutTakesVictims(c: Config, s: QueueState, cut: Cut)
    ensures exists gone :: gone <= Victims(c, s, cut) && Apply(c, s, cut).dir == s.dir - gone
  {
    var gone := Gone(s, Victims(c, s, cut), cut.ok);
    if gone == {} {
      assert s.dir - gone == s.dir;
    }
    assert gone <= Victims(c, s, cut) && Apply(c, s, cut).dir == s.dir - gone;
  }

  /** What a cut leaves contains the image listed last, and it stays last. */
  lemma CutSparesLast(c: Config, s: QueueState, cut: Cut)
    requires s.dir.Keys != {} && (cut.ByHealth? ==> SparesNewest(c))
    ensures var t := Apply(c, s, cut);
            t.dir.Keys != {} && t.dir.Keys <= s.dir.Keys && Last(t.dir.Keys) == Last(s.dir.Keys)
  {
    NewestNotVictim(c, s, cut);
    CutTakesVictims(c, s, cut);
    var gone :| gone <= Victims(c, s, cut) && Apply(c, s, cut).dir == s.dir - gone;
    var keys := Apply(c, s, cut).dir.Keys;
    assert keys == s.dir.Keys - gone;
    assert IsLast(Last(s.dir.Keys), keys);
    OneLast(Last(s.dir.Keys), keys);
  }

  /** The image listed last survives any number of cuts of any kind, whatever removes fail. */
  lemma {:induction false} LastSurvives(c: Config, s: QueueState, cuts: seq<Cut>)
    requires SparesNewest(c) && s.dir.Keys != {}
    ensures var t := ApplyAll(c, s, cuts);
            t.dir.Keys != {} && t.dir.Keys <= s.dir.Keys && Last(t.dir.Keys) == Last(s.dir.Keys)
  {
    if cuts != [] {
      LastSurvives(c, s, cuts[..|cuts|-1]);
      CutSparesLast(c, ApplyAll(c, s, cuts[..|cuts|-1]), cuts[|cuts|-1]);
    }
  }

  /**
   * The newest image survives every mix of cuts if and only if it is the one listed last, which it
   * is while name order is time order.
   */
  lemma NewestSurvivesIff(c: Config, s: QueueState)
    requires SparesNewest(c) && s.dir.Keys != {}
    ensures SurvivesAll(c, s, Max(s.dir.Keys)) <==> Max(s.dir.Keys) == Last(s.dir.Keys)
    ensures Aligned(s.dir.Keys) ==> Max(s.dir.Keys) == Last(s.dir.Keys)
  {
    if Aligned(s.dir.Keys) {
      AlignedEnds(s.dir.Keys);
    }
    if Max(s.dir.Keys) == Last(s.dir.Keys) {
      forall cuts ensures Last(s.dir.Keys) in ApplyAll(c, s, cuts).dir {
        LastSurvives(c, s, cuts);
      }
    } else {
      HarshCut(c, s);
    }
  }

  ghost predicate SurvivesAll(c: Config, s: QueueState, k: int) {
    forall cuts :: k in ApplyAll(c, s, cuts).dir
  }

  lemma KeepsOne(n: nat)
    requires n > 0
    ensures EmergencyKeep(n, 0.0) == 1
  {
    assert (n as real * 0.0).Floor == 0;
  }

  /** The harshest emergency thin leaves the last file alone. */
  lemma OnlyLastStays(c: Config, s: QueueState)
    requires s.dir.Keys != {}
    ensures EmergencyThin(c, s, 0.0, _ => true).dir.Keys == {Last(s.dir.Keys)}
  {
    var files := Listing(s);
    SortedEnds(s.dir.Keys);
    EmergencyIsExact(c, s, 0.0);
    KeepsOne(|files|);
    assert files[|files| - 1..] == [Last(s.dir.Keys)];
  }

  lemma HarshCut(c: Config, s: QueueState)
    requires s.dir.Keys != {}
    ensures ApplyAll(c, s, [ByRatio(0.0, _ => true)]).dir.Keys == {Last(s.dir.Keys)}
  {
    var harsh := [ByRatio(0.0, _ => true)];
    OnlyLastStays(c, s);
    assert harsh[..0] == [];
    assert ApplyAll(c, s, harsh) == Apply(c, s, harsh[0]);
  }

  lemma EmergencyTakes(c: Config, s: QueueState, keepRatio: real)
    ensures var files, t := Listing(s), EmergencyThin(c, s, keepRatio, _ => true);
            t.dir == s.dir - Elements(files[..EmergencyCount(|files|, keepRatio)])
  {
    var files := Listing(s);
    var k := EmergencyCount(|files|, keepRatio);
    SortedListing(s.dir.Keys);
    SplitListing(files, k);
    var oldest := Oldest(files, k);
    AllGo(s, oldest);
    ThinAndCheckTakes(c, s, oldest);
  }

  /** How many images an emergency thin of n keeps: the rounded-down share, but at least one. */
  function EmergencyKeep(n: nat, keepRatio: real): (kept: nat)
    ensures kept <= n && (n > 0 ==> kept >= 1)
  {
    var share := (n as real * keepRatio).Floor;
    if share >= n then n else if share >= 1 then share else if n == 0 then 0 else 1
  }

  /** When removes succeed, an emergency thin keeps exactly the newest share, and at least one image. */
  lemma EmergencyIsExact(c: Config, s: QueueState, keepRatio: real)
    ensures var files, t := Listing(s), EmergencyThin(c, s, keepRatio, _ => true);
            t.dir.Keys == Elements(files[|files| - EmergencyKeep(|files|, keepRatio)..])
  {
    var files := Listing(s);
    var n, k := |files|, EmergencyCount(|files|, keepRatio);
    assert k == n - EmergencyKeep(n, keepRatio);
    EmergencyTakes(c, s, keepRatio);
    SortedListing(s.dir.Keys);
    SplitListing(files, k);
  }

  lemma SplitListing(files: seq<int>, k: nat)
    requires Increasing(files) && k <= |files|
    ensures Elements(files) - Elements(files[..k]) == Elements(files[k..]) && Elements(files[..k]) <= Elements(files)
  {
    assert files == files[..k] + files[k..];
    assert forall x :: x in files <==> x in files[..k] || x in files[k..];
    NoRepeats(files);
    forall x | x in files[..k] ensures x !in files[k..] {
      var i :| 0 <= i < k && files[i] == x;
    }
  }

  /** Space recovery goes on exactly until a reading suffices or only the newest file is left. */
  lemma {:induction false} AttemptsStopInTime(space: nat -> bool, i: nat, limit: nat)
    requires i < limit
    ensures var n := Attempts(space, i, limit);
            && i < n <= limit
            && (forall j :: i <= j < n - 1 ==> !space(j))
            && (n < limit ==> space(n - 1))
    decreases limit - i
  {
    if !space(i) && i + 1 < limit {
      AttemptsStopInTime(space, i + 1, limit);
    }
  }

  /** No image young enough is listed before one that is not. */
  ghost predicate StaleFirst(c: Config, now: int, keys: set<int>) {
    forall a, b :: a in keys && b in keys && !IsStale(c, now, a) && IsStale(c, now, b) ==> !Before(a, b)
  }

  lemma ExpirableMeans(c: Config, s: QueueState, now: int)
    ensures var keys := Expirable(c, s, now);
            && keys <= s.dir.Keys
            && (forall k :: k in keys ==> IsStale(c, now, k))
            && ((forall k :: k in s.dir && IsStale(c, now, k) ==> k in keys) <==> StaleFirst(c, now, s.dir.Keys))
  {
    var files := Listing(s);
    var n := StalePrefix(c, now, files);
    SortedListing(s.dir.Keys);
    StalePrefixStops(c, now, files);
    SplitListing(files, n);
    if StaleFirst(c, now, s.dir.Keys) {
      forall k | k in s.dir && IsStale(c, now, k) ensures k in files[..n] {
        StaleIsListedEarly(c, now, s.dir.Keys, files, n, k);
      }
    }
    if forall k :: k in s.dir && IsStale(c, now, k) ==> k in Elements(files[..n]) {
      forall a, b | a in s.dir && b in s.dir && !IsStale(c, now, a) && IsStale(c, now, b) ensures !Before(a, b) {
        assert b in files[..n] && a in Elements(files) && a !in files[..n];
        ListedBefore(files, n, b, a);
      }
    }
  }

  lemma InPrefix(files: seq<int>, n: nat, j: nat)
    requires n <= |files| && j < |files|
    ensures j < n ==> files[j] in files[..n]
  {
    if j < n {
      assert files[..n][j] == files[j];
    }
  }

  lemma ListedLater(files: seq<int>, n: nat, j: nat)
    requires Increasing(files) && n < |files| && j < |files|
    ensures n < j ==> Before(files[n], files[j])
  {
  }

  lemma ListedBefore(files: seq<int>, n: nat, b: int, a: int)
    requires Increasing(files) && n <= |files| && b in files[..n] && a in files && a !in files[..n]
    ensures !Before(a, b)
  {
    var i: nat :| i < n && files[i] == b;
    var j: nat :| j < |files| && files[j] == a;
    InPrefix(files, n, j);
    BeforeTotal(a, b);
  }

  lemma StaleIsListedEarly(c: Config, now: int, keys: set<int>, files: seq<int>, n: nat, k: int)
    requires Increasing(files) && Elements(files) == keys && n <= |files|
    requires n < |files| ==> !IsStale(c, now, files[n])
    requires StaleFirst(c, now, keys) && k in keys && IsStale(c, now, k)
    ensures k in files[..n]
  {
    assert k in Elements(files);
    var j: nat :| j < |files| && files[j] == k;
    if n < |files| {
      ListedLater(files, n, j);
      assert files[n] in Elements(files);
    }
    InPrefix(files, n, j);
  }

  /**
   * When removes succeed, expiry takes nothing younger than the cutoff, and leaves nothing older if
   * and only if no image young enough is listed before one that is not.
   */
  lemma ExpiryLeavesNoStaleIff(c: Config, s: QueueState, now: int)
    ensures var t := Expire(c, s, now, _ => true);
            && (forall k :: k in s.dir && !IsStale(c, now, k) ==> k in t.dir)
            && t.dir.Keys <= s.dir.Keys
            && ((forall k :: k in t.dir ==> !IsStale(c, now, k)) <==> StaleFirst(c, now, s.dir.Keys))
  {
    ExpirableMeans(c, s, now);
    AllGo(s, Expirable(c, s, now));
  }

  /** The same in digits: no stale time is above the first digits of a fresh one with a longer name. */
  lemma StaleFirstIff(c: Config, now: int, keys: set<int>)
    requires Modern(keys)
    ensures StaleFirst(c, now, keys) <==>
            forall a, b :: a in keys && b in keys && !IsStale(c, now, a) && IsStale(c, now, b) ==>
              b <= Lead(a, Prefix(b, a))
  {
    forall a, b | a in keys && b in keys && !IsStale(c, now, a) && IsStale(c, now, b)
      ensures !Before(a, b) <==> b <= Lead(a, Prefix(b, a))
    {
      NameOrderIff(b, a);
      BeforeTotal(a, b);
    }
  }

  /** While name order is time order, expiry removes exactly the images older than the cutoff. */
  lemma ExpiryIsExact(c: Config, s: QueueState, now: int)
    requires Aligned(s.dir.Keys)
    ensures var t := Expire(c, s, now, _ => true);
            forall k :: k in t.dir <==> k in s.dir && k * MILLI >= now - c.maxAge
  {
    forall a, b | a in s.dir && b in s.dir && !IsStale(c, now, a) && IsStale(c, now, b) ensures !Before(a, b) {
      BeforeTotal(a, b);
    }
    ExpiryLeavesNoStaleIff(c, s, now);
  }

  // ----- what a clock that starts at 1970 does

  /**
   * An image from seconds 500 to 1000 after 1970, before the clock was set, beside one of 2001 to
   * 2128: expiry does not get to it, and it is handed out as the newest.
   */
  lemma EarlyImageStays(c: Config, s: QueueState, now: int, a: nat, b: nat)
    requires 500_000 <= a < 1_000_000 && 1_000_000_000_000 <= b < 5_000_000_000_000
    requires s.dir.Keys == {a, b} && s.count == 2 && !IsStale(c, now, b)
    ensures a in Expire(c, s, now, _ => true).dir
    ensures Dequeue(s, false) == Some(Image(b, s.dir[b])) && Dequeue(s, true) == Some(Image(a, s.dir[a]))
  {
    EarlyClockSortsLate(a, b);
    OneFirst(b, s.dir.Keys);
    OneLast(a, s.dir.Keys);
    SortedEnds(s.dir.Keys);
    assert Listing(s)[0] == b;
    assert StalePrefix(c, now, Listing(s)) == 0;
    assert Expirable(c, s, now) == {};
  }

  const EARLY: int := 500_000
  const Early := Offer(EARLY * MILLI, 500, EARLY * MILLI, true, _ => true, _ => true, Written, _ => true, Written)

  lemma StoredThere(c: Config, s: QueueState, e: Offer)
    requires !s.paused && !c.pauseOnCritical && c.maxAge >= 0
    requires e.size >= MIN_IMAGE_BYTES && e.now == e.obs && e.spaceBefore && e.write1 == Written
    requires e.obs / MILLI !in s.dir
    ensures var t := Enqueue(c, s, e).0;
            t.dir == s.dir[e.obs / MILLI := e.size] && t.count == s.count + 1 && !t.paused
  {
    assert SlotFor(s.dir, e.obs) == e.obs / MILLI;
    EnqueueIsFinish(c, s, e);
  }

  lemma TwoOffers(c: Config, s: QueueState)
    requires s.dir == map[] && s.count == 0 && !s.paused && !c.pauseOnCritical && c.maxAge >= 0
    ensures var t := Enqueue(c, Enqueue(c, s, Early).0, Retaken).0;
            t.dir == map[EARLY := 500, REUSED := 500] && t.count == 2
  {
    StoredThere(c, s, Early);
    StoredThere(c, Enqueue(c, s, Early).0, Retaken);
  }

  /** A run that gets there: one image before the clock is set, one after; the first is stale and stays. */
  lemma EarlyImageIsReached(c: Config, early: Op, late: Op, now: int)
    requires !c.pauseOnCritical && 0 <= c.maxAge < (REUSED - EARLY) * MILLI
    requires early == DoEnqueue(Early) && late == DoEnqueue(Retaken) && now == REUSED * MILLI
    ensures GenuineRun(c, map[], [early, late])
    ensures var s := Run(c, map[], [early, late]);
            && EARLY in s.dir && IsStale(c, now, EARLY)
            && EARLY in Expire(c, s, now, _ => true).dir
            && Dequeue(s, false).Some? && Dequeue(s, false).value.ms == REUSED
  {
    RunOfThree(c, map[], early, late, late);
    TwoOffers(c, Run(c, map[], []));
    var s := Run(c, map[], [early, late]);
    assert s.dir.Keys == {EARLY, REUSED};
    EarlyImageStays(c, s, now, EARLY, REUSED);
  }

  /** A dequeue hands out the true oldest, or the true newest, exactly when the listing starts, or ends, with it. */
  lemma DequeueIsOldestIff(s: QueueState)
    requires s.count > 0 && s.dir.Keys != {} && Modern(s.dir.Keys)
    ensures Dequeue(s, false).Some? && Dequeue(s, true).Some?
    ensures Dequeue(s, false).value.ms == Min(s.dir.Keys) <==>
            forall k :: k in s.dir && k > Min(s.dir.Keys) ==> Min(s.dir.Keys) <= Lead(k, Prefix(Min(s.dir.Keys), k))
    ensures Dequeue(s, true).value.ms == Max(s.dir.Keys) <==>
            forall k :: k in s.dir && k < Max(s.dir.Keys) ==> k <= Lead(Max(s.dir.Keys), Prefix(k, Max(s.dir.Keys)))
  {
    FirstIsOldestIff(s.dir.Keys);
    LastIsNewestIff(s.dir.Keys);
    assert s.dir != map[];
  }
}

/**
 * What the queue's operations do, in plain numbers: thresholds times limits, bytes, seconds, and
 * which files of the listing stay.
 */
module QueueLaws {
  import opened Common
  import opened FileNames
  import opened Directory
  import opened Thinning
  import opened QueueSpec
  import opened QueueRuns
  import opened QueueCuts

  // ----- capacity, health and the pause

  /** The queue is at or over a threshold, by images or by bytes; a limit of zero or less is no limit. */
  predicate AtLeast(c: Config, count: int, bytes: int, threshold: real) {
    || threshold <= 0.0
    || (c.maxFiles > 0 && count as real >= threshold * c.maxFiles as real)
    || (c.maxSizeMB > 0 && bytes as real >= threshold * (c.maxSizeMB * 1_048_576) as real)
  }

  lemma QuotientAtLeast(a: real, m: real, threshold: real)
    requires m > 0.0
    ensures a / m >= threshold <==> a >= threshold * m
  {
    assert a / m * m == a;
    if a / m >= threshold {
      assert (a / m - threshold) * m >= 0.0;
    } else {
      assert (threshold - a / m) * m > 0.0;
    }
  }

  lemma CapacityAtLeast(c: Config, count: int, bytes: int, threshold: real)
    requires count >= 0 && bytes >= 0
    ensures Capacity(c, count, bytes) >= threshold <==> AtLeast(c, count, bytes, threshold)
  {
    if c.maxFiles > 0 {
      QuotientAtLeast(count as real, c.maxFiles as real, threshold);
      QuotientAtLeast(count as real, c.maxFiles as real, 0.0);
    }
    if c.maxSizeMB > 0 {
      QuotientAtLeast(bytes as real, (c.maxSizeMB * 1_048_576) as real, threshold);
      QuotientAtLeast(bytes as real, (c.maxSizeMB * 1_048_576) as real, 0.0);
    }
  }

  /** The level of a queue: the highest of the thresholds it is at. */
  predicate LevelIs(c: Config, s: QueueState) {
    && (s.health == Critical <==> AtLeast(c, s.count, s.bytes, c.critical))
    && (s.health == Degraded <==>
          !AtLeast(c, s.count, s.bytes, c.critical) && AtLeast(c, s.count, s.bytes, c.degraded))
    && (s.health == CatchingUp <==>
          && !AtLeast(c, s.count, s.bytes, c.critical) && !AtLeast(c, s.count, s.bytes, c.degraded)
          && AtLeast(c, s.count, s.bytes, c.catchingUp))
  }

  /** A health check: the level, and the pause, which a critical queue starts and resume ends. */
  lemma HealthFate(c: Config, s: QueueState)
    requires s.count >= 0 && s.bytes >= 0
    ensures var t := UpdateHealth(c, s);
            && LevelIs(c, t)
            && (t.paused <==>
                  && (s.paused || (c.pauseOnCritical && AtLeast(c, s.count, s.bytes, c.critical)))
                  && AtLeast(c, s.count, s.bytes, c.resume))
            && t.dir == s.dir && t.count == s.count && t.bytes == s.bytes
            && t.oldest == s.oldest && t.newest == s.newest
            && t.h.readings == s.h.readings + [HealthCheck(Capacity(c, s.count, s.bytes))]
  {
    CapacityAtLeast(c, s.count, s.bytes, c.critical);
    CapacityAtLeast(c, s.count, s.bytes, c.degraded);
    CapacityAtLeast(c, s.count, s.bytes, c.catchingUp);
    CapacityAtLeast(c, s.count, s.bytes, c.resume);
  }

  /** A resume check ends the pause of a queue below the resume threshold, and does nothing else. */
  lemma ResumeFate(c: Config, s: QueueState)
    requires s.count >= 0 && s.bytes >= 0
    ensures var t := TryResume(c, s);
            && t.paused == (s.paused && AtLeast(c, s.count, s.bytes, c.resume))
            && t == s.(paused := t.paused, h := t.h)
            && t.h == s.h.(readings := s.h.readings + [ResumeCheck(Capacity(c, s.count, s.bytes))])
  {
    CapacityAtLeast(c, s.count, s.bytes, c.resume);
  }

  // ----- refusals

  /** Which offers are refused, and why; the first reason that applies. */
  lemma RefusalFate(c: Config, s: QueueState, e: Offer)
    ensures var result := Enqueue(c, s, e).1;
            && (result == CapturePaused <==> s.paused)
            && (result == InvalidImage <==> !s.paused && e.size < 100)
            && (result == FromFuture <==> !s.paused && e.size >= 100 && e.obs > e.now + 5_000_000_000)
            && (result == TooOld <==>
                  !s.paused && e.size >= 100 && e.obs <= e.now + 5_000_000_000 && e.now - e.obs > c.maxAge)
  {
    OfferOutcome(c, s, e);
  }

  // ----- thinning in numbers

  /** What an unhealthy queue is thinned to: four, six or eight tenths of the file limit. */
  function Target(c: Config, health: Health): int {
    match health
    case Critical => 4 * c.maxFiles / 10
    case Degraded => 6 * c.maxFiles / 10
    case CatchingUp => 8 * c.maxFiles / 10
    case Healthy => 0
  }

  /** Whether a queue of n images is thinned at all. */
  predicate Thins(c: Config, health: Health, n: nat) {
    c.thinningEnabled && health != Healthy && n > 0 && n > Target(c, health)
  }

  /** The protected ends: as configured, or a quarter each when those would cover the queue. */
  function FirstKept(c: Config, n: nat): nat {
    if c.protectOldest + c.protectNewest >= n then n / 4 else c.protectOldest
  }

  function LastKept(c: Config, n: nat): nat {
    if c.protectOldest + c.protectNewest >= n then n / 4 else c.protectNewest
  }

  /** How many images a thinned queue keeps: the target, or the protected ends when these are more. */
  function Left(c: Config, health: Health, n: nat): int {
    var ends := FirstKept(c, n) + LastKept(c, n);
    if Target(c, health) > ends then Target(c, health) else ends
  }

  lemma ThinNumbers(c: Config, health: Health, n: nat)
    ensures FirstKept(c, n) == KeepOldest(c, n) && LastKept(c, n) == KeepNewest(c, n)
    ensures Target(c, health) == TargetCount(c, health)
    ensures !Thins(c, health, n) ==> ThinCount(c, health, n) == 0
    ensures Thins(c, health, n) ==>
              FirstKept(c, n) + LastKept(c, n) < n && ThinCount(c, health, n) == n - Left(c, health, n) > 0
  {
  }

  lemma NothingPicked(c: Config, s: QueueState)
    requires ThinCount(c, s.health, |Listing(s)|) == 0
    ensures Thin(c, s, _ => true) == s
  {
    ThinSelection(c, s);
    var files := Listing(s);
    assert FilesAt(files, ThinPositions(c, s.health, |files|)) == {};
  }

  /**
   * Thinning when removes succeed: a queue above its target keeps exactly the target, or its
   * protected ends when these are more, and these whole; any other queue keeps everything.
   */
  lemma ThinFate(c: Config, s: QueueState)
    requires Counted(s)
    ensures var files, t := Listing(s), Thin(c, s, _ => true);
            var n := |files|;
            && (!Thins(c, s.health, n) ==> t == s)
            && (Thins(c, s.health, n) ==> t.count == Left(c, s.health, n))
            && (forall p :: 0 <= p < n && (p < FirstKept(c, n) || p >= n - LastKept(c, n)) ==> files[p] in t.dir)
  {
    var n := |Listing(s)|;
    ThinNumbers(c, s.health, n);
    ThinIsExact(c, s);
    if !Thins(c, s.health, n) {
      NothingPicked(c, s);
    }
  }

  /** The position of the i-th of r removals, out of l positions from the first on. */
  function Pick(first: nat, l: nat, r: nat, i: nat): nat
    requires r > 0
  {
    first + i * l / r
  }

  lemma PickBound(first: nat, l: nat, r: nat, i: nat)
    requires i < r <= l
    ensures Pick(first, l, r, i) == first + ThinIndex(i, l, r) < first + l
  {
    ThinLast(i, l, r);
  }

  lemma PicksAre(c: Config, health: Health, n: nat, first: nat, l: nat, r: nat)
    requires first == KeepOldest(c, n) && l == MiddleLength(c, n) && 0 < r == ThinCount(c, health, n) <= l
    ensures forall p :: p in ThinPositions(c, health, n) <==> exists i: nat :: i < r && p == Pick(first, l, r, i)
  {
    forall i: nat | i < r ensures Pick(first, l, r, i) == first + ThinIndex(i, l, r) {
      PickBound(first, l, r, i);
    }
  }

  lemma PickSizes(c: Config, health: Health, n: nat)
    requires Thins(c, health, n)
    ensures var r, l := n - Left(c, health, n), n - FirstKept(c, n) - LastKept(c, n);
            0 < r == ThinCount(c, health, n) <= l == MiddleLength(c, n)
  {
    ThinNumbers(c, health, n);
  }

  lemma RemovedAre(files: seq<int>, positions: set<int>, first: nat, l: nat, r: nat, k: int)
    requires 0 < r <= l && first + l <= |files|
    requires forall p :: p in positions <==> exists i: nat :: i < r && p == Pick(first, l, r, i)
    ensures forall i: nat :: i < r ==> Pick(first, l, r, i) < |files|
    ensures k in FilesAt(files, positions) <==> exists i: nat :: i < r && k == files[Pick(first, l, r, i)]
  {
    forall i: nat | i < r ensures Pick(first, l, r, i) < |files| {
      PickBound(first, l, r, i);
    }
    if k in FilesAt(files, positions) {
      var p :| p in positions && 0 <= p < |files| && k == files[p];
      var i: nat :| i < r && p == Pick(first, l, r, i);
      assert k == files[Pick(first, l, r, i)];
    }
    forall i: nat | i < r && k == files[Pick(first, l, r, i)] ensures k in FilesAt(files, positions) {
      assert Pick(first, l, r, i) in positions;
    }
  }

  /** And which ones go: of l images between the ends, for r removals, the i-th at i * l / r rounded down. */
  lemma ThinPicks(c: Config, s: QueueState, k: int)
    requires Counted(s) && Thins(c, s.health, |Listing(s)|) && k in s.dir
    ensures var files := Listing(s);
            var first, r := FirstKept(c, |files|), |files| - Left(c, s.health, |files|);
            var l := |files| - first - LastKept(c, |files|);
            && 0 < r <= l
            && (forall i: nat :: i < r ==> Pick(first, l, r, i) < |files|)
            && (k !in Thin(c, s, _ => true).dir <==> exists i: nat :: i < r && k == files[Pick(first, l, r, i)])
  {
    var n := |Listing(s)|;
    var first, l, r := FirstKept(c, n), n - FirstKept(c, n) - LastKept(c, n), n - Left(c, s.health, n);
    ThinNumbers(c, s.health, n);
    PickSizes(c, s.health, n);
    PicksAre(c, s.health, n, first, l, r);
    ThinVictims(c, s);
    RemovedAre(Listing(s), ThinPositions(c, s.health, n), first, l, r, k);
  }

  // ----- emergency thinning and space recovery in numbers

  /** The newest share of n images, rounded down, but at least one. */
  function Newest(n: nat, share: real): nat {
    var k := (n as real * share).Floor;
    if n == 0 then 0 else if k < 1 then 1 else if k > n then n else k
  }

  lemma ThreeTenths(n: nat)
    ensures Newest(n, 0.3) == (if n == 0 then 0 else if 3 * n / 10 < 1 then 1 else 3 * n / 10)
  {
    var k := 3 * n / 10;
    assert k as real <= n as real * 0.3 < (k + 1) as real;
  }

  lemma OneHalf(n: nat)
    ensures Newest(n, 0.5) == (if n == 0 then 0 else if n / 2 < 1 then 1 else n / 2)
  {
    var k := n / 2;
    assert k as real <= n as real * 0.5 < (k + 1) as real;
  }

  lemma KeepIsNewest(n: nat, share: real)
    ensures EmergencyKeep(n, share) == Newest(n, share) <= n
    ensures EmergencyCount(n, share) == n - Newest(n, share)
  {
  }

  /** Removing the start of a listing leaves its end, as it was. */
  lemma EndIsLeft(s: QueueState, t: QueueState, n: nat)
    requires n <= |Listing(s)| && t.dir == s.dir - Elements(Listing(s)[..n])
    ensures t.dir.Keys == Elements(Listing(s)[n..]) && Listing(t) == Listing(s)[n..]
  {
    var files := Listing(s);
    SortedListing(s.dir.Keys);
    SplitListing(files, n);
    assert t.dir.Keys == s.dir.Keys - Elements(files[..n]);
    ListingUnique(files[n..]);
  }

  /** The removes of a loop that all succeed. */
  ghost predicate AllWork(ok: Removes) {
    forall k :: ok(k)
  }

  lemma WorkingRemoves(c: Config, s: QueueState, share: real, space: nat -> bool, ok: Removes)
    requires AllWork(ok)
    ensures EmergencyThin(c, s, share, ok) == EmergencyThin(c, s, share, _ => true)
    ensures ThinForSpace(s, space, ok) == ThinForSpace(s, space, _ => true)
  {
    SameGone(s, Oldest(Listing(s), EmergencyCount(|Listing(s)|, share)), ok);
    SameGone(s, SpaceVictims(Listing(s), space), ok);
  }

  lemma SameGone(s: QueueState, victims: set<int>, ok: Removes)
    requires AllWork(ok)
    ensures Gone(s, victims, ok) == Gone(s, victims, _ => true)
  {
    forall k | k in victims && k in s.dir ensures k in Gone(s, victims, ok) {
      assert ok(k);
    }
  }

  /** An emergency thin whose removes succeed leaves exactly the newest share of the listing. */
  lemma EmergencyFate(c: Config, s: QueueState, share: real, ok: Removes)
    requires AllWork(ok)
    ensures Newest(|Listing(s)|, share) <= |Listing(s)|
    ensures var files, t := Listing(s), EmergencyThin(c, s, share, ok);
            var end := files[|files| - Newest(|files|, share)..];
            t.dir.Keys == Elements(end) && Listing(t) == end && forall k :: k in t.dir ==> t.dir[k] == s.dir[k]
  {
    var n := |Listing(s)|;
    WorkingRemoves(c, s, share, _ => true, ok);
    KeepIsNewest(n, share);
    EmergencyTakes(c, s, share);
    EndIsLeft(s, EmergencyThin(c, s, share, ok), n - Newest(n, share));
  }

  /** Recovery stops after n attempts: at the first sufficient reading, or with one file left. */
  ghost predicate StopsAfter(space: nat -> bool, n: nat, files: nat) {
    if files <= 1 then n == 0
    else
      && 1 <= n <= files - 1
      && (forall j: nat :: j < n - 1 ==> !space(j))
      && (n < files - 1 ==> space(n - 1))
  }

  lemma {:induction false} AttemptsAre(space: nat -> bool, i: nat, limit: nat, n: nat)
    requires i < n <= limit
    requires forall j: nat :: i <= j < n - 1 ==> !space(j)
    requires n < limit ==> space(n - 1)
    ensures Attempts(space, i, limit) == n
    decreases limit - i
  {
    if i < n - 1 {
      assert !space(i);
      AttemptsAre(space, i + 1, limit, n);
    }
  }

  lemma StopExists(space: nat -> bool, files: nat) returns (n: nat)
    ensures StopsAfter(space, n, files)
  {
    if files <= 1 {
      n := 0;
    } else {
      n := Attempts(space, 0, files - 1);
      AttemptsStopInTime(space, 0, files - 1);
    }
  }

  lemma VictimsAre(files: seq<int>, space: nat -> bool, n: nat)
    requires StopsAfter(space, n, |files|)
    ensures n <= |files| && SpaceVictims(files, space) == Elements(files[..n])
  {
    if |files| >= 2 {
      AttemptsAre(space, 0, |files| - 1, n);
    }
  }

  lemma RecoveryTakes(s: QueueState, space: nat -> bool)
    ensures var gone := SpaceVictims(Listing(s), space);
            gone <= s.dir.Keys ==> ThinForSpace(s, space, _ => true).dir == s.dir - gone
  {
    var gone := SpaceVictims(Listing(s), space);
    if gone <= s.dir.Keys {
      AllGo(s, gone);
    }
  }

  /**
   * Space recovery whose removes succeed leaves exactly the files after the last attempt: it goes on
   * to the first reading that suffices, and no further.
   */
  lemma RecoveryFate(c: Config, s: QueueState, space: nat -> bool, ok: Removes, n: nat)
    requires AllWork(ok) && StopsAfter(space, n, |Listing(s)|)
    ensures n <= |Listing(s)|
    ensures var t, end := ThinForSpace(s, space, ok), Listing(s)[n..];
            t.dir.Keys == Elements(end) && Listing(t) == end && forall k :: k in t.dir ==> t.dir[k] == s.dir[k]
  {
    var files := Listing(s);
    SortedListing(s.dir.Keys);
    WorkingRemoves(c, s, 1.0, space, ok);
    VictimsAre(files, space, n);
    SplitListing(files, n);
    RecoveryTakes(s, space);
    EndIsLeft(s, ThinForSpace(s, space, ok), n);
  }

  lemma CleanedFate(c: Config, s: QueueState, e: Offer, n: nat)
    requires AllWork(e.spaceOk) && (if e.spaceBefore then n == 0 else StopsAfter(e.space, n, |Listing(s)|))
    ensures n <= |Listing(s)|
    ensures var s1, end := Cleared(s, e), Listing(s)[n..]; s1.dir.Keys == Elements(end) && Listing(s1) == end
  {
    if e.spaceBefore {
      SortedListing(s.dir.Keys);
      assert Listing(s)[0..] == Listing(s);
    } else {
      RecoveryFate(c, s, e.space, e.spaceOk, n);
    }
  }

  lemma WrittenFate(c: Config, s: QueueState, e: Offer)
    requires AllWork(e.cleanOk)
    ensures Newest(|Listing(s)|, 0.3) <= |Listing(s)|
    ensures var files := Listing(s);
            var kept := if e.write1 == NoSpace then files[|files| - Newest(|files|, 0.3)..] else files;
            WriteWithRetry(c, s, e).0.dir.Keys == Elements(kept)
  {
    EmergencyFate(c, s, 0.3, e.cleanOk);
    SortedListing(s.dir.Keys);
  }

  /**
   * What an accepted offer leaves when removes succeed: the files after the recovery, if space was
   * short; of these the newest three tenths, if the first write ran out of space; and the image, if
   * it was written, in the first free millisecond from its time on, as the recovery left it.
   */
  lemma EnqueueFate(c: Config, s: QueueState, e: Offer, n: nat)
    requires Refusal(c, s, e).None? && AllWork(e.spaceOk) && AllWork(e.cleanOk)
    requires if e.spaceBefore then n == 0 else StopsAfter(e.space, n, |Listing(s)|)
    ensures n <= |Listing(s)| && Newest(|Listing(s)| - n, 0.3) <= |Listing(s)| - n
    ensures var files := Listing(s)[n..];
            var kept := if e.write1 == NoSpace then files[|files| - Newest(|files|, 0.3)..] else files;
            var last := if e.write1 == NoSpace then e.write2 else e.write1;
            var slot := FreeSlot(Elements(files), e.obs / 1_000_000);
            Enqueue(c, s, e).0.dir.Keys == Elements(kept) + (if last == Written then {slot} else {})
  {
    var s1 := Cleared(s, e);
    CleanedFate(c, s, e, n);
    WrittenFate(c, s1, e);
    EnqueueIsFinish(c, s, e);
    FinishAdds(c, WriteWithRetry(c, s1, e).0, SlotFor(s1.dir, e.obs), e, LastWrite(e));
  }

  /** A dequeue hands out one end of the listing, with its size; nothing when the count is zero or no file is there. */
  lemma DequeueFate(s: QueueState, newestFirst: bool)
    ensures var files, img := Listing(s), Dequeue(s, newestFirst);
            && (img.None? <==> s.count == 0 || files == [])
            && (img.Some? ==>
                  && img.value.ms == (if newestFirst then files[|files|-1] else files[0])
                  && img.value.ms in s.dir && img.value.size == s.dir[img.value.ms])
  {
    SortedListing(s.dir.Keys);
    if s.dir.Keys == {} {
      assert s.dir == map[];
    } else {
      SortedEnds(s.dir.Keys);
    }
  }

  // ----- images leaving

  /** A file that cannot be removed leaves everything as it was. */
  lemma StuckFate(c: Config, s: QueueState, img: Image)
    ensures MarkUploaded(c, s, img, false) == Drop(c, s, img, false) == s
  {
  }

  /** Count and bytes of one file less, for the size remembered, and never below zero. */
  ghost predicate OneLess(s: QueueState, t: QueueState, img: Image) {
    && t.dir == s.dir - {img.ms} && t.h.listed == t.dir.Keys
    && t.count == (if s.count > 0 then s.count - 1 else 0)
    && t.bytes == (if s.bytes > img.size then s.bytes - img.size else 0)
    && t.queued == s.queued && t.thinned == s.thinned && t.expired == s.expired
  }

  /** An upload whose file is there takes it down and counts it; a drop takes it down and counts as a drop. */
  lemma UploadFate(c: Config, s: QueueState, img: Image)
    requires s.count >= 0 && s.bytes >= 0 && img.ms in s.dir
    ensures var t := MarkUploaded(c, s, img, true);
            && OneLess(s, t, img) && LevelIs(c, t)
            && t.uploaded == s.uploaded + 1
            && t.h == s.h.(takenDown := s.h.takenDown + 1, readings := t.h.readings, listed := t.h.listed)
  {
    SettledFate(c, s.(dir := s.dir - {img.ms}, count := Clamp(s.count - 1), bytes := Clamp(s.bytes - img.size),
                      uploaded := s.uploaded + 1, h := s.h.(takenDown := s.h.takenDown + 1)));
  }

  lemma DropFate(c: Config, s: QueueState, img: Image)
    requires s.count >= 0 && s.bytes >= 0 && img.ms in s.dir
    ensures var t := Drop(c, s, img, true);
            && OneLess(s, t, img) && LevelIs(c, t)
            && t.uploaded == s.uploaded
            && t.h == s.h.(dropped := s.h.dropped + 1, readings := t.h.readings, listed := t.h.listed)
  {
    SettledFate(c, s.(dir := s.dir - {img.ms}, count := if s.count > 0 then s.count - 1 else s.count,
                      bytes := if s.bytes >= img.size then s.bytes - img.size else 0,
                      h := s.h.(dropped := s.h.dropped + 1)));
  }

  /** The counters as the directory has them. */
  ghost predicate Rebuilt(s: QueueState, t: QueueState) {
    && t.dir == s.dir && t.h.listed == s.dir.Keys && t.count == |s.dir.Keys| && t.bytes == Total(s.dir)
    && t.queued == s.queued && t.thinned == s.thinned && t.expired == s.expired
  }

  /** When the file is gone already the counters are rebuilt; an upload still counts, as one already gone. */
  lemma GoneFate(c: Config, s: QueueState, img: Image)
    requires img.ms !in s.dir
    ensures var t := MarkUploaded(c, s, img, true);
            && Rebuilt(s, t) && LevelIs(c, t) && t.uploaded == s.uploaded + 1
            && t.h == s.h.(alreadyGone := s.h.alreadyGone + 1, readings := t.h.readings, listed := t.h.listed)
    ensures var t := Drop(c, s, img, true);
            && Rebuilt(s, t) && LevelIs(c, t) && t.uploaded == s.uploaded
            && t.h == s.h.(readings := t.h.readings, listed := t.h.listed)
  {
    SettledFate(c, Resync(s));
  }

  /** Settling checks the health and reads the ends back, and changes nothing else. */
  lemma SettledFate(c: Config, s: QueueState)
    requires s.count >= 0 && s.bytes >= 0
    ensures var t := Settled(c, s);
            && LevelIs(c, t) && t.dir == s.dir && t.count == s.count && t.bytes == s.bytes
            && t.queued == s.queued && t.uploaded == s.uploaded && t.thinned == s.thinned && t.expired == s.expired
            && t.h == s.h.(readings := t.h.readings, listed := s.dir.Keys)
  {
    HealthFate(c, Recalculate(s));
  }

  // ----- which counter counts what

  /** Files only went, all of them counted as thinned. */
  ghost predicate CountedThinned(s: QueueState, t: QueueState) {
    && t.dir.Keys <= s.dir.Keys && t.thinned == s.thinned + |s.dir.Keys| - |t.dir.Keys|
    && t.expired == s.expired && t.queued == s.queued && t.uploaded == s.uploaded
  }

  lemma TakenAreCounted(s: QueueState, gone: set<int>)
    requires gone <= s.dir.Keys
    ensures CountedThinned(s, ThinOut(s, gone))
  {
    TotalAfterRemoval(s.dir, gone);
  }

  lemma CheckedAreCounted(c: Config, s: QueueState, gone: set<int>)
    requires gone <= s.dir.Keys
    ensures CountedThinned(s, ThinAndCheck(c, s, gone))
  {
    TakenAreCounted(s, gone);
  }

  /** What thinning, emergency thinning and space recovery remove is counted as thinned, whatever fails. */
  lemma ThinnedFate(c: Config, s: QueueState, ok: Removes)
    ensures CountedThinned(s, Thin(c, s, ok))
  {
    CheckedAreCounted(c, s, Gone(s, FilesAt(Listing(s), ThinPositions(c, s.health, |Listing(s)|)), ok));
  }

  lemma EmergencyCounted(c: Config, s: QueueState, share: real, ok: Removes)
    ensures CountedThinned(s, EmergencyThin(c, s, share, ok))
  {
    CheckedAreCounted(c, s, Gone(s, Oldest(Listing(s), EmergencyCount(|Listing(s)|, share)), ok));
  }

  lemma RecoveryCounted(s: QueueState, space: nat -> bool, ok: Removes)
    ensures CountedThinned(s, ThinForSpace(s, space, ok))
  {
    TakenAreCounted(s, Gone(s, SpaceVictims(Listing(s), space), ok));
  }

  /** What expiry removes is counted as expired. */
  lemma ExpiredFate(c: Config, s: QueueState, now: int, ok: Removes)
    ensures var t := Expire(c, s, now, ok);
            && t.dir.Keys <= s.dir.Keys && t.expired == s.expired + |s.dir.Keys| - |t.dir.Keys|
            && t.thinned == s.thinned && t.queued == s.queued && t.uploaded == s.uploaded
  {
    var gone := Gone(s, Expirable(c, s, now), ok);
    ExpireIs(c, s, gone, now, ok);
    TotalAfterRemoval(s.dir, gone);
  }

  // ----- the health level stays current

  /** Space was short, files may have gone for it, and the image was not stored: the level is not looked at again. */
  ghost predicate Unchecked(c: Config, s: QueueState, op: Op) {
    op.DoEnqueue? && !op.offer.spaceBefore && Enqueue(c, s, op.offer).1 in {WriteError, Full}
  }

  lemma ThinnedLevel(c: Config, s: QueueState, gone: set<int>)
    requires Inv(c, s) && gone <= s.dir.Keys && LevelIs(c, s)
    ensures LevelIs(c, ThinAndCheck(c, s, gone))
  {
    if gone != {} {
      TakeOutCounts(s, gone);
      SettledFate(c, ThinOut(s, gone));
    }
  }

  lemma EnqueuedLevel(c: Config, s: QueueState, e: Offer)
    requires Inv(c, s) && LevelIs(c, s) && !Unchecked(c, s, DoEnqueue(e))
    ensures LevelIs(c, Enqueue(c, s, e).0)
  {
    if Refusal(c, s, e).None? {
      var s1 := Cleared(s, e);
      var s2 := WriteWithRetry(c, s1, e).0;
      var slot := SlotFor(s1.dir, e.obs);
      EnqueueIsFinish(c, s, e);
      FinishAdds(c, s2, slot, e, LastWrite(e));
      if LastWrite(e) == Written {
        ThinForSpaceKeeps(c, s, e.space, e.spaceOk);
        EmergencyThinKeeps(c, s1, RECOVERY_RATIO, e.cleanOk);
        StoredLevel(c, s2, slot, e.obs, e.size);
      } else {
        var files := Listing(s);
        ThinnedLevel(c, s, Gone(s, Oldest(files, EmergencyCount(|files|, RECOVERY_RATIO)), e.cleanOk));
      }
    }
  }

  lemma StoredLevel(c: Config, s: QueueState, slot: int, obs: int, size: nat)
    requires Counted(s)
    ensures LevelIs(c, Store(c, s, slot, obs, size))
  {
    var at := obs + (slot - obs / MILLI) * MILLI;
    HealthFate(c, s.(dir := s.dir[slot := size], count := s.count + 1, bytes := s.bytes + size, queued := s.queued + 1,
                     newest := if s.newest.None? || at > s.newest.value then Some(at) else s.newest,
                     oldest := if s.oldest.None? || at < s.oldest.value then Some(at) else s.oldest));
  }

  lemma LeavingLevel(c: Config, s: QueueState, img: Image, removable: bool)
    requires Inv(c, s) && LevelIs(c, s)
    ensures LevelIs(c, MarkUploaded(c, s, img, removable)) && LevelIs(c, Drop(c, s, img, removable))
  {
    if !removable {
      StuckFate(c, s, img);
    } else if img.ms in s.dir {
      UploadFate(c, s, img);
      DropFate(c, s, img);
    } else {
      GoneFate(c, s, img);
    }
  }

  lemma ExpiredLevel(c: Config, s: QueueState, now: int, ok: Removes)
    requires Inv(c, s) && LevelIs(c, s)
    ensures LevelIs(c, Expire(c, s, now, ok))
  {
    var gone := Gone(s, Expirable(c, s, now), ok);
    ExpireIs(c, s, gone, now, ok);
    if gone != {} {
      TakeOutCounts(s, gone);
      SettledFate(c, TakenOut(c, s, gone));
    }
  }

  lemma StepLevel(c: Config, s: QueueState, op: Op)
    requires Inv(c, s) && LevelIs(c, s) && !Unchecked(c, s, op)
    ensures LevelIs(c, Step(c, s, op))
  {
    var files := Listing(s);
    match op {
      case DoEnqueue(e) => EnqueuedLevel(c, s, e);
      case DoThin(ok) => ThinnedLevel(c, s, Gone(s, FilesAt(files, ThinPositions(c, s.health, |files|)), ok));
      case DoEmergencyThin(ratio, ok) =>
        ThinnedLevel(c, s, Gone(s, Oldest(files, EmergencyCount(|files|, ratio)), ok));
      case DoUpload(img, removable) => LeavingLevel(c, s, img, removable);
      case DoDrop(img, removable) => LeavingLevel(c, s, img, removable);
      case DoExpire(now, ok) => ExpiredLevel(c, s, now, ok);
      case DoTryResume => ResumeFate(c, s);
    }
  }

  /**
   * After any genuine run the health level is the one the counters stand for, unless some enqueue
   * was short of space and then failed.
   */
  lemma {:induction false} LevelIsCurrent(c: Config, dir: Files, ops: seq<Op>)
    requires GenuineRun(c, dir, ops)
    requires forall i :: 0 <= i < |ops| ==> !Unchecked(c, Run(c, dir, ops[..i]), ops[i])
    ensures LevelIs(c, Run(c, dir, ops))
  {
    if ops == [] {
      HealthFate(c, Recalculate(QueueState(dir, |dir.Keys|, Total(dir), None, None, Healthy, false, 0, 0, 0, 0,
                                           History(|dir.Keys|, 0, 0, 0, [], {}))));
    } else {
      var front, last := ops[..|ops|-1], ops[|ops|-1];
      assert forall i :: 0 <= i < |front| ==> front[i] == ops[i] && front[..i] == ops[..i];
      LevelIsCurrent(c, dir, front);
      RunKeeps(c, dir, front);
      assert ops[..|ops|-1] == front && !Unchecked(c, Run(c, dir, ops[..|ops|-1]), ops[|ops|-1]);
      StepLevel(c, Run(c, dir, front), last);
    }
  }
}

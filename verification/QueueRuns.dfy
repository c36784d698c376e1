/** What every run of the image queue keeps. */
module QueueRuns {
  import opened Common
  import opened FileNames
  import opened Directory
  import opened Thinning
  import opened QueueSpec

  // ----- invariants

  /** The counters agree with the directory. */
  ghost predicate Counted(s: QueueState) {
    s.count == |s.dir.Keys| && s.bytes == Total(s.dir)
  }

  /** The files stored since the ends were last read back. */
  ghost function Since(s: QueueState): set<int> {
    s.dir.Keys - s.h.listed
  }

  /** What the cached oldest was ever compared with: those, and the start of the listing then. */
  ghost function FirstSeen(s: QueueState): set<int> {
    Since(s) + if s.h.listed == {} then {} else {First(s.h.listed)}
  }

  ghost function LastSeen(s: QueueState): set<int> {
    Since(s) + if s.h.listed == {} then {} else {Last(s.h.listed)}
  }

  /** The cached ends are, to the millisecond, the least and the greatest of what they were compared with. */
  ghost predicate Stamped(s: QueueState) {
    && s.h.listed <= s.dir.Keys
    && if s.dir.Keys == {} then s.oldest.None? && s.newest.None?
       else
         && s.oldest.Some? && IsMin(s.oldest.value / MILLI, FirstSeen(s))
         && s.newest.Some? && IsMax(s.newest.value / MILLI, LastSeen(s))
  }

  predicate Balanced(s: QueueState) {
    && s.h.scanned + s.queued == s.count + s.thinned + s.expired + s.h.dropped + s.h.takenDown
    && s.uploaded == s.h.takenDown + s.h.alreadyGone
  }

  ghost predicate Consistent(s: QueueState) {
    Counted(s) && Stamped(s) && Balanced(s)
  }

  // ----- the latch

  /** Readings that pause capture. */
  predicate Trips(c: Config, r: Reading) {
    match r
    case HealthCheck(cap) => c.pauseOnCritical && cap >= c.critical && !(cap < c.resume)
    case ResumeCheck(_) => false
    case SpaceFailure => true
  }

  /** Readings that let capture go on. */
  predicate Clears(c: Config, r: Reading) {
    match r
    case HealthCheck(cap) => cap < c.resume
    case ResumeCheck(cap) => cap < c.resume
    case SpaceFailure => false
  }

  /** Some reading paused capture and none cleared it since. */
  ghost predicate Latched(c: Config, readings: seq<Reading>) {
    exists i :: 0 <= i < |readings| && Trips(c, readings[i])
                && forall j :: i < j < |readings| ==> !Clears(c, readings[j])
  }

  lemma LatchStep(c: Config, readings: seq<Reading>, r: Reading)
    ensures Latched(c, readings + [r]) <==> Trips(c, r) || (Latched(c, readings) && !Clears(c, r))
  {
    var all := readings + [r];
    var n := |readings|;
    assert all[n] == r;
    assert forall i :: 0 <= i < n ==> all[i] == readings[i];
    if Trips(c, r) {
      assert Trips(c, all[n]);
    }
    if Latched(c, readings) && !Clears(c, r) {
      var i :| 0 <= i < n && Trips(c, readings[i]) && forall j :: i < j < n ==> !Clears(c, readings[j]);
      assert Trips(c, all[i]);
    }
    if Latched(c, all) && !Trips(c, r) {
      var i :| 0 <= i < |all| && Trips(c, all[i]) && forall j :: i < j < |all| ==> !Clears(c, all[j]);
      assert Trips(c, readings[i]);
      assert !Clears(c, all[n]);
      assert forall j :: i < j < n ==> !Clears(c, all[j]);
    }
  }

  ghost predicate LatchExact(c: Config, s: QueueState) {
    s.paused <==> Latched(c, s.h.readings)
  }

  // ----- the capacity bound

  function Limit(c: Config): real {
    if c.critical > c.resume then c.critical else c.resume
  }

  function Ceil(x: real): int {
    -((-x).Floor)
  }

  /** The image count the pausing threshold stands for, rounded up. */
  function ImageBound(c: Config): int {
    Ceil(Limit(c) * c.maxFiles as real)
  }

  /** Capture going on means there is room below the limit. */
  predicate Roomy(c: Config, s: QueueState) {
    c.pauseOnCritical && !s.paused ==> CapacityOf(c, s) < Limit(c)
  }

  predicate Bounded(c: Config, s: QueueState) {
    c.pauseOnCritical && c.maxFiles > 0 ==>
      s.count <= s.h.scanned || s.count <= ImageBound(c)
  }

  ghost predicate Inv(c: Config, s: QueueState) {
    Consistent(s) && LatchExact(c, s) && Roomy(c, s) && Bounded(c, s)
  }

  lemma ShareBelow(c: Config, count: int, limit: real)
    requires c.maxFiles > 0 && CountShare(c, count) < limit
    ensures count as real < limit * c.maxFiles as real
  {
    var m := c.maxFiles as real;
    assert CountShare(c, count) * m == count as real;
    assert (limit - CountShare(c, count)) * m > 0.0;
  }

  /** One more image still fits under the rounded-up limit. */
  lemma OneMoreFits(c: Config, s: QueueState)
    requires c.maxFiles > 0 && CapacityOf(c, s) < Limit(c)
    ensures s.count + 1 <= ImageBound(c)
  {
    ShareBelow(c, s.count, Limit(c));
    var x := Limit(c) * c.maxFiles as real;
    assert (-x).Floor as real <= -x;
  }

  lemma QuotientMonotone(a: real, b: real, m: real)
    requires a <= b && m > 0.0
    ensures a / m <= b / m
  {
    var d := b / m - a / m;
    assert a / m * m == a && b / m * m == b;
    assert d * m == b - a;
    assert d < 0.0 ==> d * m < 0.0;
  }

  /** Fewer images and fewer bytes never raise the capacity reading. */
  lemma CapacityMonotone(c: Config, count: int, bytes: int, count': int, bytes': int)
    requires count' <= count && bytes' <= bytes
    ensures Capacity(c, count', bytes') <= Capacity(c, count, bytes)
  {
    if c.maxFiles > 0 {
      QuotientMonotone(count' as real, count as real, c.maxFiles as real);
    }
    if c.maxSizeMB > 0 {
      QuotientMonotone(bytes' as real, bytes as real, (c.maxSizeMB * 1024 * 1024) as real);
    }
  }

  // ----- steps keep the invariants

  /** A health check keeps everything; it is the reading the latch needs. */
  lemma CheckKeeps(c: Config, s: QueueState)
    requires LatchExact(c, s)
    ensures var s' := UpdateHealth(c, s); LatchExact(c, s') && Roomy(c, s')
  {
    LatchStep(c, s.h.readings, HealthCheck(CapacityOf(c, s)));
  }

  lemma RecalculateStamps(s: QueueState)
    ensures Stamped(Recalculate(s))
  {
    assert s.dir.Keys == {} ==> s.dir == map[];
  }

  /** Shrinking the counters keeps the bounds. */
  lemma ShrinkKeeps(c: Config, s: QueueState, s': QueueState)
    requires LatchExact(c, s) && Roomy(c, s) && Bounded(c, s)
    requires s'.count <= s.count && s'.bytes <= s.bytes && s'.paused == s.paused && s'.h.readings == s.h.readings
    requires s'.h.scanned == s.h.scanned
    ensures LatchExact(c, s') && Roomy(c, s') && Bounded(c, s')
  {
    CapacityMonotone(c, s.count, s.bytes, s'.count, s'.bytes);
  }

  lemma TakeOutCounts(s: QueueState, gone: set<int>)
    requires Counted(s) && gone <= s.dir.Keys
    ensures Counted(TakeOut(s, gone))
    ensures TakeOut(s, gone).count <= s.count && TakeOut(s, gone).bytes <= s.bytes
  {
    TotalAfterRemoval(s.dir, gone);
  }

  lemma SettledKeeps(c: Config, s: QueueState)
    requires Counted(s) && Balanced(s) && LatchExact(c, s) && Bounded(c, s)
    ensures Inv(c, Settled(c, s))
  {
    RecalculateStamps(s);
    CheckKeeps(c, Recalculate(s));
  }

  lemma ThinOutKeeps(c: Config, s: QueueState, gone: set<int>)
    requires Inv(c, s) && gone <= s.dir.Keys
    ensures Inv(c, Recalculate(ThinOut(s, gone))) && Inv(c, ThinAndCheck(c, s, gone))
  {
    var t := ThinOut(s, gone);
    TakeOutCounts(s, gone);
    ShrinkKeeps(c, s, t);
    RecalculateStamps(t);
    SettledKeeps(c, t);
  }

  lemma EmergencyThinKeeps(c: Config, s: QueueState, ratio: real, ok: Removes)
    requires Inv(c, s)
    ensures Inv(c, EmergencyThin(c, s, ratio, ok))
  {
    var files := Listing(s);
    ThinOutKeeps(c, s, Gone(s, Oldest(files, EmergencyCount(|files|, ratio)), ok));
  }

  lemma ThinForSpaceKeeps(c: Config, s: QueueState, space: nat -> bool, ok: Removes)
    requires Inv(c, s)
    ensures Inv(c, ThinForSpace(s, space, ok))
  {
    ThinOutKeeps(c, s, Gone(s, SpaceVictims(Listing(s), space), ok));
  }

  lemma MillisOf(obs: int, slot: int)
    ensures (obs + (slot - obs / MILLI) * MILLI) / MILLI == slot
  {
  }

  lemma StoreStamps(c: Config, s: QueueState, slot: int, obs: int, size: nat)
    requires Stamped(s) && slot !in s.dir
    ensures Stamped(Store(c, s, slot, obs, size))
  {
    MillisOf(obs, slot);
    var t := Store(c, s, slot, obs, size);
    assert t.dir.Keys == s.dir.Keys + {slot};
    assert Since(t) == Since(s) + {slot};
    assert FirstSeen(t) == FirstSeen(s) + {slot} && LastSeen(t) == LastSeen(s) + {slot};
  }

  /** Storing is only ever done while capture goes on, in a free slot. */
  lemma StoreKeeps(c: Config, s: QueueState, slot: int, obs: int, size: nat)
    requires Inv(c, s) && slot !in s.dir
    requires c.pauseOnCritical ==> CapacityOf(c, s) < Limit(c)
    ensures Inv(c, Store(c, s, slot, obs, size))
  {
    TotalAfterAdding(s.dir, slot, size);
    StoreStamps(c, s, slot, obs, size);
    StoreKeepsLatch(c, s, slot, obs, size);
  }

  lemma StoreKeepsLatch(c: Config, s: QueueState, slot: int, obs: int, size: nat)
    requires LatchExact(c, s) && Bounded(c, s) && (c.pauseOnCritical ==> CapacityOf(c, s) < Limit(c))
    ensures var t := Store(c, s, slot, obs, size); LatchExact(c, t) && Roomy(c, t) && Bounded(c, t)
  {
    if c.pauseOnCritical && c.maxFiles > 0 {
      OneMoreFits(c, s);
    }
    LatchStep(c, s.h.readings, HealthCheck(Capacity(c, s.count + 1, s.bytes + size)));
  }

  /** The state an accepted offer is written from, and the slot it is given. */
  ghost function Cleared(s: QueueState, e: Offer): QueueState {
    if e.spaceBefore then s else ThinForSpace(s, e.space, e.spaceOk)
  }

  /** Emergency thinning removes files only, and never raises a counter. */
  lemma EmergencyShrinks(c: Config, s: QueueState, ratio: real, ok: Removes)
    requires Inv(c, s)
    ensures var t := EmergencyThin(c, s, ratio, ok);
            t.dir.Keys <= s.dir.Keys && t.count <= s.count && t.bytes <= s.bytes
  {
    var files := Listing(s);
    TakeOutCounts(s, Gone(s, Oldest(files, EmergencyCount(|files|, ratio)), ok));
  }

  /** Space recovery removes files only, leaves the pause flag alone, and never raises a counter. */
  lemma SpaceShrinks(s: QueueState, space: nat -> bool, ok: Removes)
    requires Counted(s)
    ensures var t := ThinForSpace(s, space, ok);
            t.dir.Keys <= s.dir.Keys && t.count <= s.count && t.bytes <= s.bytes && t.paused == s.paused
  {
    TakeOutCounts(s, Gone(s, SpaceVictims(Listing(s), space), ok));
  }

  /**
   * The file name chosen for an image is the first free millisecond from its observation time on,
   * and stays free through the cleanup between the two writes: no queued image is overwritten.
   */
  lemma SlotStaysFree(c: Config, s: QueueState, e: Offer)
    requires Inv(c, s)
    ensures var s1 := Cleared(s, e);
            var slot := SlotFor(s1.dir, e.obs);
            && e.obs / MILLI <= slot
            && slot !in s1.dir && slot !in WriteWithRetry(c, s1, e).0.dir
            && (forall k :: e.obs / MILLI <= k < slot ==> k in s1.dir)
  {
    var s1 := Cleared(s, e);
    FreeSlotIsLeast(s1.dir.Keys, e.obs / MILLI);
    ThinForSpaceKeeps(c, s, e.space, e.spaceOk);
    EmergencyShrinks(c, s1, RECOVERY_RATIO, e.cleanOk);
  }

  lemma FinishKeeps(c: Config, s: QueueState, slot: int, e: Offer, written: WriteResult)
    requires Inv(c, s) && slot !in s.dir
    requires c.pauseOnCritical ==> CapacityOf(c, s) < Limit(c)
    ensures Inv(c, Finish(c, s, slot, e, written).0)
  {
    match written {
      case Written => StoreKeeps(c, s, slot, e.obs, e.size);
      case NoSpace => LatchStep(c, s.h.readings, SpaceFailure);
      case RenameFailed =>
      case WriteFailed =>
    }
  }

  lemma EnqueueKeeps(c: Config, s: QueueState, e: Offer)
    requires Inv(c, s)
    ensures Inv(c, Enqueue(c, s, e).0)
  {
    if Refusal(c, s, e).None? {
      var s1 := Cleared(s, e);
      ThinForSpaceKeeps(c, s, e.space, e.spaceOk);
      SpaceShrinks(s, e.space, e.spaceOk);
      SlotStaysFree(c, s, e);
      var s2 := WriteWithRetry(c, s1, e).0;
      EmergencyThinKeeps(c, s1, RECOVERY_RATIO, e.cleanOk);
      EmergencyShrinks(c, s1, RECOVERY_RATIO, e.cleanOk);
      CapacityMonotone(c, s.count, s.bytes, s1.count, s1.bytes);
      CapacityMonotone(c, s1.count, s1.bytes, s2.count, s2.bytes);
      FinishKeeps(c, s2, SlotFor(s1.dir, e.obs), e, LastWrite(e));
      EnqueueIsFinish(c, s, e);
    }
  }

  lemma RemoveOne(s: QueueState, ms: int)
    requires Counted(s) && ms in s.dir
    ensures |(s.dir - {ms}).Keys| == s.count - 1 && Total(s.dir - {ms}) == s.bytes - s.dir[ms]
  {
    TotalAfterRemoval(s.dir, {ms});
    BytesWithout(s.dir, {ms}, ms);
  }

  /** One file gone, its bytes with it, and the ledger settled. */
  lemma OneGoneKeeps(c: Config, s: QueueState, t: QueueState, ms: int)
    requires Inv(c, s) && ms in s.dir && Balanced(t)
    requires t.dir == s.dir - {ms} && t.count == s.count - 1 && t.bytes == s.bytes - s.dir[ms]
    requires t.paused == s.paused && t.h.readings == s.h.readings && t.h.scanned == s.h.scanned
    ensures Inv(c, Settled(c, t))
  {
    RemoveOne(s, ms);
    SettledKeeps(c, t);
  }

  ghost function OneTakenDown(s: QueueState, img: Image): QueueState {
    s.(dir := s.dir - {img.ms}, count := s.count - 1, bytes := s.bytes - img.size,
       uploaded := s.uploaded + 1, h := s.h.(takenDown := s.h.takenDown + 1))
  }

  ghost function OneDropped(s: QueueState, img: Image): QueueState {
    s.(dir := s.dir - {img.ms}, count := s.count - 1, bytes := s.bytes - img.size,
       h := s.h.(dropped := s.h.dropped + 1))
  }

  /** Without a clamp, uploading and dropping take out one file and settle. */
  lemma TakenOne(c: Config, s: QueueState, img: Image)
    requires img.ms in s.dir && s.count >= 1 && s.bytes >= img.size
    ensures MarkUploaded(c, s, img, true) == Settled(c, OneTakenDown(s, img))
    ensures Drop(c, s, img, true) == Settled(c, OneDropped(s, img))
  {
  }

  lemma TakenDownKeeps(c: Config, s: QueueState, img: Image)
    requires Inv(c, s) && Genuine(s, img) && img.ms in s.dir
    ensures Inv(c, MarkUploaded(c, s, img, true)) && Inv(c, Drop(c, s, img, true))
  {
    RemoveOne(s, img.ms);
    TakenOne(c, s, img);
    OneGoneKeeps(c, s, OneTakenDown(s, img), img.ms);
    OneGoneKeeps(c, s, OneDropped(s, img), img.ms);
  }

  lemma ResyncKeeps(c: Config, s: QueueState)
    requires Inv(c, s)
    ensures Resync(s) == s && Inv(c, Settled(c, s))
  {
    SettledKeeps(c, s);
  }

  lemma UploadKeeps(c: Config, s: QueueState, img: Image, removable: bool)
    requires Inv(c, s) && Genuine(s, img)
    ensures Inv(c, MarkUploaded(c, s, img, removable))
  {
    if removable && img.ms in s.dir {
      TakenDownKeeps(c, s, img);
    } else if removable {
      ResyncKeeps(c, s);
    }
  }

  lemma DropKeeps(c: Config, s: QueueState, img: Image, removable: bool)
    requires Inv(c, s) && Genuine(s, img)
    ensures Inv(c, Drop(c, s, img, removable))
  {
    if removable && img.ms in s.dir {
      TakenDownKeeps(c, s, img);
    } else if removable {
      ResyncKeeps(c, s);
    }
  }

  ghost function TakenOut(c: Config, s: QueueState, gone: set<int>): QueueState
    requires gone <= s.dir.Keys
  {
    TakeOut(s, gone).(expired := s.expired + |gone|)
  }

  lemma TakenOutKeeps(c: Config, s: QueueState, gone: set<int>)
    requires Inv(c, s) && gone <= s.dir.Keys
    ensures Inv(c, Settled(c, TakenOut(c, s, gone)))
  {
    var t := TakenOut(c, s, gone);
    TakeOutCounts(s, gone);
    ShrinkKeeps(c, s, t);
    SettledKeeps(c, t);
  }

  lemma ExpireIs(c: Config, s: QueueState, gone: set<int>, now: int, ok: Removes)
    requires gone == Gone(s, Expirable(c, s, now), ok)
    ensures Expire(c, s, now, ok) == if gone == {} then s else Settled(c, TakenOut(c, s, gone))
  {
  }

  lemma ExpireKeeps(c: Config, s: QueueState, now: int, ok: Removes)
    requires Inv(c, s)
    ensures Inv(c, Expire(c, s, now, ok))
  {
    var gone := Gone(s, Expirable(c, s, now), ok);
    ExpireIs(c, s, gone, now, ok);
    TakenOutKeeps(c, s, gone);
  }

  lemma StepKeeps(c: Config, s: QueueState, op: Op)
    requires Inv(c, s) && OpGenuine(s, op)
    ensures Inv(c, Step(c, s, op))
  {
    match op {
      case DoEnqueue(e) => EnqueueKeeps(c, s, e);
      case DoThin(ok) =>
        var files := Listing(s);
        ThinOutKeeps(c, s, Gone(s, FilesAt(files, ThinPositions(c, s.health, |files|)), ok));
      case DoEmergencyThin(ratio, ok) => EmergencyThinKeeps(c, s, ratio, ok);
      case DoUpload(img, removable) => UploadKeeps(c, s, img, removable);
      case DoDrop(img, removable) => DropKeeps(c, s, img, removable);
      case DoExpire(now, ok) => ExpireKeeps(c, s, now, ok);
      case DoTryResume => LatchStep(c, s.h.readings, ResumeCheck(CapacityOf(c, s)));
    }
  }

  lemma {:induction false} RunKeeps(c: Config, dir: Files, ops: seq<Op>)
    requires GenuineRun(c, dir, ops)
    ensures Inv(c, Run(c, dir, ops))
  {
    if ops == [] {
      var s := QueueState(dir, |dir.Keys|, Total(dir), None, None, Healthy, false, 0, 0, 0, 0,
                          History(|dir.Keys|, 0, 0, 0, [], {}));
      assert !Latched(c, []);
      SettledKeeps(c, s);
    } else {
      RunKeeps(c, dir, ops[..|ops|-1]);
      StepKeeps(c, Run(c, dir, ops[..|ops|-1]), ops[|ops|-1]);
    }
  }

  // ----- what holds after every run

  /**
   * Counters agree with the directory after any run, whatever removes and writes failed: count and
   * bytes always, the cached ends whenever name order is time order on the files then held.
   */
  lemma {:induction false} CountersAgree(c: Config, dir: Files, ops: seq<Op>)
    requires GenuineRun(c, dir, ops)
    ensures var s := Run(c, dir, ops);
            && s.count == |s.dir.Keys| && s.bytes == Total(s.dir)
            && (s.dir.Keys == {} ==> s.oldest.None? && s.newest.None?)
            && (s.dir.Keys != {} ==>
                  && s.oldest.Some? && s.oldest.value / MILLI in s.dir
                  && s.newest.Some? && s.newest.value / MILLI in s.dir)
            && (s.dir.Keys != {} && Aligned(s.dir.Keys) ==>
                  && s.oldest.value / MILLI == Min(s.dir.Keys)
                  && s.newest.value / MILLI == Max(s.dir.Keys))
  {
    RunKeeps(c, dir, ops);
    var s := Run(c, dir, ops);
    if s.dir.Keys != {} {
      StampsAreHeld(s);
      OldestRightIff(s);
      NewestRightIff(s);
      if Aligned(s.dir.Keys) {
        AlignedPart(s.h.listed, s.dir.Keys);
      }
    }
  }

  // ----- when the cached ends are the oldest and the newest

  lemma StampsAreHeld(s: QueueState)
    requires Stamped(s) && s.dir.Keys != {}
    ensures s.oldest.value / MILLI in s.dir && s.newest.value / MILLI in s.dir
  {
    assert FirstSeen(s) <= s.dir.Keys && LastSeen(s) <= s.dir.Keys;
  }

  /** The cached oldest is right iff the oldest image came since the last listing, or started it. */
  lemma OldestRightIff(s: QueueState)
    requires Stamped(s) && s.dir.Keys != {}
    ensures s.oldest.value / MILLI == Min(s.dir.Keys) <==>
            (Min(s.dir.Keys) in s.h.listed ==> First(s.h.listed) == Min(s.dir.Keys))
  {
    StampsAreHeld(s);
    var lo, x := Min(s.dir.Keys), s.oldest.value / MILLI;
    assert lo <= x && x in FirstSeen(s);
    if lo !in s.h.listed {
      assert lo in FirstSeen(s);
    } else if First(s.h.listed) == lo {
      assert lo in FirstSeen(s);
    }
  }

  lemma NewestRightIff(s: QueueState)
    requires Stamped(s) && s.dir.Keys != {}
    ensures s.newest.value / MILLI == Max(s.dir.Keys) <==>
            (Max(s.dir.Keys) in s.h.listed ==> Last(s.h.listed) == Max(s.dir.Keys))
  {
    StampsAreHeld(s);
    var hi, x := Max(s.dir.Keys), s.newest.value / MILLI;
    assert x <= hi && x in LastSeen(s);
    if hi !in s.h.listed {
      assert hi in LastSeen(s);
    } else if Last(s.h.listed) == hi {
      assert hi in LastSeen(s);
    }
  }

  /** Part of an aligned set is aligned, and starts and ends with the whole's ends where it has them. */
  lemma AlignedPart(part: set<int>, s: set<int>)
    requires part <= s && s != {} && Aligned(s)
    ensures Min(s) in part ==> First(part) == Min(s)
    ensures Max(s) in part ==> Last(part) == Max(s)
  {
    if part != {} {
      AlignedEnds(part);
    }
  }

  lemma MinOfPart(part: set<int>, s: set<int>)
    requires part <= s && s != {}
    ensures Min(s) in part ==> Min(part) == Min(s)
    ensures Max(s) in part ==> Max(part) == Max(s)
  {
    if part != {} {
      assert Min(part) in s && Max(part) in s;
    }
  }

  /**
   * The exact law after any run: a cached end is right if and only if that image was stored since
   * the directory was last listed, or no name in the listing then sorted it away from its end.
   */
  lemma {:induction false} EndsAreRightIff(c: Config, dir: Files, ops: seq<Op>)
    requires GenuineRun(c, dir, ops)
    ensures var s := Run(c, dir, ops);
            s.dir.Keys != {} && Modern(s.dir.Keys) ==>
              var lo, hi := Min(s.dir.Keys), Max(s.dir.Keys);
              && s.h.listed <= s.dir.Keys && s.oldest.Some? && s.newest.Some?
              && (s.oldest.value / MILLI == lo <==>
                    (lo in s.h.listed ==> forall k :: k in s.h.listed && k > lo ==> lo <= Lead(k, Prefix(lo, k))))
              && (s.newest.value / MILLI == hi <==>
                    (hi in s.h.listed ==> forall k :: k in s.h.listed && k < hi ==> k <= Lead(hi, Prefix(k, hi))))
  {
    RunKeeps(c, dir, ops);
    var s := Run(c, dir, ops);
    if s.dir.Keys != {} && Modern(s.dir.Keys) {
      EndsRightByDigits(s);
    }
  }

  lemma EndsRightByDigits(s: QueueState)
    requires Stamped(s) && s.dir.Keys != {} && Modern(s.dir.Keys)
    ensures var lo, hi := Min(s.dir.Keys), Max(s.dir.Keys);
            && (s.oldest.value / MILLI == lo <==>
                  (lo in s.h.listed ==> forall k :: k in s.h.listed && k > lo ==> lo <= Lead(k, Prefix(lo, k))))
            && (s.newest.value / MILLI == hi <==>
                  (hi in s.h.listed ==> forall k :: k in s.h.listed && k < hi ==> k <= Lead(hi, Prefix(k, hi))))
  {
    OldestRightIff(s);
    NewestRightIff(s);
    MinOfPart(s.h.listed, s.dir.Keys);
    if s.h.listed != {} {
      FirstIsOldestIff(s.h.listed);
      LastIsNewestIff(s.h.listed);
    }
  }

  /** Reading the ends back makes them those of the listing: right exactly under its digit conditions. */
  lemma RebuiltEndsIff(s: QueueState)
    requires s.dir.Keys != {} && Modern(s.dir.Keys)
    ensures var t := Recalculate(s);
            var lo, hi := Min(s.dir.Keys), Max(s.dir.Keys);
            && t.oldest.Some? && t.newest.Some?
            && (t.oldest.value / MILLI == lo <==> forall k :: k in s.dir && k > lo ==> lo <= Lead(k, Prefix(lo, k)))
            && (t.newest.value / MILLI == hi <==> forall k :: k in s.dir && k < hi ==> k <= Lead(hi, Prefix(k, hi)))
  {
    RecalculateStamps(s);
    EndsRightByDigits(Recalculate(s));
  }

  /** A store keeps an end right, and puts a wrong one right exactly when it goes beyond every image. */
  lemma StoredEndsIff(c: Config, s: QueueState, slot: int, obs: int, size: nat)
    requires Stamped(s) && s.dir.Keys != {} && slot !in s.dir
    ensures var t := Store(c, s, slot, obs, size);
            && (t.oldest.value / MILLI == Min(t.dir.Keys) <==>
                  s.oldest.value / MILLI == Min(s.dir.Keys) || slot < Min(s.dir.Keys))
            && (t.newest.value / MILLI == Max(t.dir.Keys) <==>
                  s.newest.value / MILLI == Max(s.dir.Keys) || slot > Max(s.dir.Keys))
  {
    MillisOf(obs, slot);
    StampsAreHeld(s);
    assert s.dir[slot := size].Keys == s.dir.Keys + {slot};
    EndsAfterAdding(s.dir.Keys, slot);
  }

  lemma EndsAfterAdding(keys: set<int>, k: int)
    requires keys != {}
    ensures Min(keys + {k}) == (if k < Min(keys) then k else Min(keys))
    ensures Max(keys + {k}) == (if k > Max(keys) then k else Max(keys))
  {
    var keys' := keys + {k};
    assert Min(keys') in keys' && Max(keys') in keys' && k in keys';
    assert Min(keys) in keys' && Max(keys) in keys';
  }

  /**
   * A restart over an image from seconds 500 to 1000 after 1970 and one of 2001 to 2128: the cached
   * oldest is the later image, the cached newest the earlier one.
   */
  lemma RestartSwapsEnds(c: Config, dir: Files, a: nat, b: nat)
    requires 500_000 <= a < 1_000_000 && 1_000_000_000_000 <= b < 5_000_000_000_000
    requires dir.Keys == {a, b}
    ensures var s := Run(c, dir, []);
            GenuineRun(c, dir, []) && s.oldest == Some(b * MILLI) && s.newest == Some(a * MILLI)
  {
    EarlyClockSortsLate(a, b);
    OneFirst(b, dir.Keys);
    OneLast(a, dir.Keys);
  }

  /** Every image ever held is accounted for by exactly one counter. */
  lemma {:induction false} RemovalLedger(c: Config, dir: Files, ops: seq<Op>)
    requires GenuineRun(c, dir, ops)
    ensures var s := Run(c, dir, ops);
            && s.h.scanned + s.queued == s.count + s.thinned + s.expired + s.h.dropped + s.h.takenDown
            && s.uploaded == s.h.takenDown + s.h.alreadyGone
  {
    RunKeeps(c, dir, ops);
  }

  /** Capture is paused iff a pausing reading has not been cleared since; for any thresholds. */
  lemma {:induction false} PauseLatch(c: Config, dir: Files, ops: seq<Op>)
    requires GenuineRun(c, dir, ops)
    ensures Run(c, dir, ops).paused <==> Latched(c, Run(c, dir, ops).h.readings)
  {
    RunKeeps(c, dir, ops);
  }

  /** A reading at or above the critical threshold, or a failed space recovery. */
  predicate CriticalReading(c: Config, r: Reading) {
    match r
    case HealthCheck(cap) => cap >= c.critical
    case ResumeCheck(_) => false
    case SpaceFailure => true
  }

  /** With ordered thresholds and pausing on, the pausing readings are exactly the critical ones. */
  lemma OrderedThresholds(c: Config, r: Reading)
    requires c.pauseOnCritical && c.resume <= c.critical
    ensures Trips(c, r) <==> CriticalReading(c, r)
  {
  }

  /** With thresholds the wrong way round, a critical reading below resume does not pause. */
  lemma DisorderedThresholds(c: Config)
    requires c.pauseOnCritical && c.resume > c.critical
    ensures CriticalReading(c, HealthCheck(c.critical)) && !Trips(c, HealthCheck(c.critical))
  {
  }

  /** Some critical reading and none below the resume threshold since. */
  ghost predicate CriticalSince(c: Config, readings: seq<Reading>) {
    exists i :: 0 <= i < |readings| && CriticalReading(c, readings[i])
                && forall j :: i < j < |readings| ==> !Clears(c, readings[j])
  }

  lemma LatchedIsCritical(c: Config, readings: seq<Reading>)
    requires c.pauseOnCritical && c.resume <= c.critical
    ensures Latched(c, readings) <==> CriticalSince(c, readings)
  {
    if Latched(c, readings) {
      var i :| 0 <= i < |readings| && Trips(c, readings[i])
               && forall j :: i < j < |readings| ==> !Clears(c, readings[j]);
      OrderedThresholds(c, readings[i]);
    }
    if CriticalSince(c, readings) {
      var i :| 0 <= i < |readings| && CriticalReading(c, readings[i])
               && forall j :: i < j < |readings| ==> !Clears(c, readings[j]);
      OrderedThresholds(c, readings[i]);
    }
  }

  /**
   * With pausing on and resume at most critical: capture is paused iff a critical reading, or a
   * failed space recovery, came after the last reading below resume.
   */
  lemma {:induction false} PausedIsCriticalSince(c: Config, dir: Files, ops: seq<Op>)
    requires GenuineRun(c, dir, ops) && c.pauseOnCritical && c.resume <= c.critical
    ensures Run(c, dir, ops).paused <==> CriticalSince(c, Run(c, dir, ops).h.readings)
  {
    RunKeeps(c, dir, ops);
    LatchedIsCritical(c, Run(c, dir, ops).h.readings);
  }

  /** Ordered thresholds are exactly what makes pausing readings and critical readings agree. */
  lemma OrderedIff(c: Config)
    requires c.pauseOnCritical
    ensures c.resume <= c.critical <==> forall readings :: Latched(c, readings) <==> CriticalSince(c, readings)
  {
    if c.resume <= c.critical {
      forall readings ensures Latched(c, readings) <==> CriticalSince(c, readings) {
        LatchedIsCritical(c, readings);
      }
    } else {
      var one := [HealthCheck(c.critical)];
      DisorderedThresholds(c);
      assert CriticalReading(c, one[0]);
      assert CriticalSince(c, one) && !Latched(c, one);
    }
  }

  /** A run with thresholds the wrong way round: six images of ten are critical, and capture goes on. */
  lemma DisorderedRunGoesOn(c: Config, dir: Files)
    requires c.pauseOnCritical && c.maxFiles == 10 && c.maxSizeMB == 0 && c.critical == 0.5 && c.resume == 0.9
    requires |dir.Keys| == 6
    ensures var s := Run(c, dir, []); !s.paused && CriticalSince(c, s.h.readings)
  {
    var s := Run(c, dir, []);
    assert s.h.readings == [HealthCheck(0.6)];
    assert CriticalReading(c, s.h.readings[0]);
  }

  /** With pausing on, no run holds more images than it started with or than the limit rounds up to. */
  lemma {:induction false} CapacityBound(c: Config, dir: Files, ops: seq<Op>)
    requires GenuineRun(c, dir, ops) && c.pauseOnCritical && c.maxFiles > 0
    ensures HeldAtMost(Run(c, dir, ops), |dir.Keys|, ImageBound(c))
  {
    RunKeeps(c, dir, ops);
    ScannedStays(c, dir, ops);
    BoundOf(c, Run(c, dir, ops));
  }

  predicate HeldAtMost(s: QueueState, a: int, b: int) {
    s.count <= a || s.count <= b
  }

  lemma BoundOf(c: Config, s: QueueState)
    requires Inv(c, s) && c.pauseOnCritical && c.maxFiles > 0
    ensures HeldAtMost(s, s.h.scanned, ImageBound(c))
  {
  }

  lemma FinishScanned(c: Config, s: QueueState, slot: int, e: Offer, written: WriteResult)
    ensures Finish(c, s, slot, e, written).0.h.scanned == s.h.scanned
  {
  }

  lemma EnqueueScanned(c: Config, s: QueueState, e: Offer)
    ensures Enqueue(c, s, e).0.h.scanned == s.h.scanned
  {
    var s1 := Cleared(s, e);
    var (s2, written) := WriteWithRetry(c, s1, e);
    assert s2.h.scanned == s1.h.scanned == s.h.scanned;
    FinishScanned(c, s2, SlotFor(s1.dir, e.obs), e, written);
  }

  lemma StepScanned(c: Config, s: QueueState, op: Op)
    ensures Step(c, s, op).h.scanned == s.h.scanned
  {
    match op {
      case DoEnqueue(e) => EnqueueScanned(c, s, e);
      case DoThin(_) =>
      case DoEmergencyThin(_, _) =>
      case DoUpload(_, _) =>
      case DoDrop(_, _) =>
      case DoExpire(_, _) =>
      case DoTryResume =>
    }
  }

  lemma {:induction false} ScannedStays(c: Config, dir: Files, ops: seq<Op>)
    ensures Run(c, dir, ops).h.scanned == |dir.Keys|
  {
    if ops != [] {
      ScannedStays(c, dir, ops[..|ops|-1]);
      StepScanned(c, Run(c, dir, ops[..|ops|-1]), ops[|ops|-1]);
    }
  }

  // ----- the one thing an upload has to know

  /**
   * Without the assumption that the image is genuine, the byte counter stays right exactly when the
   * file under its name has the size remembered, or it was the only bytes there were and no less
   * was remembered.
   */
  lemma UploadCountsIff(c: Config, s: QueueState, img: Image)
    requires Counted(s) && img.ms in s.dir
    ensures Counted(MarkUploaded(c, s, img, true)) <==>
            img.size == s.dir[img.ms] || (Total(s.dir) == s.dir[img.ms] && img.size >= s.dir[img.ms])
  {
    RemoveOne(s, img.ms);
  }

  /** The same for a drop. */
  lemma DropCountsIff(c: Config, s: QueueState, img: Image)
    requires Counted(s) && img.ms in s.dir
    ensures Counted(Drop(c, s, img, true)) <==>
            img.size == s.dir[img.ms] || (Total(s.dir) == s.dir[img.ms] && img.size >= s.dir[img.ms])
  {
    RemoveOne(s, img.ms);
  }

  /** The clamps to zero never fire for a genuine image. */
  lemma ClampsNeverFire(s: QueueState, img: Image)
    requires Counted(s) && img.ms in s.dir && Genuine(s, img)
    ensures s.count - 1 >= 0 && s.bytes - img.size >= 0
  {
    RemoveOne(s, img.ms);
  }

  // ----- a reused file name

  /** The directory, the image handed out from it, and what happens to them. */
  const REUSED: int := 1_700_000_000_000
  const ReusedDir: Files := map[REUSED := 200, REUSED + 1 := 300]
  const Stolen := Image(REUSED, 200)
  const Retaken := Offer(REUSED * MILLI, 500, REUSED * MILLI, true, _ => true, _ => true, Written, _ => true, Written)

  lemma DropEffect(c: Config, s: QueueState, img: Image)
    requires img.ms in s.dir && !s.paused && !c.pauseOnCritical
    ensures var t := Drop(c, s, img, true); t.dir == s.dir - {img.ms} && !t.paused
  {
  }

  lemma RetakenThere(c: Config, s: QueueState)
    requires s.dir == map[REUSED + 1 := 300] && !s.paused && c.maxAge >= 0
    ensures Enqueue(c, s, Retaken).0.dir == map[REUSED := 500, REUSED + 1 := 300]
  {
    assert SlotFor(s.dir, Retaken.obs) == REUSED;
    Admitted(c, s, Retaken);
    FinishAdds(c, s, REUSED, Retaken, Written);
  }

  lemma UploadThere(c: Config, s: QueueState)
    requires Counted(s) && s.dir == map[REUSED := 500, REUSED + 1 := 300]
    ensures var t := MarkUploaded(c, s, Stolen, true); t.dir == map[REUSED + 1 := 300] && !Counted(t)
  {
    UploadCountsIff(c, s, Stolen);
    TwoFiles(s.dir);
  }

  lemma RunGrows(c: Config, dir: Files, ops: seq<Op>, op: Op)
    ensures Run(c, dir, ops + [op]) == Step(c, Run(c, dir, ops), op)
    ensures GenuineRun(c, dir, ops + [op]) <==> GenuineRun(c, dir, ops) && OpGenuine(Run(c, dir, ops), op)
  {
    assert (ops + [op])[..|ops|] == ops;
  }

  lemma RunOfThree(c: Config, dir: Files, a: Op, b: Op, d: Op)
    ensures var s0 := Run(c, dir, []); var s1 := Step(c, s0, a); var s2 := Step(c, s1, b);
            && Run(c, dir, [a, b]) == s2 && Run(c, dir, [a, b, d]) == Step(c, s2, d)
            && (GenuineRun(c, dir, [a, b]) <==> OpGenuine(s0, a) && OpGenuine(s1, b))
            && (GenuineRun(c, dir, [a, b, d]) <==> GenuineRun(c, dir, [a, b]) && OpGenuine(s2, d))
  {
    assert [] + [a] == [a] && [a] + [b] == [a, b] && [a, b] + [d] == [a, b, d];
    RunGrows(c, dir, [], a);
    RunGrows(c, dir, [a], b);
    RunGrows(c, dir, [a, b], d);
  }

  /**
   * An image is dequeued and dropped, a new one is stored in the same millisecond, and the upload
   * of the first is reported: the new file goes, and the byte counter is left wrong.
   */
  lemma ReusedNameMiscounts(c: Config, drop: Op, store: Op, upload: Op)
    requires !c.pauseOnCritical && c.maxAge >= 0
    requires drop == DoDrop(Stolen, true) && store == DoEnqueue(Retaken) && upload == DoUpload(Stolen, true)
    ensures Dequeue(Run(c, ReusedDir, []), false) == Some(Stolen)
    ensures GenuineRun(c, ReusedDir, [drop, store]) && !GenuineRun(c, ReusedDir, [drop, store, upload])
    ensures var t := Run(c, ReusedDir, [drop, store, upload]); t.dir == map[REUSED + 1 := 300] && !Counted(t)
  {
    RunOfThree(c, ReusedDir, drop, store, upload);
    RunKeeps(c, ReusedDir, []);
    FirstOut(Run(c, ReusedDir, []));
    ReusedBefore(c, Run(c, ReusedDir, []), drop, store);
    RunKeeps(c, ReusedDir, [drop, store]);
    UploadThere(c, Run(c, ReusedDir, [drop, store]));
  }

  lemma ReusedBefore(c: Config, s: QueueState, drop: Op, store: Op)
    requires s.dir == ReusedDir && !s.paused && !c.pauseOnCritical && c.maxAge >= 0
    requires drop == DoDrop(Stolen, true) && store == DoEnqueue(Retaken)
    ensures Step(c, Step(c, s, drop), store).dir == map[REUSED := 500, REUSED + 1 := 300]
  {
    DropEffect(c, s, Stolen);
    RetakenThere(c, Drop(c, s, Stolen, true));
  }

  lemma FirstOut(s: QueueState)
    requires Counted(s) && s.dir == ReusedDir
    ensures Dequeue(s, false) == Some(Stolen)
  {
    EraIsAligned(s.dir.Keys);
    assert REUSED in s.dir.Keys;
    AlignedEnds(s.dir.Keys);
    assert s.dir.Keys == {REUSED, REUSED + 1};
    assert Min(s.dir.Keys) == REUSED;
  }

  lemma TwoFiles(dir: Files)
    requires dir == map[REUSED := 500, REUSED + 1 := 300]
    ensures Total(dir) == 800 && dir - {REUSED} == map[REUSED + 1 := 300]
  {
    BytesWithout(dir, dir.Keys, REUSED);
    assert dir.Keys - {REUSED} == {REUSED + 1};
    BytesWithout(dir, {REUSED + 1}, REUSED + 1);
  }

  /** The name an operation writes, if it writes one. */
  ghost function Writes(c: Config, s: QueueState, op: Op): Option<int> {
    if op.DoEnqueue? && Enqueue(c, s, op.offer).1 == Queued
    then Some(SlotFor(Cleared(s, op.offer).dir, op.offer.obs))
    else None
  }

  /** A file that is still there is the file that was there. */
  predicate Shrunk(s: QueueState, t: QueueState) {
    forall k :: k in t.dir ==> k in s.dir && t.dir[k] == s.dir[k]
  }

  lemma CleanupShrinks(c: Config, s: QueueState, e: Offer)
    ensures Shrunk(s, Cleared(s, e)) && Shrunk(s, WriteWithRetry(c, s, e).0)
  {
  }

  lemma FinishAdds(c: Config, s: QueueState, slot: int, e: Offer, written: WriteResult)
    ensures var (t, result) := Finish(c, s, slot, e, written);
            && (result == Queued <==> written == Written) && (result == Full <==> written == NoSpace)
            && (result == WriteError <==> written in {RenameFailed, WriteFailed})
            && t.dir == (if written == Written then s.dir[slot := e.size] else s.dir)
            && t.queued == s.queued + (if written == Written then 1 else 0)
            && (written == NoSpace ==> t.paused)
  {
  }

  /** An admitted offer: what the deciding write is made from, and that only files went before it. */
  lemma Admitted(c: Config, s: QueueState, e: Offer)
    requires Refusal(c, s, e).None?
    ensures var s2 := WriteWithRetry(c, Cleared(s, e), e).0;
            && Enqueue(c, s, e) == Finish(c, s2, SlotFor(Cleared(s, e).dir, e.obs), e, LastWrite(e))
            && Shrunk(s, s2) && Shrunk(Cleared(s, e), s2) && s2.queued == s.queued
  {
    CleanupShrinks(c, s, e);
    CleanupShrinks(c, Cleared(s, e), e);
    CleanupCounts(c, s, e);
    CleanupCounts(c, Cleared(s, e), e);
    ShrunkTwice(s, Cleared(s, e), WriteWithRetry(c, Cleared(s, e), e).0);
    EnqueueIsFinish(c, s, e);
  }

  lemma EnqueueIsFinish(c: Config, s: QueueState, e: Offer)
    requires Refusal(c, s, e).None?
    ensures Enqueue(c, s, e) ==
            Finish(c, WriteWithRetry(c, Cleared(s, e), e).0, SlotFor(Cleared(s, e).dir, e.obs), e, LastWrite(e))
  {
  }

  lemma CleanupCounts(c: Config, s: QueueState, e: Offer)
    ensures Cleared(s, e).queued == s.queued && WriteWithRetry(c, s, e).0.queued == s.queued
  {
  }

  lemma ShrunkTwice(s: QueueState, t: QueueState, u: QueueState)
    requires Shrunk(s, t) && Shrunk(t, u)
    ensures Shrunk(s, u)
  {
  }

  /** The result of the write that decides: the second only when the first ran out of space. */
  function LastWrite(e: Offer): WriteResult {
    if e.write1 == NoSpace then e.write2 else e.write1
  }

  /**
   * Every file after an enqueue was there before, unchanged, or is the image itself, under a name
   * that no file had when it was written.
   */
  lemma EnqueueAddsOnlyItsSlot(c: Config, s: QueueState, e: Offer)
    ensures var (t, result) := Enqueue(c, s, e);
            var slot := SlotFor(Cleared(s, e).dir, e.obs);
            forall k :: k in t.dir ==>
              || (k in s.dir && t.dir[k] == s.dir[k])
              || (result == Queued && k == slot && t.dir[k] == e.size
                  && slot !in WriteWithRetry(c, Cleared(s, e), e).0.dir)
  {
    if Refusal(c, s, e).None? {
      var slot := SlotFor(Cleared(s, e).dir, e.obs);
      Admitted(c, s, e);
      FreeSlotIsLeast(Cleared(s, e).dir.Keys, e.obs / MILLI);
      FinishAdds(c, WriteWithRetry(c, Cleared(s, e), e).0, slot, e, LastWrite(e));
    }
  }

  lemma OtherStepsShrink(c: Config, s: QueueState, op: Op)
    requires !op.DoEnqueue?
    ensures Shrunk(s, Step(c, s, op))
  {
    match op {
      case DoThin(_) =>
      case DoEmergencyThin(_, _) =>
      case DoUpload(_, _) =>
      case DoDrop(_, _) =>
      case DoExpire(_, _) =>
      case DoTryResume =>
    }
  }

  /** A dequeued image stays genuine through every step that does not write its name again. */
  lemma GenuineUntilReused(c: Config, s: QueueState, img: Image, op: Op)
    requires Genuine(s, img) && Writes(c, s, op) != Some(img.ms)
    ensures Genuine(Step(c, s, op), img)
  {
    if op.DoEnqueue? {
      EnqueueAddsOnlyItsSlot(c, s, op.offer);
    } else {
      OtherStepsShrink(c, s, op);
    }
  }

  lemma DequeuedIsThere(s: QueueState, newestFirst: bool)
    requires Dequeue(s, newestFirst).Some?
    ensures ReadFrom(s, Dequeue(s, newestFirst).value)
  {
  }

  /** The image was read from the directory. */
  predicate ReadFrom(s: QueueState, img: Image) {
    img.ms in s.dir && s.dir[img.ms] == img.size
  }

  /** After the first j operations the image was read, and the next ones, up to the n-th, do not write its name. */
  ghost predicate Kept(c: Config, dir: Files, ops: seq<Op>, img: Image, j: nat, n: nat) {
    && j <= n <= |ops|
    && ReadFrom(Run(c, dir, ops[..j]), img)
    && forall m :: j <= m < n ==> Writes(c, Run(c, dir, ops[..m]), ops[m]) != Some(img.ms)
  }

  /** The n-th operation, if it uploads or drops an image, takes one handed out before and not overwritten since. */
  ghost predicate WasHandedOut(c: Config, dir: Files, ops: seq<Op>, n: nat)
    requires n < |ops|
  {
    ops[n].DoUpload? || ops[n].DoDrop? ==> exists j :: Kept(c, dir, ops, ops[n].img, j, n)
  }

  lemma RunPrefix(c: Config, dir: Files, ops: seq<Op>, n: nat)
    requires n < |ops|
    ensures Run(c, dir, ops[..n+1]) == Step(c, Run(c, dir, ops[..n]), ops[n])
    ensures GenuineRun(c, dir, ops[..n+1]) <==> GenuineRun(c, dir, ops[..n]) && OpGenuine(Run(c, dir, ops[..n]), ops[n])
  {
    assert ops[..n+1][..n] == ops[..n];
  }

  lemma {:induction false} KeptIsGenuine(c: Config, dir: Files, ops: seq<Op>, img: Image, j: nat, n: nat)
    requires Kept(c, dir, ops, img, j, n)
    ensures Genuine(Run(c, dir, ops[..n]), img)
    decreases n
  {
    if j < n {
      KeptIsGenuine(c, dir, ops, img, j, n - 1);
      GenuineUntilReused(c, Run(c, dir, ops[..n-1]), img, ops[n-1]);
      RunPrefix(c, dir, ops, n - 1);
    }
  }

  lemma {:induction false} HandedOutPrefix(c: Config, dir: Files, ops: seq<Op>, n: nat)
    requires n <= |ops| && forall i :: 0 <= i < |ops| ==> WasHandedOut(c, dir, ops, i)
    ensures GenuineRun(c, dir, ops[..n])
  {
    if n > 0 {
      HandedOutPrefix(c, dir, ops, n - 1);
      RunPrefix(c, dir, ops, n - 1);
      assert WasHandedOut(c, dir, ops, n - 1);
      if ops[n-1].DoUpload? || ops[n-1].DoDrop? {
        var j: nat :| Kept(c, dir, ops, ops[n-1].img, j, n - 1);
        KeptIsGenuine(c, dir, ops, ops[n-1].img, j, n - 1);
      }
    }
  }

  /**
   * A run is genuine when every image uploaded or dropped was read from the queue earlier in it and
   * its name has not been written since.
   */
  lemma HandedOutRunsAreGenuine(c: Config, dir: Files, ops: seq<Op>)
    requires forall i :: 0 <= i < |ops| ==> WasHandedOut(c, dir, ops, i)
    ensures GenuineRun(c, dir, ops)
  {
    HandedOutPrefix(c, dir, ops, |ops|);
    assert ops[..|ops|] == ops;
  }

  /** The n-th operation, if it uploads or drops an image, does so to one a dequeue returned before. */
  ghost predicate WasDequeued(c: Config, dir: Files, ops: seq<Op>, n: nat)
    requires n < |ops|
  {
    ops[n].DoUpload? || ops[n].DoDrop? ==>
      exists j: nat, newestFirst :: j <= n && Returned(c, dir, ops, ops[n].img, j, n, newestFirst)
  }

  /** A dequeue after the first j operations returned the image, and none up to the n-th wrote its name. */
  ghost predicate Returned(
      c: Config, dir: Files, ops: seq<Op>, img: Image, j: nat, n: nat, newestFirst: bool)
    requires j <= n <= |ops|
  {
    && Dequeue(Run(c, dir, ops[..j]), newestFirst) == Some(img)
    && forall m :: j <= m < n ==> Writes(c, Run(c, dir, ops[..m]), ops[m]) != Some(img.ms)
  }

  /** So is a run whose uploads and drops are of images a dequeue returned. */
  lemma DequeuedRunsAreGenuine(c: Config, dir: Files, ops: seq<Op>)
    requires forall i :: 0 <= i < |ops| ==> WasDequeued(c, dir, ops, i)
    ensures GenuineRun(c, dir, ops)
  {
    forall i | 0 <= i < |ops| ensures WasHandedOut(c, dir, ops, i) {
      assert WasDequeued(c, dir, ops, i);
      if ops[i].DoUpload? || ops[i].DoDrop? {
        var j: nat, newestFirst :| j <= i && Returned(c, dir, ops, ops[i].img, j, i, newestFirst);
        DequeuedIsThere(Run(c, dir, ops[..j]), newestFirst);
        assert Kept(c, dir, ops, ops[i].img, j, i);
      }
    }
    HandedOutRunsAreGenuine(c, dir, ops);
  }

  // ----- what becomes of an offer

  /**
   * What becomes of an offer: outside the limits nothing changes; within them the deciding write
   * alone says whether it is stored, reported as an error, or ends in a pause.
   */
  lemma OfferOutcome(c: Config, s: QueueState, e: Offer)
    ensures var (t, result) := Enqueue(c, s, e);
            var slot := SlotFor(Cleared(s, e).dir, e.obs);
            var timely := e.now - c.maxAge <= e.obs <= e.now + FUTURE_SLACK;
            var admissible := !s.paused && e.size >= MIN_IMAGE_BYTES && timely;
            && (!admissible <==> result in {CapturePaused, InvalidImage, FromFuture, TooOld})
            && (!admissible ==> t == s)
            && (result == Queued <==> admissible && LastWrite(e) == Written)
            && (result == Full <==> admissible && LastWrite(e) == NoSpace)
            && (result == WriteError <==> admissible && LastWrite(e) in {RenameFailed, WriteFailed})
            && (result == Queued ==> slot in t.dir && t.dir[slot] == e.size && t.queued == s.queued + 1)
            && (result != Queued ==> t.queued == s.queued && Shrunk(s, t))
            && (result == Full ==> t.paused)
  {
    if Refusal(c, s, e).None? {
      Admitted(c, s, e);
      FinishAdds(c, WriteWithRetry(c, Cleared(s, e), e).0, SlotFor(Cleared(s, e).dir, e.obs), e, LastWrite(e));
    }
  }
}

/** The image queue as it runs: fields updated in place, loops over a listing sorted by file name. */
module ImageQueues {
  import opened Common
  import opened FileNames
  import opened Directory
  import opened Thinning
  import opened QueueSpec

  // ----- one removal after another

  /** A removal loop that has tried the files of `done` so far. */
  ghost function Tried(s: QueueState, done: set<int>, ok: Removes): QueueState {
    TakeOut(s, Gone(s, done, ok))
  }

  ghost function Thinned(s: QueueState, done: set<int>, ok: Removes): QueueState {
    ThinOut(s, Gone(s, done, ok))
  }

  ghost function Expired(s: QueueState, done: set<int>, ok: Removes): QueueState {
    Tried(s, done, ok).(expired := s.expired + |Gone(s, done, ok)|)
  }

  lemma TriedNothing(s: QueueState, done: set<int>, ok: Removes)
    requires done == {}
    ensures Gone(s, done, ok) == {} && Tried(s, done, ok) == Thinned(s, done, ok) == Expired(s, done, ok) == s
  {
    assert s.dir - {} == s.dir;
  }

  lemma TakeOutOneMore(s: QueueState, gone: set<int>, k: int)
    requires gone <= s.dir.Keys && k in s.dir && k !in gone
    ensures var t := TakeOut(s, gone);
            TakeOut(s, gone + {k}) == t.(dir := t.dir - {k}, count := t.count - 1, bytes := t.bytes - s.dir[k])
  {
    BytesWithout(s.dir, gone + {k}, k);
    assert gone + {k} - {k} == gone;
    assert s.dir - (gone + {k}) == s.dir - gone - {k};
  }

  /** One more file tried. */
  lemma TryOneMore(s: QueueState, done: set<int>, k: int, ok: Removes)
    requires k in s.dir && k !in done
    ensures var t := Tried(s, done, ok);
            && k in t.dir && t.dir[k] == s.dir[k]
            && Tried(s, done + {k}, ok) ==
               (if ok(k) then t.(dir := t.dir - {k}, count := t.count - 1, bytes := t.bytes - s.dir[k]) else t)
            && |Gone(s, done + {k}, ok)| == |Gone(s, done, ok)| + (if ok(k) then 1 else 0)
  {
    var gone := Gone(s, done, ok);
    TakeOutOneMore(s, gone, k);
    assert Gone(s, done + {k}, ok) == if ok(k) then gone + {k} else gone;
  }

  lemma PrefixGrows(files: seq<int>, i: nat)
    requires i < |files| && Increasing(files)
    ensures Elements(files[..i+1]) == Elements(files[..i]) + {files[i]}
    ensures files[i] !in Elements(files[..i]) && files[i] in Elements(files)
  {
    assert files[..i+1] == files[..i] + [files[i]];
    NoRepeats(files);
  }

  lemma NoPrefix(files: seq<int>)
    ensures Elements(files[..0]) == {} && Elements(files[..|files|]) == Elements(files)
  {
    assert files[..|files|] == files;
  }

  lemma PositionsGrow(files: seq<int>, done: set<int>, p: int)
    requires Increasing(files) && 0 <= p < |files| && p !in done
    ensures FilesAt(files, done + {p}) == FilesAt(files, done) + {files[p]}
    ensures files[p] !in FilesAt(files, done) && files[p] in Elements(files)
  {
    NoRepeats(files);
  }

  class ImageQueue {
    const config: Config
    var dir: Files
    var count: int
    var bytes: int
    var oldest: Option<int>
    var newest: Option<int>
    var health: Health
    var paused: bool
    var queued: nat
    var uploaded: nat
    var thinned: nat
    var expired: nat
    ghost var history: History

    ghost function State(): QueueState
      reads this
    {
      QueueState(dir, count, bytes, oldest, newest, health, paused, queued, uploaded, thinned, expired, history)
    }

    /** Restores the counters from the files found on disk. */
    constructor (config: Config, found: Files)
      ensures this.config == config && State() == Scan(config, found)
    {
      this.config := config;
      dir := found;
      count, bytes, oldest, newest := 0, 0, None, None;
      health, paused := Healthy, false;
      queued, uploaded, thinned, expired := 0, 0, 0, 0;
      history := History(|found.Keys|, 0, 0, 0, [], {});
      new;
      ResyncCountsFromDisk();
      RecalculateOldest();
      UpdateHealthLevel();
    }

    /** The directory listing, sorted by file name. */
    method ListFilesSorted() returns (files: seq<int>)
      ensures files == Sorted(dir.Keys) && Increasing(files) && Elements(files) == dir.Keys
    {
      files := [];
      var rest := dir.Keys;
      while rest != {}
        invariant rest <= dir.Keys && Elements(files) == dir.Keys - rest
        invariant Increasing(files)
      {
        Inhabited(rest);
        var k :| k in rest;
        assert k !in Elements(files);
        files := InsertByName(files, k);
        rest := rest - {k};
      }
      assert Elements(files) == dir.Keys;
      ListingUnique(files);
    }

    static method InsertByName(files: seq<int>, k: int) returns (r: seq<int>)
      requires Increasing(files) && k !in files
      ensures Increasing(r) && Elements(r) == Elements(files) + {k}
    {
      var j := 0;
      while j < |files| && NameLess(Name(files[j]), Name(k))
        invariant 0 <= j <= |files|
        invariant forall i :: 0 <= i < j ==> Before(files[i], k)
        decreases |files| - j
      {
        j := j + 1;
      }
      if j < |files| {
        BeforeTotal(files[j], k);
      }
      r := files[..j] + [k] + files[j..];
      InsertAt(files, j, k);
    }

    method SumSizes(files: seq<int>) returns (total: nat)
      requires Increasing(files) && Elements(files) == dir.Keys
      ensures total == Total(dir)
    {
      total := 0;
      NoPrefix(files);
      for i := 0 to |files|
        invariant Elements(files[..i]) <= dir.Keys && total == Bytes(dir, Elements(files[..i]))
      {
        PrefixGrows(files, i);
        BytesWithout(dir, Elements(files[..i]) + {files[i]}, files[i]);
        assert Elements(files[..i]) + {files[i]} - {files[i]} == Elements(files[..i]);
        total := total + dir[files[i]];
      }
    }

    method ResyncCountsFromDisk()
      modifies this`count, this`bytes
      ensures State() == Resync(old(State()))
    {
      var files := ListFilesSorted();
      SortedListing(dir.Keys);
      count := |files|;
      bytes := SumSizes(files);
    }

    method RecalculateOldest()
      modifies this`oldest, this`newest, this`history
      ensures State() == Recalculate(old(State()))
    {
      history := history.(listed := dir.Keys);
      oldest, newest := ReadEnds();
      assert dir == map[] <==> dir.Keys == {};
    }

    /** The times of the first and the last file of the listing. */
    method ReadEnds() returns (first: Option<int>, last: Option<int>)
      ensures dir.Keys == {} ==> first == None && last == None
      ensures dir.Keys != {} ==> first == Some(First(dir.Keys) * MILLI) && last == Some(Last(dir.Keys) * MILLI)
    {
      var files := ListFilesSorted();
      if |files| == 0 {
        assert dir.Keys == {};
        return None, None;
      }
      assert files[0] in Elements(files);
      SortedEnds(dir.Keys);
      NameRoundTrip(files[0]);
      NameRoundTrip(files[|files|-1]);
      first := Timestamp(Name(files[0]));
      last := Timestamp(Name(files[|files|-1]));
    }

    static function Timestamp(name: string): Option<int> {
      match ParseTimestamp(name)
      case None => None
      case Some(ms) => Some(ms * MILLI)
    }

    method UpdateHealthLevel()
      modifies this`health, this`paused, this`history
      ensures State() == UpdateHealth(config, old(State()))
    {
      var cap := Capacity(config, count, bytes);
      if cap >= config.critical {
        health := Critical;
        if config.pauseOnCritical && !paused {
          paused := true;
        }
      } else if cap >= config.degraded {
        health := Degraded;
      } else if cap >= config.catchingUp {
        health := CatchingUp;
      } else {
        health := Healthy;
      }
      MaybeResumeCapture();
      history := Note(State(), HealthCheck(cap)).h;
    }

    method MaybeResumeCapture()
      modifies this`paused
      ensures paused == (old(paused) && !(CapacityOf(config, State()) < config.resume))
    {
      if !paused || !(Capacity(config, count, bytes) < config.resume) {
        return;
      }
      paused := false;
    }

    method TryResumeCaptureIfPaused() returns (resumed: bool)
      modifies this`paused, this`history
      ensures State() == TryResume(config, old(State()))
      ensures resumed <==> old(paused) && !paused
    {
      var was := paused;
      MaybeResumeCapture();
      history := Note(State(), ResumeCheck(Capacity(config, count, bytes))).h;
      resumed := was && !paused;
    }

    /** One remove of a thinning loop; it may fail. */
    method ThinFile(k: int, ok: Removes, ghost s: QueueState, ghost done: set<int>) returns (n: nat)
      requires k in s.dir && k !in done && State() == Thinned(s, done, ok)
      modifies this`dir, this`count, this`bytes, this`thinned
      ensures State() == Thinned(s, done + {k}, ok)
      ensures |Gone(s, done + {k}, ok)| == |Gone(s, done, ok)| + n
    {
      TryOneMore(s, done, k, ok);
      n := 0;
      if ok(k) {
        count := count - 1;
        bytes := bytes - dir[k];
        thinned := thinned + 1;
        dir := dir - {k};
        n := 1;
      }
    }

    /** One remove further down a listing. */
    method ThinNext(files: seq<int>, i: nat, ok: Removes, ghost s: QueueState) returns (n: nat)
      requires i < |files| && Increasing(files) && Elements(files) == s.dir.Keys
      requires State() == Thinned(s, Elements(files[..i]), ok)
      modifies this`dir, this`count, this`bytes, this`thinned
      ensures State() == Thinned(s, Elements(files[..i+1]), ok)
      ensures |Gone(s, Elements(files[..i+1]), ok)| == |Gone(s, Elements(files[..i]), ok)| + n
    {
      PrefixGrows(files, i);
      n := ThinFile(files[i], ok, s, Elements(files[..i]));
    }

    /** Tries to remove the first `n` files of a listing. */
    method ThinOldest(files: seq<int>, n: nat, ok: Removes) returns (removed: nat)
      requires n <= |files| && Increasing(files) && Elements(files) == dir.Keys
      modifies this`dir, this`count, this`bytes, this`thinned
      ensures State() == Thinned(old(State()), Oldest(files, n), ok)
      ensures removed == |Gone(old(State()), Oldest(files, n), ok)|
    {
      ghost var s := State();
      removed := 0;
      NoPrefix(files);
      TriedNothing(s, Elements(files[..0]), ok);
      for i := 0 to n
        invariant State() == Thinned(s, Elements(files[..i]), ok)
        invariant removed == |Gone(s, Elements(files[..i]), ok)|
      {
        var one := ThinNext(files, i, ok, s);
        removed := removed + one;
      }
    }

    /** After a loop that removed something, the cached ends and the health are brought up to date. */
    method SettleIf(removed: nat)
      modifies this`oldest, this`newest, this`health, this`paused, this`history
      ensures State() == if removed > 0 then Settled(config, old(State())) else old(State())
    {
      if removed > 0 {
        RecalculateOldest();
        UpdateHealthLevel();
      }
    }

    method EmergencyTarget(n: nat, keepRatio: real) returns (toRemove: nat)
      ensures toRemove == EmergencyCount(n, keepRatio)
    {
      if n == 0 {
        return 0;
      }
      var keepCount := (n as real * keepRatio).Floor;
      if keepCount < 1 {
        keepCount := 1;
      }
      if keepCount >= n {
        return 0;
      }
      toRemove := n - keepCount;
    }

    /** Both emergency thinners: the locked one of the write path and the public one. */
    method EmergencyThinOldest(keepRatio: real, ok: Removes) returns (removed: nat)
      modifies this
      ensures State() == EmergencyThin(config, old(State()), keepRatio, ok)
      ensures |dir.Keys| == |old(dir.Keys)| - removed
    {
      ghost var s := State();
      var files := ListFilesSorted();
      SortedListing(dir.Keys);
      var toRemove := EmergencyTarget(|files|, keepRatio);
      removed := ThinOldest(files, toRemove, ok);
      ghost var gone := Gone(s, Oldest(files, toRemove), ok);
      NothingGone(s, gone);
      TotalAfterRemoval(s.dir, gone);
      SettleIf(removed);
    }

    /** Removes oldest files until the space reading suffices, keeping the newest. */
    method EmergencyThinForSpace(space: nat -> bool, ok: Removes)
      modifies this
      ensures State() == ThinForSpace(old(State()), space, ok)
      ensures dir.Keys <= old(dir.Keys)
    {
      ghost var s := State();
      var files := ListFilesSorted();
      SortedListing(dir.Keys);
      var removed := ThinUntilSpace(files, space, ok);
      NothingGone(s, Gone(s, SpaceVictims(files, space), ok));
      RecalculateIf(removed);
    }

    method RecalculateIf(removed: nat)
      modifies this`oldest, this`newest, this`history
      ensures State() == if removed > 0 then Recalculate(old(State())) else old(State())
    {
      if removed > 0 {
        RecalculateOldest();
      }
    }

    method ThinUntilSpace(files: seq<int>, space: nat -> bool, ok: Removes) returns (removed: nat)
      requires Increasing(files) && Elements(files) == dir.Keys
      modifies this`dir, this`count, this`bytes, this`thinned
      ensures State() == Thinned(old(State()), SpaceVictims(files, space), ok)
      ensures removed == |Gone(old(State()), SpaceVictims(files, space), ok)|
    {
      if |files| <= 1 {
        TriedNothing(State(), {}, ok);
        return 0;
      }
      removed := ThinWithin(files, |files| - 1, space, ok);
    }

    method ThinWithin(files: seq<int>, limit: nat, space: nat -> bool, ok: Removes) returns (removed: nat)
      requires limit <= |files| && Increasing(files) && Elements(files) == dir.Keys
      modifies this`dir, this`count, this`bytes, this`thinned
      ensures State() == Thinned(old(State()), Elements(files[..Attempts(space, 0, limit)]), ok)
      ensures removed == |Gone(old(State()), Elements(files[..Attempts(space, 0, limit)]), ok)|
    {
      ghost var s := State();
      removed := 0;
      NoPrefix(files);
      TriedNothing(s, Elements(files[..0]), ok);
      var i := 0;
      var enough := false;
      while i < limit && !enough
        invariant 0 <= i <= limit
        invariant State() == Thinned(s, Elements(files[..i]), ok)
        invariant removed == |Gone(s, Elements(files[..i]), ok)|
        invariant Attempts(space, 0, limit) == if enough then i else Attempts(space, i, limit)
        decreases limit - i, !enough
      {
        AttemptsStep(space, i, limit);
        var one := ThinNext(files, i, ok, s);
        removed := removed + one;
        enough := space(i);
        i := i + 1;
      }
    }

    /** Thins the middle of the listing. */
    method ThinQueue(ok: Removes)
      modifies this
      ensures State() == Thin(config, old(State()), ok)
    {
      ghost var s := State();
      var files := ListFilesSorted();
      SortedListing(dir.Keys);
      var removeIndices := PlanThinning(|files|);
      ThinningIsExact(config, health, |files|);
      var removed := ThinPicked(files, removeIndices, ok);
      ghost var gone := Gone(s, FilesAt(files, removeIndices), ok);
      NothingGone(s, gone);
      assert dir == s.dir - gone;
      SettleIf(removed);
    }

    method PlanThinning(n: nat) returns (indices: set<int>)
      ensures indices == ThinPositions(config, health, n)
    {
      indices := {};
      if !config.thinningEnabled || n == 0 {
        return;
      }
      var targetCount: int;
      match health {
        case CatchingUp => targetCount := config.maxFiles * 8 / 10;
        case Degraded => targetCount := config.maxFiles * 6 / 10;
        case Critical => targetCount := config.maxFiles * 4 / 10;
        case Healthy => return;
      }
      if n <= targetCount {
        return;
      }
      var protectOldest, protectNewest := config.protectOldest, config.protectNewest;
      if protectOldest + protectNewest >= n {
        protectOldest, protectNewest := n / 4, n / 4;
      }
      if protectOldest + protectNewest >= n {
        return;
      }
      var candidates := n - protectOldest - protectNewest;
      var middleTarget := targetCount - protectOldest - protectNewest;
      if middleTarget < 0 {
        middleTarget := 0;
      }
      var toRemove := candidates - middleTarget;
      if toRemove <= 0 {
        return;
      }
      indices := PickEvenly(protectOldest, candidates, toRemove);
      SamePositions(config, health, n, protectOldest, candidates, toRemove);
    }

    /** The positions, from `start` on, of `toRemove` evenly spaced ones among the candidates. */
    static method PickEvenly(start: nat, candidates: nat, toRemove: nat) returns (indices: set<int>)
      requires 0 < toRemove <= candidates
      ensures indices == set i: nat | i < toRemove :: start + ThinIndex(i, candidates, toRemove)
    {
      indices := {};
      for i := 0 to toRemove
        invariant indices == set j: nat | j < i :: start + ThinIndex(j, candidates, toRemove)
      {
        ThinLast(i, candidates, toRemove);
        var idx := i * candidates / toRemove;
        if idx < candidates {
          indices := indices + {start + idx};
        }
      }
    }

    /** Tries to remove the files at the given positions of a listing, in no particular order. */
    method ThinPicked(files: seq<int>, positions: set<int>, ok: Removes) returns (removed: nat)
      requires Increasing(files) && Elements(files) == dir.Keys
      requires forall p :: p in positions ==> 0 <= p < |files|
      modifies this`dir, this`count, this`bytes, this`thinned
      ensures State() == Thinned(old(State()), FilesAt(files, positions), ok)
      ensures removed == |Gone(old(State()), FilesAt(files, positions), ok)|
    {
      ghost var s := State();
      removed := 0;
      var rest := positions;
      ghost var done: set<int> := {};
      assert FilesAt(files, done) == {};
      TriedNothing(s, FilesAt(files, done), ok);
      while rest != {}
        invariant rest <= positions && done == positions - rest
        invariant State() == Thinned(s, FilesAt(files, done), ok)
        invariant removed == |Gone(s, FilesAt(files, done), ok)|
      {
        Inhabited(rest);
        var p :| p in rest;
        PositionsGrow(files, done, p);
        var one := ThinFile(files[p], ok, s, FilesAt(files, done));
        removed := removed + one;
        rest := rest - {p};
        done := done + {p};
      }
      assert done == positions;
    }

    /** Offers an image to the queue. */
    method Offering(e: Offer) returns (result: EnqueueResult)
      modifies this
      ensures (State(), result) == Enqueue(config, old(State()), e)
    {
      var refused := Refuse(e);
      if refused.Some? {
        return refused.value;
      }
      if !e.spaceBefore {
        EmergencyThinForSpace(e.space, e.spaceOk);
      }
      result := Admit(e);
    }

    method Refuse(e: Offer) returns (r: Option<EnqueueResult>)
      ensures r == Refusal(config, State(), e)
    {
      if paused {
        return Some(CapturePaused);
      }
      if e.size < MIN_IMAGE_BYTES {
        return Some(InvalidImage);
      }
      if e.obs > e.now + FUTURE_SLACK {
        return Some(FromFuture);
      }
      if e.now - e.obs > config.maxAge {
        return Some(TooOld);
      }
      r := None;
    }

    /** Names, writes and counts an image that was not refused. */
    method Admit(e: Offer) returns (result: EnqueueResult)
      modifies this
      ensures var s1 := old(State());
              var slot := SlotFor(s1.dir, e.obs);
              var (s2, written) := WriteWithRetry(config, s1, e);
              (State(), result) == Finish(config, s2, slot, e, written)
    {
      var slot, at := FindSlot(e.obs);
      var written := TryWrite(e);
      match written {
        case Written =>
          StoreImage(slot, at, e.obs, e.size);
          result := Queued;
        case NoSpace =>
          paused := true;
          history := Note(State(), SpaceFailure).h;
          result := Full;
        case RenameFailed => result := WriteError;
        case WriteFailed => result := WriteError;
      }
    }

    method StoreImage(slot: int, at: int, ghost obs: int, size: nat)
      requires at == obs + (slot - obs / MILLI) * MILLI
      modifies this
      ensures State() == Store(config, old(State()), slot, obs, size)
    {
      CountImage(slot, at, size);
      UpdateHealthLevel();
    }

    method CountImage(slot: int, at: int, size: nat)
      modifies this`dir, this`count, this`bytes, this`queued, this`newest, this`oldest
      ensures State() == var s := old(State());
                         s.(dir := s.dir[slot := size], count := s.count + 1, bytes := s.bytes + size,
                            queued := s.queued + 1,
                            newest := if s.newest.None? || at > s.newest.value then Some(at) else s.newest,
                            oldest := if s.oldest.None? || at < s.oldest.value then Some(at) else s.oldest)
    {
      dir := dir[slot := size];
      count := count + 1;
      bytes := bytes + size;
      queued := queued + 1;
      if newest.None? || at > newest.value {
        newest := Some(at);
      }
      if oldest.None? || at < oldest.value {
        oldest := Some(at);
      }
    }

    /** Moves an observation time forward by a millisecond until its file name is free. */
    method FindSlot(obs: int) returns (slot: int, at: int)
      ensures slot == SlotFor(dir, obs) && at == obs + (slot - obs / MILLI) * MILLI
      ensures obs / MILLI <= slot <= obs / MILLI + |dir.Keys|
    {
      at := obs;
      slot := at / MILLI;
      FreeSlotIsLeast(dir.Keys, obs / MILLI);
      SubsetSize(Ahead(dir.Keys, obs / MILLI), dir.Keys);
      while slot in dir
        invariant slot >= obs / MILLI && at == obs + (slot - obs / MILLI) * MILLI
        invariant FreeSlot(dir.Keys, slot) == SlotFor(dir, obs)
        decreases |Ahead(dir.Keys, slot)|
      {
        assert Ahead(dir.Keys, slot + 1) == Ahead(dir.Keys, slot) - {slot};
        at := at + MILLI;
        slot := at / MILLI;
      }
    }

    method TryWrite(e: Offer) returns (written: WriteResult)
      modifies this
      ensures (State(), written) == WriteWithRetry(config, old(State()), e)
    {
      if e.write1 != NoSpace {
        return e.write1;
      }
      var _ := EmergencyThinOldest(RECOVERY_RATIO, e.cleanOk);
      written := e.write2;
    }

    /** The next image to upload, not removed: the first of the listing, or its last in catch-up. */
    method DequeueNext(newestFirst: bool) returns (img: Option<Image>)
      ensures img == Dequeue(State(), newestFirst)
    {
      if count == 0 {
        return None;
      }
      var files := ListFilesSorted();
      if |files| == 0 {
        assert dir.Keys == {};
        assert dir == map[];
        return None;
      }
      assert files[0] in Elements(files);
      SortedEnds(dir.Keys);
      assert files[|files|-1] in Elements(files);
      var ms := files[if newestFirst then |files| - 1 else 0];
      img := Some(Image(ms, dir[ms]));
    }

    /** The file is no longer there: the counters are rebuilt from the directory. */
    method ResyncAndSettle()
      modifies this`count, this`bytes, this`oldest, this`newest, this`health, this`paused, this`history
      ensures State() == Settled(config, Resync(old(State())))
    {
      ResyncCountsFromDisk();
      RecalculateOldest();
      UpdateHealthLevel();
    }

    method Uploaded(img: Image, removable: bool)
      modifies this
      ensures State() == MarkUploaded(config, old(State()), img, removable)
    {
      if !removable {
        return;
      }
      if img.ms !in dir {
        ResyncAndSettle();
        ghost var r := State();
        uploaded := uploaded + 1;
        history := history.(alreadyGone := history.alreadyGone + 1);
        assert State() == r.(uploaded := r.uploaded + 1, h := r.h.(alreadyGone := r.h.alreadyGone + 1));
        return;
      }
      TakeDown(img);
      SettleIf(1);
    }

    method TakeDown(img: Image)
      requires img.ms in dir
      modifies this`dir, this`count, this`bytes, this`uploaded, this`history
      ensures State() == var s := old(State());
                         s.(dir := s.dir - {img.ms}, count := Clamp(s.count - 1), bytes := Clamp(s.bytes - img.size),
                            uploaded := s.uploaded + 1, h := s.h.(takenDown := s.h.takenDown + 1))
    {
      dir := dir - {img.ms};
      count := count - 1;
      if count < 0 {
        count := 0;
      }
      bytes := bytes - img.size;
      if bytes < 0 {
        bytes := 0;
      }
      uploaded := uploaded + 1;
      history := history.(takenDown := history.takenDown + 1);
    }

    method DropQueuedImage(img: Image, removable: bool)
      modifies this
      ensures State() == Drop(config, old(State()), img, removable)
    {
      if !removable {
        return;
      }
      if img.ms !in dir {
        ResyncAndSettle();
        return;
      }
      Discard(img);
      SettleIf(1);
    }

    method Discard(img: Image)
      requires img.ms in dir
      modifies this`dir, this`count, this`bytes, this`history
      ensures State() == var s := old(State());
                         s.(dir := s.dir - {img.ms}, count := if s.count > 0 then s.count - 1 else s.count,
                            bytes := if s.bytes >= img.size then s.bytes - img.size else 0,
                            h := s.h.(dropped := s.h.dropped + 1))
    {
      dir := dir - {img.ms};
      if count > 0 {
        count := count - 1;
      }
      if bytes >= img.size {
        bytes := bytes - img.size;
      } else {
        bytes := 0;
      }
      history := history.(dropped := history.dropped + 1);
    }

    /** Stops at the first image of the listing that is young enough. */
    method ExpireOldImages(now: int, ok: Removes) returns (gone: nat)
      modifies this
      ensures State() == Expire(config, old(State()), now, ok)
      ensures gone == expired - old(expired)
    {
      ghost var s := State();
      var files := ListFilesSorted();
      gone := ExpirePrefix(files, now, ok);
      ExpiredIsExpire(config, s, State(), now, ok);
      SettleIf(gone);
    }

    method ExpirePrefix(files: seq<int>, now: int, ok: Removes) returns (gone: nat)
      requires Increasing(files) && Elements(files) == dir.Keys
      modifies this`dir, this`count, this`bytes, this`expired
      ensures var victims := Oldest(files, StalePrefix(config, now, files));
              State() == Expired(old(State()), victims, ok) && gone == |Gone(old(State()), victims, ok)|
    {
      gone := ExpireBelow(files, now, StalePrefix(config, now, files), ok);
    }

    /** Goes down a listing while its files are stale: these are the first `n`. */
    method ExpireBelow(files: seq<int>, now: int, ghost n: nat, ok: Removes) returns (gone: nat)
      requires Increasing(files) && Elements(files) == dir.Keys
      requires n == StalePrefix(config, now, files)
      modifies this`dir, this`count, this`bytes, this`expired
      ensures State() == Expired(old(State()), Elements(files[..n]), ok)
      ensures gone == |Gone(old(State()), Elements(files[..n]), ok)|
    {
      ghost var s := State();
      gone := 0;
      NoPrefix(files);
      TriedNothing(s, Elements(files[..0]), ok);
      var i := 0;
      StaleHere(config, now, files, i);
      var young := i == |files| || !IsStale(config, now, files[i]);
      while !young
        invariant 0 <= i <= n && young == (i == n)
        invariant State() == Expired(s, Elements(files[..i]), ok)
        invariant gone == |Gone(s, Elements(files[..i]), ok)|
        decreases n - i
      {
        var one := ExpireNext(files, i, ok, s);
        gone := gone + one;
        i := i + 1;
        StaleHere(config, now, files, i);
        young := i == |files| || !IsStale(config, now, files[i]);
      }
    }

    /** One remove further down a listing. */
    method ExpireNext(files: seq<int>, i: nat, ok: Removes, ghost s: QueueState) returns (n: nat)
      requires i < |files| && Increasing(files) && Elements(files) == s.dir.Keys
      requires State() == Expired(s, Elements(files[..i]), ok)
      modifies this`dir, this`count, this`bytes, this`expired
      ensures State() == Expired(s, Elements(files[..i+1]), ok)
      ensures |Gone(s, Elements(files[..i+1]), ok)| == |Gone(s, Elements(files[..i]), ok)| + n
    {
      PrefixGrows(files, i);
      n := ExpireFile(files[i], ok, s, Elements(files[..i]));
    }

    method ExpireFile(k: int, ok: Removes, ghost s: QueueState, ghost done: set<int>) returns (n: nat)
      requires k in s.dir && k !in done && State() == Expired(s, done, ok)
      modifies this`dir, this`count, this`bytes, this`expired
      ensures State() == Expired(s, done + {k}, ok)
      ensures |Gone(s, done + {k}, ok)| == |Gone(s, done, ok)| + n
    {
      TryOneMore(s, done, k, ok);
      n := 0;
      if ok(k) {
        count := count - 1;
        bytes := bytes - dir[k];
        expired := expired + 1;
        dir := dir - {k};
        n := 1;
      }
    }
  }

  lemma StaleHere(c: Config, now: int, files: seq<int>, i: nat)
    requires i <= StalePrefix(c, now, files)
    ensures i == |files| || !IsStale(c, now, files[i]) <==> i == StalePrefix(c, now, files)
  {
    StalePrefixStops(c, now, files);
  }

  lemma AttemptsStep(space: nat -> bool, i: nat, limit: nat)
    requires i < limit
    ensures Attempts(space, i, limit) == if space(i) then i + 1 else Attempts(space, i + 1, limit)
  {
  }

  lemma ExpiredIsExpire(c: Config, s: QueueState, t: QueueState, now: int, ok: Removes)
    requires t == Expired(s, Expirable(c, s, now), ok)
    ensures var n := |Gone(s, Expirable(c, s, now), ok)|;
            t.expired == s.expired + n && Expire(c, s, now, ok) == if n > 0 then Settled(c, t) else t
  {
    NothingGone(s, Gone(s, Expirable(c, s, now), ok));
  }

  lemma InsertAt(files: seq<int>, j: nat, k: int)
    requires j <= |files| && Increasing(files)
    requires (forall i :: 0 <= i < j ==> Before(files[i], k)) && (j < |files| ==> Before(k, files[j]))
    ensures var r := files[..j] + [k] + files[j..]; Increasing(r) && Elements(r) == Elements(files) + {k}
  {
    var r := files[..j] + [k] + files[j..];
    assert files == files[..j] + files[j..];
    assert forall x :: x in r <==> x in files || x == k;
    forall a: nat, b: nat | a < b < |r| ensures Before(r[a], r[b]) {
      InsertedBefore(files, j, k, a, b);
    }
  }

  lemma InsertedBefore(files: seq<int>, j: nat, k: int, a: nat, b: nat)
    requires j <= |files| && Increasing(files) && a < b <= |files|
    requires (forall i :: 0 <= i < j ==> Before(files[i], k)) && (j < |files| ==> Before(k, files[j]))
    ensures var r := files[..j] + [k] + files[j..]; Before(r[a], r[b])
  {
    if a == j && b > j + 1 {
      BeforeTransitive(k, files[j], files[b-1]);
    }
  }


  lemma SamePositions(c: Config, health: Health, n: nat, start: nat, candidates: nat, count: nat)
    requires start == KeepOldest(c, n) && candidates == MiddleLength(c, n) && count == ThinCount(c, health, n) > 0
    ensures ThinPositions(c, health, n) == set i: nat | i < count :: start + ThinIndex(i, candidates, count)
  {
  }

  lemma NothingGone(s: QueueState, gone: set<int>)
    requires gone <= s.dir.Keys
    ensures |gone| == 0 <==> gone == {}
    ensures gone == {} ==> TakeOut(s, gone) == s && ThinOut(s, gone) == s
  {
    assert s.dir - {} == s.dir;
  }

  lemma SubsetSize(a: set<int>, b: set<int>)
    requires a <= b
    ensures |a| <= |b|
  {
    assert b == a + (b - a);
  }
}

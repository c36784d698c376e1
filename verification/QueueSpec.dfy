/**
 * One camera's image queue: cached counters beside a directory that is the truth.  Times are in
 * nanoseconds; a timestamp of None is Go's zero time.  Clock readings, free-space readings, the
 * outcome of every remove and of every write are inputs of the step.  `History` records what
 * happened and is never read by the steps.
 */
module QueueSpec {
  import opened Common
  import opened Directory
  import opened Thinning

  const MILLI := 1_000_000
  const FUTURE_SLACK := 5_000_000_000
  const MIN_IMAGE_BYTES: nat := 100
  const RECOVERY_RATIO := 0.3

  /** What the pause latch reads: a health check, a resume check, or a failed space recovery. */
  datatype Reading = HealthCheck(capacity: real) | ResumeCheck(capacity: real) | SpaceFailure

  /**
   * `scanned`: files found at start; `dropped`, `takenDown`: drops and uploads that removed a file;
   * `alreadyGone`: uploads whose file was no longer there; `readings`: everything the latch read;
   * `listed`: the files there when the ends were last read back from the directory.
   */
  datatype History = History(
    scanned: nat, dropped: nat, takenDown: nat, alreadyGone: nat,
    readings: seq<Reading>, listed: set<int>)

  datatype QueueState = QueueState(
    dir: Files,
    count: int, bytes: int, oldest: Option<int>, newest: Option<int>,
    health: Health, paused: bool,
    queued: nat, uploaded: nat, thinned: nat, expired: nat,
    h: History)

  // ----- capacity and the pause latch

  function CountShare(c: Config, count: int): real {
    if c.maxFiles > 0 then count as real / c.maxFiles as real else 0.0
  }

  function ByteShare(c: Config, bytes: int): real {
    if c.maxSizeMB > 0 then bytes as real / (c.maxSizeMB * 1024 * 1024) as real else 0.0
  }

  function Capacity(c: Config, count: int, bytes: int): real {
    if CountShare(c, count) > ByteShare(c, bytes) then CountShare(c, count) else ByteShare(c, bytes)
  }

  function CapacityOf(c: Config, s: QueueState): real {
    Capacity(c, s.count, s.bytes)
  }

  function Classify(c: Config, capacity: real): Health {
    if capacity >= c.critical then Critical
    else if capacity >= c.degraded then Degraded
    else if capacity >= c.catchingUp then CatchingUp
    else Healthy
  }

  function Note(s: QueueState, r: Reading): QueueState {
    s.(h := s.h.(readings := s.h.readings + [r]))
  }

  function UpdateHealth(c: Config, s: QueueState): QueueState {
    var cap := CapacityOf(c, s);
    var paused := s.paused || (cap >= c.critical && c.pauseOnCritical);
    Note(s.(health := Classify(c, cap), paused := paused && !(cap < c.resume)), HealthCheck(cap))
  }

  function TryResume(c: Config, s: QueueState): QueueState {
    var cap := CapacityOf(c, s);
    Note(s.(paused := s.paused && !(cap < c.resume)), ResumeCheck(cap))
  }

  // ----- counters

  /** Oldest and newest as read back from the directory: the ends of the listing. */
  ghost function Recalculate(s: QueueState): QueueState {
    var t := s.(h := s.h.(listed := s.dir.Keys));
    if s.dir == map[] then t.(oldest := None, newest := None)
    else t.(oldest := Some(First(s.dir.Keys) * MILLI), newest := Some(Last(s.dir.Keys) * MILLI))
  }

  ghost function Settled(c: Config, s: QueueState): QueueState {
    UpdateHealth(c, Recalculate(s))
  }

  ghost function Resync(s: QueueState): QueueState {
    s.(count := |s.dir.Keys|, bytes := Total(s.dir))
  }

  ghost function Scan(c: Config, dir: Files): QueueState {
    var s := QueueState(dir, |dir.Keys|, Total(dir), None, None, Healthy, false, 0, 0, 0, 0,
                        History(|dir.Keys|, 0, 0, 0, [], {}));
    UpdateHealth(c, Recalculate(s))
  }

  type Removes = int -> bool

  /** The files of `victims` whose removal succeeds. */
  ghost function Gone(s: QueueState, victims: set<int>, ok: Removes): set<int> {
    set k | k in victims && k in s.dir && ok(k)
  }

  ghost function TakeOut(s: QueueState, gone: set<int>): QueueState
    requires gone <= s.dir.Keys
  {
    s.(dir := s.dir - gone, count := s.count - |gone|, bytes := s.bytes - Bytes(s.dir, gone))
  }

  /** A thinning pass: what could be removed is counted as thinned. */
  ghost function ThinOut(s: QueueState, gone: set<int>): QueueState
    requires gone <= s.dir.Keys
  {
    TakeOut(s, gone).(thinned := s.thinned + |gone|)
  }

  ghost function ThinAndCheck(c: Config, s: QueueState, gone: set<int>): QueueState
    requires gone <= s.dir.Keys
  {
    if gone == {} then s else Settled(c, ThinOut(s, gone))
  }

  ghost function Listing(s: QueueState): seq<int> {
    Sorted(s.dir.Keys)
  }

  // ----- thinning

  /** The files at some positions of a listing. */
  ghost function FilesAt(files: seq<int>, positions: set<int>): set<int> {
    set p | p in positions && 0 <= p < |files| :: files[p]
  }

  ghost function Thin(c: Config, s: QueueState, ok: Removes): QueueState {
    var files := Listing(s);
    ThinAndCheck(c, s, Gone(s, FilesAt(files, ThinPositions(c, s.health, |files|)), ok))
  }

  ghost function Oldest(files: seq<int>, n: nat): set<int> {
    if n <= |files| then Elements(files[..n]) else Elements(files)
  }

  ghost function EmergencyThin(c: Config, s: QueueState, keepRatio: real, ok: Removes): QueueState {
    var files := Listing(s);
    ThinAndCheck(c, s, Gone(s, Oldest(files, EmergencyCount(|files|, keepRatio)), ok))
  }

  /** Space readings after the i-th, (i+1)-th, ... attempt: how many attempts until one suffices. */
  function Attempts(space: nat -> bool, i: nat, limit: nat): (n: nat)
    ensures i <= limit ==> i <= n <= limit
    decreases limit - i
  {
    if i >= limit then limit else if space(i) then i + 1 else Attempts(space, i + 1, limit)
  }

  /** Files from the start of the listing, one per attempt; the last is never among them. */
  ghost function SpaceVictims(files: seq<int>, space: nat -> bool): set<int> {
    if |files| <= 1 then {} else Oldest(files, Attempts(space, 0, |files| - 1))
  }

  /** Frees space from the start of the listing, always keeping its last file; health is not rechecked here. */
  ghost function ThinForSpace(s: QueueState, space: nat -> bool, ok: Removes): QueueState {
    var gone := Gone(s, SpaceVictims(Listing(s), space), ok);
    if gone == {} then s else Recalculate(ThinOut(s, gone))
  }

  // ----- enqueue

  datatype WriteResult = Written | RenameFailed | NoSpace | WriteFailed

  datatype EnqueueResult = Queued | CapturePaused | InvalidImage | FromFuture | TooOld | WriteError | Full

  /**
   * An image of `size` bytes observed at `obs`, offered at `now`.  `spaceBefore` is the first space
   * reading, `space` the readings of the recovery and `spaceOk` its removes; `cleanOk` are the
   * removes of the cleanup between the first and the second write.
   */
  datatype Offer = Offer(obs: int, size: nat, now: int, spaceBefore: bool, space: nat -> bool, spaceOk: Removes,
                         write1: WriteResult, cleanOk: Removes, write2: WriteResult)

  ghost function SlotFor(dir: Files, obs: int): int {
    FreeSlot(dir.Keys, obs / MILLI)
  }

  ghost function Store(c: Config, s: QueueState, slot: int, obs: int, size: nat): QueueState {
    var at := obs + (slot - obs / MILLI) * MILLI;
    UpdateHealth(c, s.(dir := s.dir[slot := size], count := s.count + 1, bytes := s.bytes + size,
                       queued := s.queued + 1,
                       newest := if s.newest.None? || at > s.newest.value then Some(at) else s.newest,
                       oldest := if s.oldest.None? || at < s.oldest.value then Some(at) else s.oldest))
  }

  function Refusal(c: Config, s: QueueState, e: Offer): Option<EnqueueResult> {
    if s.paused then Some(CapturePaused)
    else if e.size < MIN_IMAGE_BYTES then Some(InvalidImage)
    else if e.obs > e.now + FUTURE_SLACK then Some(FromFuture)
    else if e.now - e.obs > c.maxAge then Some(TooOld)
    else None
  }

  /** The write with one retry: its result, and the state the cleanup left behind. */
  ghost function WriteWithRetry(c: Config, s: QueueState, e: Offer): (QueueState, WriteResult) {
    if e.write1 != NoSpace then (s, e.write1)
    else (EmergencyThin(c, s, RECOVERY_RATIO, e.cleanOk), e.write2)
  }

  /** A written image is counted; with no space even after the cleanup, capture is paused. */
  ghost function Finish(
      c: Config, s: QueueState, slot: int, e: Offer, written: WriteResult): (QueueState, EnqueueResult) {
    match written
    case Written => (Store(c, s, slot, e.obs, e.size), Queued)
    case NoSpace => (Note(s.(paused := true), SpaceFailure), Full)
    case RenameFailed => (s, WriteError)
    case WriteFailed => (s, WriteError)
  }

  ghost function Enqueue(c: Config, s: QueueState, e: Offer): (QueueState, EnqueueResult) {
    if Refusal(c, s, e).Some? then (s, Refusal(c, s, e).value)
    else
      var s1 := if e.spaceBefore then s else ThinForSpace(s, e.space, e.spaceOk);
      var slot := SlotFor(s1.dir, e.obs);
      var (s2, written) := WriteWithRetry(c, s1, e);
      Finish(c, s2, slot, e, written)
  }

  // ----- images leaving

  datatype Image = Image(ms: int, size: nat)

  function Clamp(x: int): nat {
    if x < 0 then 0 else x
  }

  /** `removable` is false when the remove fails for another reason than a missing file. */
  ghost function MarkUploaded(c: Config, s: QueueState, img: Image, removable: bool): QueueState {
    if !removable then s
    else if img.ms !in s.dir then
      var r := Settled(c, Resync(s));
      r.(uploaded := r.uploaded + 1, h := r.h.(alreadyGone := r.h.alreadyGone + 1))
    else
      Settled(c, s.(dir := s.dir - {img.ms}, count := Clamp(s.count - 1), bytes := Clamp(s.bytes - img.size),
                    uploaded := s.uploaded + 1, h := s.h.(takenDown := s.h.takenDown + 1)))
  }

  ghost function Drop(c: Config, s: QueueState, img: Image, removable: bool): QueueState {
    if !removable then s
    else if img.ms !in s.dir then Settled(c, Resync(s))
    else
      Settled(c, s.(dir := s.dir - {img.ms}, count := if s.count > 0 then s.count - 1 else s.count,
                    bytes := if s.bytes >= img.size then s.bytes - img.size else 0,
                    h := s.h.(dropped := s.h.dropped + 1)))
  }

  predicate IsStale(c: Config, now: int, k: int) {
    k * MILLI < now - c.maxAge
  }

  /** How many files of a listing are stale before the first that is not. */
  function StalePrefix(c: Config, now: int, files: seq<int>): (n: nat)
    ensures n <= |files|
  {
    if files == [] || !IsStale(c, now, files[0]) then 0 else 1 + StalePrefix(c, now, files[1..])
  }

  lemma {:induction false} StalePrefixStops(c: Config, now: int, files: seq<int>)
    ensures var n := StalePrefix(c, now, files);
            (forall i :: 0 <= i < n ==> IsStale(c, now, files[i])) && (n < |files| ==> !IsStale(c, now, files[n]))
  {
    if files != [] && IsStale(c, now, files[0]) {
      StalePrefixStops(c, now, files[1..]);
      var n := StalePrefix(c, now, files);
      forall i | 0 <= i < n ensures IsStale(c, now, files[i]) {
        assert i > 0 ==> files[i] == files[1..][i-1];
      }
    }
  }

  /** The images expiry tries to remove: it stops at the first that is young enough. */
  ghost function Expirable(c: Config, s: QueueState, now: int): set<int> {
    Oldest(Listing(s), StalePrefix(c, now, Listing(s)))
  }

  ghost function Expire(c: Config, s: QueueState, now: int, ok: Removes): QueueState {
    var gone := Gone(s, Expirable(c, s, now), ok);
    if gone == {} then s
    else Settled(c, TakeOut(s, gone).(expired := s.expired + |gone|))
  }

  /** The image a dequeue hands out without removing it: one end of the listing. */
  ghost function Dequeue(s: QueueState, newestFirst: bool): Option<Image> {
    if s.count == 0 || s.dir == map[] then None
    else
      var ms := if newestFirst then Last(s.dir.Keys) else First(s.dir.Keys);
      Some(Image(ms, s.dir[ms]))
  }

  // ----- runs

  datatype Op =
    | DoEnqueue(offer: Offer)
    | DoThin(ok: Removes)
    | DoEmergencyThin(keepRatio: real, ok: Removes)
    | DoUpload(img: Image, removable: bool)
    | DoDrop(img: Image, removable: bool)
    | DoExpire(now: int, ok: Removes)
    | DoTryResume

  ghost function Step(c: Config, s: QueueState, op: Op): QueueState {
    match op
    case DoEnqueue(e) => Enqueue(c, s, e).0
    case DoThin(ok) => Thin(c, s, ok)
    case DoEmergencyThin(ratio, ok) => EmergencyThin(c, s, ratio, ok)
    case DoUpload(img, removable) => MarkUploaded(c, s, img, removable)
    case DoDrop(img, removable) => Drop(c, s, img, removable)
    case DoExpire(now, ok) => Expire(c, s, now, ok)
    case DoTryResume => TryResume(c, s)
  }

  ghost function Run(c: Config, dir: Files, ops: seq<Op>): QueueState {
    if ops == [] then Scan(c, dir) else Step(c, Run(c, dir, ops[..|ops|-1]), ops[|ops|-1])
  }

  /** An image's name still means the file it was dequeued from, unless that file is gone. */
  predicate Genuine(s: QueueState, img: Image) {
    img.ms in s.dir ==> s.dir[img.ms] == img.size
  }

  predicate OpGenuine(s: QueueState, op: Op) {
    match op
    case DoUpload(img, _) => Genuine(s, img)
    case DoDrop(img, _) => Genuine(s, img)
    case DoEnqueue(_) => true
    case DoThin(_) => true
    case DoEmergencyThin(_, _) => true
    case DoExpire(_, _) => true
    case DoTryResume => true
  }

  ghost predicate GenuineRun(c: Config, dir: Files, ops: seq<Op>) {
    ops == [] ||
    (GenuineRun(c, dir, ops[..|ops|-1]) && OpGenuine(Run(c, dir, ops[..|ops|-1]), ops[|ops|-1]))
  }
}

/** Global memory pressure over all camera queues. */
module QueueManagers {
  import opened Common
  import opened Directory
  import opened Thinning
  import opened QueueSpec
  import opened QueueRuns
  import opened QueueCuts
  import opened QueueLaws
  import opened ImageQueues

  datatype GlobalConfig = GlobalConfig(maxTotalSizeMB: int, emergencyThinRatio: real)

  /**
   * The readings of one pressure check: the free share of the filesystem in percent, if it could be
   * read, whether the heap is over its limit, and the outcome of the removes of each thinning pass.
   */
  datatype Readings = Readings(freePercent: Option<real>, heapHigh: bool, removes: (string, nat) -> Removes)

  ghost function ThinnedIf(c: Config, s: QueueState, now: bool, ratio: real, ok: Removes): QueueState {
    if now then EmergencyThin(c, s, ratio, ok) else s
  }

  /** One queue through one pressure check: total size, filesystem, heap. */
  ghost function Pressed(c: Config, s: QueueState, over: bool, ratio: real, r: Readings, id: string): QueueState {
    ThinnedIf(c, Spaced(c, ThinnedIf(c, s, over, ratio, r.removes(id, 0)), r, id), r.heapHigh, 0.3, r.removes(id, 2))
  }

  lemma Stages(c: Config, s: QueueState, s1: QueueState, s2: QueueState, s3: QueueState,
               over: bool, ratio: real, r: Readings, id: string)
    requires s1 == ThinnedIf(c, s, over, ratio, r.removes(id, 0))
    requires s2 == Spaced(c, s1, r, id)
    requires s3 == ThinnedIf(c, s2, r.heapHigh, 0.3, r.removes(id, 2))
    ensures s3 == Pressed(c, s, over, ratio, r, id)
  {
  }

  ghost function Spaced(c: Config, s: QueueState, r: Readings, id: string): QueueState {
    match r.freePercent
    case None => s
    case Some(free) =>
      if free < 10.0 then EmergencyThin(c, s, 0.3, r.removes(id, 1))
      else if free < 20.0 then EmergencyThin(c, s, 0.5, r.removes(id, 1))
      else TryResume(c, s)
  }

  lemma EmergencyKeepsNewest(c: Config, s: QueueState, ratio: real, ok: Removes)
    requires s.dir.Keys != {}
    ensures var t := EmergencyThin(c, s, ratio, ok); Spares(s, t)
  {
    CutSparesLast(c, s, ByRatio(ratio, ok));
  }

  /** Files only went, and not the image listed last. */
  ghost predicate Spares(s: QueueState, t: QueueState)
    requires s.dir.Keys != {}
  {
    t.dir.Keys <= s.dir.Keys && t.dir.Keys != {} && Last(t.dir.Keys) == Last(s.dir.Keys)
  }

  /** The invariants hold, and the image listed last is still there and still last. */
  ghost predicate Safe(c: Config, s: QueueState, t: QueueState) {
    Inv(c, t) && t.dir.Keys <= s.dir.Keys && (s.dir.Keys != {} ==> Spares(s, t))
  }

  lemma EmergencyIsSafe(c: Config, s: QueueState, t: QueueState, ratio: real, ok: Removes)
    requires Safe(c, s, t)
    ensures Safe(c, s, EmergencyThin(c, t, ratio, ok))
  {
    EmergencyThinKeeps(c, t, ratio, ok);
    if t.dir.Keys != {} {
      EmergencyKeepsNewest(c, t, ratio, ok);
    }
  }

  lemma ResumeIsSafe(c: Config, s: QueueState, t: QueueState)
    requires Safe(c, s, t)
    ensures Safe(c, s, TryResume(c, t))
  {
    LatchStep(c, t.h.readings, ResumeCheck(CapacityOf(c, t)));
  }

  lemma SpacedIsSafe(c: Config, s: QueueState, t: QueueState, r: Readings, id: string)
    requires Safe(c, s, t)
    ensures Safe(c, s, Spaced(c, t, r, id))
  {
    match r.freePercent {
      case None =>
      case Some(free) =>
        if free < 10.0 {
          EmergencyIsSafe(c, s, t, 0.3, r.removes(id, 1));
        } else if free < 20.0 {
          EmergencyIsSafe(c, s, t, 0.5, r.removes(id, 1));
        } else {
          ResumeIsSafe(c, s, t);
        }
    }
  }

  /**
   * A pressure check, with up to three thinning passes, keeps every invariant of a queue and the
   * image listed last, for any configuration and any ratio: the newest, while name order is time order.
   */
  lemma PressureKeeps(c: Config, s: QueueState, over: bool, ratio: real, r: Readings, id: string)
    requires Inv(c, s)
    ensures var t := Pressed(c, s, over, ratio, r, id);
            && Inv(c, t)
            && (s.dir.Keys != {} ==> t.dir.Keys != {} && Last(t.dir.Keys) == Last(s.dir.Keys))
            && (s.dir.Keys != {} && Aligned(s.dir.Keys) ==> Max(t.dir.Keys) == Max(s.dir.Keys))
  {
    var s1 := ThinnedIf(c, s, over, ratio, r.removes(id, 0));
    var s2 := Spaced(c, s1, r, id);
    EmergencyIsSafe(c, s, s, ratio, r.removes(id, 0));
    assert Safe(c, s, s1);
    SpacedIsSafe(c, s, s1, r, id);
    EmergencyIsSafe(c, s, s2, 0.3, r.removes(id, 2));
    var t := Pressed(c, s, over, ratio, r, id);
    assert Safe(c, s, t);
    if s.dir.Keys != {} && Aligned(s.dir.Keys) {
      AlignedEnds(s.dir.Keys);
      AlignedEnds(t.dir.Keys);
    }
  }

  // ----- what a check leaves

  /** How many of n images the first pass keeps: a share of them when the total is over its limit. */
  function KeptBySize(n: nat, over: bool, ratio: real): nat {
    if over then Newest(n, ratio) else n
  }

  /** How many of n the filesystem leaves: three tenths below 10 % free, half below 20 %. */
  function KeptBySpace(n: nat, free: Option<real>): nat {
    match free
    case None => n
    case Some(percent) => if percent < 10.0 then Newest(n, 0.3) else if percent < 20.0 then Newest(n, 0.5) else n
  }

  /** How many of n the heap leaves: three tenths when it is high. */
  function KeptByHeap(n: nat, high: bool): nat {
    if high then Newest(n, 0.3) else n
  }

  /** t holds exactly the newest k files of s's listing. */
  ghost predicate EndOf(s: QueueState, t: QueueState, k: nat) {
    k <= |Listing(s)| && Listing(t) == Listing(s)[|Listing(s)| - k..] && t.dir.Keys == Elements(Listing(t))
  }

  lemma WholeIsEnd(s: QueueState)
    ensures EndOf(s, s, |Listing(s)|)
  {
    SortedListing(s.dir.Keys);
    assert Listing(s)[0..] == Listing(s);
  }

  lemma EmergencyEnd(c: Config, t: QueueState, u: QueueState, share: real, ok: Removes)
    requires AllWork(ok) && u == EmergencyThin(c, t, share, ok)
    ensures EndOf(t, u, Newest(|Listing(t)|, share))
  {
    EmergencyFate(c, t, share, ok);
  }

  lemma EndOfEnd(s: QueueState, t: QueueState, u: QueueState, k: nat, m: nat)
    requires EndOf(s, t, k) && EndOf(t, u, m)
    ensures |Listing(t)| == k && EndOf(s, u, m)
  {
    var files := Listing(s);
    assert files[|files| - k..][k - m..] == files[|files| - m..];
  }

  lemma ThinnedEnd(c: Config, s: QueueState, t: QueueState, u: QueueState, k: nat, share: real, ok: Removes)
    requires EndOf(s, t, k) && AllWork(ok) && u == EmergencyThin(c, t, share, ok)
    ensures EndOf(s, u, Newest(k, share))
  {
    EmergencyEnd(c, t, u, share, ok);
    EndOfEnd(s, t, u, k, Newest(|Listing(t)|, share));
  }

  lemma ResumedEnd(c: Config, s: QueueState, t: QueueState, k: nat)
    requires EndOf(s, t, k)
    ensures EndOf(s, TryResume(c, t), k)
  {
  }

  lemma SpacedEnd(c: Config, s: QueueState, t: QueueState, u: QueueState, k: nat, r: Readings, id: string)
    requires EndOf(s, t, k) && AllWork(r.removes(id, 1)) && u == Spaced(c, t, r, id)
    ensures EndOf(s, u, KeptBySpace(k, r.freePercent))
  {
    match r.freePercent {
      case None =>
      case Some(free) =>
        if free < 10.0 {
          ThinnedEnd(c, s, t, u, k, 0.3, r.removes(id, 1));
        } else if free < 20.0 {
          ThinnedEnd(c, s, t, u, k, 0.5, r.removes(id, 1));
        } else {
          ResumedEnd(c, s, t, k);
        }
    }
  }

  /**
   * A check whose removes succeed keeps exactly the newest images of the listing, as many as the
   * three passes leave one after another: for the total size, the filesystem and the heap.
   */
  lemma PressureFate(c: Config, s: QueueState, over: bool, ratio: real, r: Readings, id: string,
                     k1: nat, k2: nat, k3: nat)
    requires AllWork(r.removes(id, 0)) && AllWork(r.removes(id, 1)) && AllWork(r.removes(id, 2))
    requires k1 == KeptBySize(|Listing(s)|, over, ratio)
    requires k2 == KeptBySpace(k1, r.freePercent)
    requires k3 == KeptByHeap(k2, r.heapHigh)
    ensures EndOf(s, Pressed(c, s, over, ratio, r, id), k3)
  {
    var s1 := ThinnedIf(c, s, over, ratio, r.removes(id, 0));
    var s2 := Spaced(c, s1, r, id);
    var s3 := ThinnedIf(c, s2, r.heapHigh, 0.3, r.removes(id, 2));
    SizedEnd(c, s, s1, over, ratio, r.removes(id, 0));
    SpacedEnd(c, s, s1, s2, k1, r, id);
    HeapedEnd(c, s, s2, s3, k2, r.heapHigh, r.removes(id, 2));
    Stages(c, s, s1, s2, s3, over, ratio, r, id);
  }

  lemma SizedEnd(c: Config, s: QueueState, u: QueueState, over: bool, ratio: real, ok: Removes)
    requires AllWork(ok) && u == ThinnedIf(c, s, over, ratio, ok)
    ensures EndOf(s, u, KeptBySize(|Listing(s)|, over, ratio))
  {
    WholeIsEnd(s);
    if over {
      ThinnedEnd(c, s, s, u, |Listing(s)|, ratio, ok);
    }
  }

  lemma HeapedEnd(c: Config, s: QueueState, t: QueueState, u: QueueState, k: nat, high: bool, ok: Removes)
    requires EndOf(s, t, k) && AllWork(ok) && u == ThinnedIf(c, t, high, 0.3, ok)
    ensures EndOf(s, u, KeptByHeap(k, high))
  {
    if high {
      ThinnedEnd(c, s, t, u, k, 0.3, ok);
    }
  }

  /** With a fifth of the filesystem free, a queue that is not thinned only has its pause looked at. */
  lemma RoomFate(c: Config, s: QueueState, ratio: real, r: Readings, id: string)
    requires s.count >= 0 && s.bytes >= 0 && r.freePercent.Some? && r.freePercent.value >= 20.0 && !r.heapHigh
    ensures var t := Pressed(c, s, false, ratio, r, id);
            t.paused == (s.paused && AtLeast(c, s.count, s.bytes, c.resume)) && t.dir == s.dir && t.health == s.health
  {
    ResumeFate(c, s);
  }

  // ----- the sum over all queues

  ghost function SumOver(sizes: map<string, int>, ids: set<string>): int
    requires ids <= sizes.Keys
    decreases |ids|
  {
    if ids == {} then 0
    else
      var id :| id in ids;
      sizes[id] + SumOver(sizes, ids - {id})
  }

  lemma {:induction false} SumWithout(sizes: map<string, int>, ids: set<string>, id: string)
    requires ids <= sizes.Keys && id in ids
    ensures SumOver(sizes, ids) == sizes[id] + SumOver(sizes, ids - {id})
    decreases |ids|
  {
    var x :| x in ids && SumOver(sizes, ids) == sizes[x] + SumOver(sizes, ids - {x});
    if x != id {
      SumWithout(sizes, ids - {x}, id);
      SumWithout(sizes, ids - {id}, x);
      assert ids - {x} - {id} == ids - {id} - {x};
    }
  }

  class QueueManager {
    const config: GlobalConfig
    var queues: map<string, ImageQueue>
    var currentTotalSize: int

    constructor (config: GlobalConfig)
      ensures Valid() && queues == map[] && this.config == config
    {
      this.config := config;
      queues := map[];
      currentTotalSize := 0;
    }

    /** Every camera has its own queue. */
    ghost predicate Valid()
      reads this
    {
      forall a, b :: a in queues && b in queues && a != b ==> queues[a] != queues[b]
    }

    ghost function Sizes(): map<string, int>
      reads this, queues.Values
    {
      map id | id in queues :: queues[id].bytes
    }

    /** Adds a camera's queue unless the camera has one already. */
    method CreateQueue(id: string, q: ImageQueue) returns (ok: bool)
      requires Valid() && q !in queues.Values
      modifies this`queues
      ensures Valid() && ok == (id !in old(queues))
      ensures queues == if ok then old(queues)[id := q] else old(queues)
    {
      if id in queues {
        return false;
      }
      queues := queues[id := q];
      ok := true;
    }

    method TotalQueueSize() returns (total: int)
      requires Valid()
      ensures total == SumOver(Sizes(), queues.Keys)
    {
      total := 0;
      var rest := queues.Keys;
      ghost var done: set<string> := {};
      while rest != {}
        invariant done == queues.Keys - rest && rest <= queues.Keys
        invariant total == SumOver(Sizes(), done)
      {
        var id :| id in rest;
        total := total + queues[id].bytes;
        rest := rest - {id};
        SumWithout(Sizes(), done + {id}, id);
        assert done + {id} - {id} == done;
        done := done + {id};
      }
      assert done == queues.Keys;
    }

    /** One emergency pass over every queue, in no particular order. */
    method ThinAll(keepRatio: real, pass: nat, removes: (string, nat) -> Removes)
      requires Valid()
      modifies queues.Values
      ensures Valid()
      ensures forall id :: id in queues ==>
                queues[id].State() ==
                EmergencyThin(queues[id].config, old(queues[id].State()), keepRatio, removes(id, pass))
    {
      var rest := queues.Keys;
      while rest != {}
        invariant rest <= queues.Keys
        invariant forall id :: id in queues ==>
                    queues[id].State() ==
                    ThinnedIf(queues[id].config, old(queues[id].State()), id !in rest, keepRatio, removes(id, pass))
      {
        var id :| id in rest;
        ThinOne(queues[id], keepRatio, removes(id, pass));
        rest := rest - {id};
      }
    }

    static method ThinOne(q: ImageQueue, keepRatio: real, ok: Removes)
      modifies q
      ensures q.State() == ThinnedIf(q.config, old(q.State()), true, keepRatio, ok)
    {
      var _ := q.EmergencyThinOldest(keepRatio, ok);
    }

    method TryResumePausedCaptures()
      requires Valid()
      modifies queues.Values
      ensures Valid()
      ensures forall id :: id in queues ==>
                queues[id].State() == TryResume(queues[id].config, old(queues[id].State()))
    {
      var rest := queues.Keys;
      while rest != {}
        invariant rest <= queues.Keys
        invariant forall id :: id in rest ==> queues[id].State() == old(queues[id].State())
        invariant forall id :: id in queues && id !in rest ==>
                    queues[id].State() == TryResume(queues[id].config, old(queues[id].State()))
      {
        var id :| id in rest;
        var _ := queues[id].TryResumeCaptureIfPaused();
        rest := rest - {id};
      }
    }

    method CheckFilesystemSpace(r: Readings)
      requires Valid()
      modifies queues.Values
      ensures Valid()
      ensures forall id :: id in queues ==>
                queues[id].State() == Spaced(queues[id].config, old(queues[id].State()), r, id)
    {
      match r.freePercent {
        case None =>
        case Some(free) =>
          if free < 10.0 {
            ThinAll(0.3, 1, r.removes);
          } else if free < 20.0 {
            ThinAll(0.5, 1, r.removes);
          } else {
            TryResumePausedCaptures();
          }
      }
    }

    method ThinAllIf(now: bool, keepRatio: real, pass: nat, removes: (string, nat) -> Removes)
      requires Valid()
      modifies queues.Values
      ensures Valid()
      ensures forall id :: id in queues ==>
                queues[id].State() ==
                ThinnedIf(queues[id].config, old(queues[id].State()), now, keepRatio, removes(id, pass))
    {
      if now {
        ThinAll(keepRatio, pass, removes);
      }
    }

    method Relieve(over: bool, r: Readings)
      requires Valid()
      modifies queues.Values
      ensures Valid()
      ensures forall id :: id in queues ==>
                queues[id].State() ==
                Pressed(queues[id].config, old(queues[id].State()), over, config.emergencyThinRatio, r, id)
    {
      ThinAllIf(over, config.emergencyThinRatio, 0, r.removes);
      label AfterTotal:
      CheckFilesystemSpace(r);
      label AfterSpace:
      ThinAllIf(r.heapHigh, 0.3, 2, r.removes);
      forall id | id in queues
        ensures queues[id].State() ==
                Pressed(queues[id].config, old(queues[id].State()), over, config.emergencyThinRatio, r, id)
      {
        var q := queues[id];
        Stages(q.config, old(q.State()), old@AfterTotal(q.State()), old@AfterSpace(q.State()), q.State(),
               over, config.emergencyThinRatio, r, id);
      }
    }

    method CheckMemoryPressure(r: Readings)
      requires Valid()
      modifies this`currentTotalSize, queues.Values
      ensures Valid() && currentTotalSize == SumOver(old(Sizes()), old(queues.Keys))
      ensures forall id :: id in queues ==>
                queues[id].State() ==
                Pressed(queues[id].config, old(queues[id].State()),
                        currentTotalSize > config.maxTotalSizeMB * 1024 * 1024,
                        config.emergencyThinRatio, r, id)
    {
      currentTotalSize := TotalQueueSize();
      Relieve(currentTotalSize > config.maxTotalSizeMB * 1024 * 1024, r);
    }
  }
}

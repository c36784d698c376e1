/**
 * The interceptor hand-off: many request handlers, one posting worker, a latest-wins map of pending
 * jobs and a wake channel with one slot.  Every step is what one goroutine does between two lock or
 * channel operations; steps of different goroutines interleave freely.
 */
module InterceptorSpec {
  import opened Common
  import opened Subsequences

  const EMIT_INTERVAL := 1_000_000_000

  datatype Job = Job(station: string, observation: string)

  /** Idle: waiting for a wake-up.  Draining: about to look for jobs.  Posting: has jobs left to post. */
  datatype Worker = Idle | Draining | Posting(jobs: seq<Job>) | Stopped

  datatype Emission = Emission(station: string, at: int)

  /** The routes were replaced, keeping the stations of `keep`, after `at` emissions. */
  datatype RouteMark = RouteMark(at: nat, keep: set<string>)

  /**
   * What happened, never read by the steps.  `put` lists the jobs in the order they became pending,
   * `posted` those handed to the poster.  `cut` has the stations whose latest job was thrown away,
   * by new routes or by the shutdown.
   */
  datatype History = History(
    emissions: seq<Emission>, marks: seq<RouteMark>, put: seq<Job>, posted: seq<Job>, cut: set<string>)

  /**
   * `accepted` are jobs of handlers between the rate check and the pending map; `signalling` counts
   * handlers between the pending map and the wake channel.
   */
  datatype Hub = Hub(
    lastEmit: map<string, int>,
    accepted: multiset<Job>,
    pending: map<string, Job>,
    signalling: nat,
    wake: bool,
    worker: Worker,
    stopping: bool,
    h: History)

  function Init(): Hub {
    Hub(map[], multiset{}, map[], 0, false, Idle, false, History([], [], [], [], {}))
  }

  // ----- handlers

  predicate MayEmit(h: Hub, station: string, now: int) {
    station in h.lastEmit ==> now - h.lastEmit[station] >= EMIT_INTERVAL
  }

  /** The one-per-second check; the handler's clock was read before it got the lock. */
  function Emit(h: Hub, job: Job, now: int): Hub {
    if !MayEmit(h, job.station, now) then h
    else h.(lastEmit := h.lastEmit[job.station := now],
            accepted := h.accepted + multiset{job},
            h := h.h.(emissions := h.h.emissions + [Emission(job.station, now)]))
  }

  function Put(h: Hub, job: Job): Hub {
    h.(accepted := h.accepted - multiset{job},
       pending := h.pending[job.station := job],
       signalling := h.signalling + 1,
       h := h.h.(put := h.h.put + [job], cut := h.h.cut - {job.station}))
  }

  /** Wakes the worker, unless the slot is taken. */
  function Signal(h: Hub): Hub
    requires h.signalling > 0
  {
    h.(signalling := h.signalling - 1, wake := true)
  }

  // ----- configuration

  function SetRoutes(h: Hub, keep: set<string>): Hub {
    h.(lastEmit := map s | s in h.lastEmit && s in keep :: h.lastEmit[s],
       pending := map s | s in h.pending && s in keep :: h.pending[s],
       h := h.h.(marks := h.h.marks + [RouteMark(|h.h.emissions|, keep)],
                 cut := h.h.cut + (h.pending.Keys - keep)))
  }

  // ----- the worker

  /** `jobs` lists the values of the pending map, each once, in any order. */
  ghost predicate Enumerates(jobs: seq<Job>, pending: map<string, Job>) {
    && (forall i, j :: 0 <= i < j < |jobs| ==> jobs[i].station != jobs[j].station)
    && (forall i :: 0 <= i < |jobs| ==> jobs[i].station in pending && pending[jobs[i].station] == jobs[i])
    && (forall s :: s in pending ==> pending[s] in jobs)
  }

  function Take(h: Hub, jobs: seq<Job>): Hub {
    if h.pending == map[] then h.(worker := Idle)
    else h.(pending := map[], worker := Posting(jobs))
  }

  function PostNext(h: Hub): Hub
    requires h.worker.Posting? && h.worker.jobs != []
  {
    h.(worker := Posting(h.worker.jobs[1..]), h := h.h.(posted := h.h.posted + [h.worker.jobs[0]]))
  }

  function Batch(w: Worker): seq<Job> {
    if w.Posting? then w.jobs else []
  }

  function Stations(jobs: seq<Job>): set<string> {
    set j | j in jobs :: j.station
  }

  function StopWorker(h: Hub): Hub {
    h.(pending := map[], worker := Stopped, h := h.h.(cut := h.h.cut + h.pending.Keys + Stations(Batch(h.worker))))
  }

  datatype Step =
    | DoEmit(job: Job, now: int)
    | DoPut(job: Job)
    | DoSignal
    | DoSetRoutes(keep: set<string>)
    | DoWake
    | DoTake(jobs: seq<Job>)
    | DoPost
    | DoFinish
    | DoRequestStop
    | DoStopWorker

  ghost predicate Enabled(h: Hub, s: Step) {
    match s
    case DoEmit(_, _) => true
    case DoPut(job) => job in h.accepted
    case DoSignal => h.signalling > 0
    case DoSetRoutes(_) => true
    case DoWake => h.worker == Idle && h.wake
    case DoTake(jobs) => h.worker == Draining && !h.stopping && Enumerates(jobs, h.pending)
    case DoPost => h.worker.Posting? && h.worker.jobs != [] && !h.stopping
    case DoFinish => h.worker == Posting([])
    case DoRequestStop => true
    case DoStopWorker => h.stopping && h.worker != Stopped
  }

  function Next(h: Hub, s: Step): Hub {
    match s
    case DoEmit(job, now) => Emit(h, job, now)
    case DoPut(job) => Put(h, job)
    case DoSignal => if h.signalling > 0 then Signal(h) else h
    case DoSetRoutes(keep) => SetRoutes(h, keep)
    case DoWake => h.(wake := false, worker := Draining)
    case DoTake(jobs) => Take(h, jobs)
    case DoPost => if h.worker.Posting? && h.worker.jobs != [] then PostNext(h) else h
    case DoFinish => h.(worker := Draining)
    case DoRequestStop => h.(stopping := true)
    case DoStopWorker => StopWorker(h)
  }

  function Run(steps: seq<Step>): Hub {
    if steps == [] then Init() else Next(Run(steps[..|steps|-1]), steps[|steps|-1])
  }

  ghost predicate Possible(steps: seq<Step>) {
    steps == [] ||
    (Possible(steps[..|steps|-1]) && Enabled(Run(steps[..|steps|-1]), steps[|steps|-1]))
  }

  // ----- invariants

  function Of(station: string, jobs: seq<Job>): seq<Job> {
    if jobs == [] then []
    else
      var front, last := Of(station, jobs[..|jobs|-1]), jobs[|jobs|-1];
      if last.station == station then front + [last] else front
  }

  /** What a station's jobs have come to: posted, being posted, and the one pending. */
  function Handled(h: Hub, station: string): seq<Job> {
    Of(station, h.h.posted) + Of(station, Batch(h.worker)) + PendingOf(h, station)
  }

  function PendingOf(h: Hub, station: string): seq<Job> {
    if station in h.pending then [h.pending[station]] else []
  }

  predicate SameLast(a: seq<Job>, b: seq<Job>) {
    a != [] && b != [] && a[|a|-1] == b[|b|-1]
  }

  ghost predicate LatestWins(h: Hub, station: string) {
    && Sub(Handled(h, station), Of(station, h.h.put))
    && (station !in h.h.cut && Of(station, h.h.put) != [] ==> SameLast(Handled(h, station), Of(station, h.h.put)))
  }

  /** Pending work always has someone on the way to it. */
  predicate NoLostWake(h: Hub) {
    h.pending != map[] ==> h.wake || h.signalling > 0 || h.worker != Idle
  }

  predicate Keyed(h: Hub) {
    forall s :: s in h.pending ==> h.pending[s].station == s
  }

  ghost predicate Unbroken(marks: seq<RouteMark>, station: string, i: int, j: int) {
    forall m :: m in marks && i < m.at <= j ==> station in m.keep
  }

  ghost predicate Spaced(h: History) {
    forall i, j :: 0 <= i < j < |h.emissions| && h.emissions[i].station == h.emissions[j].station
                   && Unbroken(h.marks, h.emissions[i].station, i, j)
                   ==> h.emissions[j].at >= h.emissions[i].at + EMIT_INTERVAL
  }

  ghost predicate Remembered(h: Hub) {
    && (forall m :: m in h.h.marks ==> m.at <= |h.h.emissions|)
    && (forall i :: 0 <= i < |h.h.emissions| && Unbroken(h.h.marks, h.h.emissions[i].station, i, |h.h.emissions|)
                    ==> h.h.emissions[i].station in h.lastEmit
                        && h.lastEmit[h.h.emissions[i].station] >= h.h.emissions[i].at)
  }

  ghost predicate Inv(h: Hub) {
    && NoLostWake(h) && Keyed(h) && Spaced(h.h) && Remembered(h)
    && forall s :: LatestWins(h, s)
  }

  lemma OfGrows(station: string, jobs: seq<Job>, j: Job)
    ensures Of(station, jobs + [j]) == Of(station, jobs) + (if j.station == station then [j] else [])
  {
    assert (jobs + [j])[..|jobs|] == jobs;
  }

  lemma {:induction false} OfHead(station: string, jobs: seq<Job>)
    requires jobs != []
    ensures Of(station, jobs) == (if jobs[0].station == station then [jobs[0]] else []) + Of(station, jobs[1..])
  {
    var front, last := jobs[..|jobs|-1], jobs[|jobs|-1];
    if front == [] {
      assert jobs[1..] == [] && Of(station, front) == [];
    } else {
      OfHead(station, front);
      assert jobs[1..] == front[1..] + [last];
      OfGrows(station, front[1..], last);
    }
  }

  lemma {:induction false} OfNone(station: string, jobs: seq<Job>)
    requires forall j :: j in jobs ==> j.station != station
    ensures Of(station, jobs) == []
  {
    if jobs != [] {
      OfNone(station, jobs[..|jobs|-1]);
    }
  }

  /** Enumerating the pending map moves each station's job, and only that, into the batch. */
  lemma TakeMoves(pending: map<string, Job>, jobs: seq<Job>, station: string)
    requires Enumerates(jobs, pending) && forall s :: s in pending ==> pending[s].station == s
    ensures Of(station, jobs) == if station in pending then [pending[station]] else []
  {
    if station in pending {
      var i :| 0 <= i < |jobs| && jobs[i] == pending[station];
      SoleJob(station, jobs, i);
    } else {
      OfNone(station, jobs);
    }
  }

  lemma {:induction false} SoleJob(station: string, jobs: seq<Job>, i: nat)
    requires i < |jobs| && jobs[i].station == station
    requires forall a, b :: 0 <= a < b < |jobs| ==> jobs[a].station != jobs[b].station
    ensures Of(station, jobs) == [jobs[i]]
  {
    var front := jobs[..|jobs|-1];
    if i == |jobs| - 1 {
      forall j | j in front ensures j.station != station {
        var a :| 0 <= a < |front| && front[a] == j;
        assert jobs[a] == j;
      }
      OfNone(station, front);
    } else {
      SoleJob(station, front, i);
      assert jobs[|jobs|-1].station != station;
    }
  }

  /** What a station has handed over or is handing over; its pending job is not part of it. */
  function Before(h: Hub, s: string): seq<Job> {
    Of(s, h.h.posted) + Of(s, Batch(h.worker))
  }

  /** Without its pending job, if it has one, a station's sequence still follows what was put. */
  lemma WithoutPending(before: seq<Job>, pending: seq<Job>, put: seq<Job>)
    requires Sub(before + pending, put) && |pending| <= 1
    ensures Sub(before, put)
  {
    if pending == [] {
      assert before + pending == before;
    } else {
      SubFront(before + pending, put);
      assert (before + pending)[..|before|] == before;
    }
  }

  lemma PutHandled(h: Hub, job: Job, s: string)
    ensures Handled(Put(h, job), s) == if s == job.station then Before(h, s) + [job] else Handled(h, s)
  {
  }

  lemma PutKeeps(h: Hub, job: Job, s: string)
    requires LatestWins(h, s)
    ensures LatestWins(Put(h, job), s)
  {
    OfGrows(s, h.h.put, job);
    PutHandled(h, job, s);
    if s == job.station {
      WithoutPending(Before(h, s), PendingOf(h, s), Of(s, h.h.put));
      SubGrow(Before(h, s), Of(s, h.h.put), job);
    }
  }

  lemma RoutesHandled(h: Hub, keep: set<string>, s: string)
    ensures var h' := SetRoutes(h, keep);
            Handled(h', s) == if s in h.pending && s !in keep then Before(h, s) else Handled(h, s)
  {
    assert Before(h, s) + [] == Before(h, s);
  }

  lemma RoutesKeep(h: Hub, keep: set<string>, s: string)
    requires LatestWins(h, s)
    ensures LatestWins(SetRoutes(h, keep), s)
  {
    RoutesHandled(h, keep, s);
    if s in h.pending && s !in keep {
      WithoutPending(Before(h, s), PendingOf(h, s), Of(s, h.h.put));
    }
  }

  lemma TakeHandled(h: Hub, jobs: seq<Job>, s: string)
    requires Keyed(h) && h.worker == Draining && Enumerates(jobs, h.pending)
    ensures Handled(Take(h, jobs), s) == Handled(h, s)
  {
    if h.pending != map[] {
      TakeMoves(h.pending, jobs, s);
    }
  }

  lemma TakeKeeps(h: Hub, jobs: seq<Job>, s: string)
    requires LatestWins(h, s) && Keyed(h) && h.worker == Draining && Enumerates(jobs, h.pending)
    ensures LatestWins(Take(h, jobs), s)
  {
    TakeHandled(h, jobs, s);
  }

  lemma Regroup(a: seq<Job>, b: seq<Job>, c: seq<Job>, d: seq<Job>)
    ensures a + (b + c) + d == (a + b) + c + d
  {
  }

  /** The job handed over moves from the batch to the posted ones; the station's sequence stays. */
  lemma PostHandled(h: Hub, s: string)
    requires h.worker.Posting? && h.worker.jobs != []
    ensures Handled(PostNext(h), s) == Handled(h, s)
  {
    OfHead(s, h.worker.jobs);
    OfGrows(s, h.h.posted, h.worker.jobs[0]);
    var one := if h.worker.jobs[0].station == s then [h.worker.jobs[0]] else [];
    Regroup(Of(s, h.h.posted), one, Of(s, h.worker.jobs[1..]), PendingOf(h, s));
  }

  lemma PostKeeps(h: Hub, s: string)
    requires LatestWins(h, s) && h.worker.Posting? && h.worker.jobs != []
    ensures LatestWins(PostNext(h), s)
  {
    PostHandled(h, s);
  }

  lemma StopKeeps(h: Hub, s: string)
    requires LatestWins(h, s)
    ensures LatestWins(StopWorker(h), s)
  {
    var h' := StopWorker(h);
    var posted, batch, pending := Of(s, h.h.posted), Of(s, Batch(h.worker)), PendingOf(h, s);
    assert Handled(h', s) == posted;
    assert Handled(h, s) == posted + (batch + pending);
    SubPrefix(posted, [], batch + pending);
    assert posted + [] == posted;
    SubTrans(posted, Handled(h, s), Of(s, h.h.put));
    if s !in h'.h.cut {
      OfNone(s, Batch(h.worker)) by {
        forall j | j in Batch(h.worker) ensures j.station != s {
          assert j.station in Stations(Batch(h.worker));
        }
      }
      assert Handled(h, s) == posted;
    }
  }

  lemma EmitKeeps(h: Hub, job: Job, now: int)
    requires Spaced(h.h) && Remembered(h)
    ensures Spaced(Emit(h, job, now).h) && Remembered(Emit(h, job, now))
  {
    if MayEmit(h, job.station, now) {
      var h' := Emit(h, job, now);
      var n := |h.h.emissions|;
      assert h'.h.emissions == h.h.emissions + [Emission(job.station, now)];
      forall i, j | 0 <= i < j < |h'.h.emissions| && h'.h.emissions[i].station == h'.h.emissions[j].station
                    && Unbroken(h'.h.marks, h'.h.emissions[i].station, i, j)
        ensures h'.h.emissions[j].at >= h'.h.emissions[i].at + EMIT_INTERVAL
      {
        assert h'.h.emissions[i] == h.h.emissions[i];
        if j < n {
          assert h'.h.emissions[j] == h.h.emissions[j];
        }
      }
      forall i | 0 <= i < |h'.h.emissions| && Unbroken(h'.h.marks, h'.h.emissions[i].station, i, |h'.h.emissions|)
        ensures h'.h.emissions[i].station in h'.lastEmit
                && h'.lastEmit[h'.h.emissions[i].station] >= h'.h.emissions[i].at
      {
        if i < n {
          assert h'.h.emissions[i] == h.h.emissions[i];
          assert Unbroken(h.h.marks, h.h.emissions[i].station, i, n);
        }
      }
    }
  }

  lemma RoutesKeepSpacing(h: Hub, keep: set<string>)
    requires Spaced(h.h) && Remembered(h)
    ensures Spaced(SetRoutes(h, keep).h) && Remembered(SetRoutes(h, keep))
  {
    var h' := SetRoutes(h, keep);
    assert RouteMark(|h.h.emissions|, keep) in h'.h.marks;
    assert forall m :: m in h.h.marks ==> m in h'.h.marks;
  }

  lemma OrderKeeps(h: Hub, step: Step, s: string)
    requires Keyed(h) && LatestWins(h, s) && Enabled(h, step)
    ensures LatestWins(Next(h, step), s)
  {
    match step {
      case DoEmit(job, now) => assert Handled(Emit(h, job, now), s) == Handled(h, s);
      case DoPut(job) => PutKeeps(h, job, s);
      case DoSignal =>
      case DoSetRoutes(keep) => RoutesKeep(h, keep, s);
      case DoWake => assert Handled(Next(h, step), s) == Handled(h, s);
      case DoTake(jobs) => TakeKeeps(h, jobs, s);
      case DoPost => PostKeeps(h, s);
      case DoFinish => assert Handled(Next(h, step), s) == Handled(h, s);
      case DoRequestStop => assert Handled(Next(h, step), s) == Handled(h, s);
      case DoStopWorker => StopKeeps(h, s);
    }
  }

  lemma StepKeeps(h: Hub, step: Step)
    requires Inv(h) && Enabled(h, step)
    ensures Inv(Next(h, step))
  {
    forall s ensures LatestWins(Next(h, step), s) {
      OrderKeeps(h, step, s);
    }
    if step.DoEmit? {
      EmitKeeps(h, step.job, step.now);
    }
    if step.DoSetRoutes? {
      RoutesKeepSpacing(h, step.keep);
    }
  }

  lemma {:induction false} RunKeeps(steps: seq<Step>)
    requires Possible(steps)
    ensures Inv(Run(steps))
  {
    if steps != [] {
      RunKeeps(steps[..|steps|-1]);
      StepKeeps(Run(steps[..|steps|-1]), steps[|steps|-1]);
    }
  }

  // ----- what every interleaving keeps

  /** The worker is waiting, nobody is about to wake it, and it has not been told to stop. */
  predicate Quiescent(h: Hub) {
    h.worker == Idle && !h.wake && h.signalling == 0
  }

  /**
   * Wake-ups are never lost: when the hub is quiescent nothing is pending, and for every station
   * whose latest job was not thrown away by new routes, that job was the last one posted.
   */
  lemma {:induction false} WakeUpsAreNotLost(steps: seq<Step>, station: string)
    requires Possible(steps) && Quiescent(Run(steps))
    ensures var h := Run(steps);
            && h.pending == map[]
            && Sub(Of(station, h.h.posted), Of(station, h.h.put))
            && (station !in h.h.cut && Of(station, h.h.put) != [] ==>
                  SameLast(Of(station, h.h.posted), Of(station, h.h.put)))
  {
    RunKeeps(steps);
    var h := Run(steps);
    assert LatestWins(h, station);
    assert Handled(h, station) == Of(station, h.h.posted);
  }

  /** At any moment, each station's jobs reach the poster in the order they became pending. */
  lemma {:induction false} PostedInOrder(steps: seq<Step>, station: string)
    requires Possible(steps)
    ensures Sub(Of(station, Run(steps).h.posted), Of(station, Run(steps).h.put))
  {
    RunKeeps(steps);
    var h := Run(steps);
    assert LatestWins(h, station);
    var posted, rest := Of(station, h.h.posted), Of(station, Batch(h.worker)) + PendingOf(h, station);
    SubPrefix(posted, [], rest);
    assert posted + [] == posted && posted + rest == Handled(h, station);
    SubTrans(posted, Handled(h, station), Of(station, h.h.put));
  }

  /** Accepted requests of a station that stayed routed are a second apart, whatever clocks the handlers saw. */
  lemma {:induction false} EmissionsSpaced(steps: seq<Step>, i: nat, j: nat)
    requires Possible(steps) && i < j < |Run(steps).h.emissions|
    requires Run(steps).h.emissions[i].station == Run(steps).h.emissions[j].station
    requires Unbroken(Run(steps).h.marks, Run(steps).h.emissions[i].station, i, j)
    ensures Run(steps).h.emissions[j].at >= Run(steps).h.emissions[i].at + EMIT_INTERVAL
  {
    RunKeeps(steps);
  }

  // ----- what the rate check lets through

  /** Every stamp is that of an emission of its station since the routes last dropped it. */
  ghost predicate Witnessed(h: Hub) {
    && (forall m :: m in h.h.marks ==> m.at <= |h.h.emissions|)
    && forall s :: s in h.lastEmit ==> exists i :: Stamps(h, s, i)
  }

  ghost predicate Stamps(h: Hub, s: string, i: int) {
    && 0 <= i < |h.h.emissions| && h.h.emissions[i].station == s && s in h.lastEmit
    && h.h.emissions[i].at == h.lastEmit[s] && Unbroken(h.h.marks, s, i, |h.h.emissions|)
  }

  lemma EmitStamps(h: Hub, job: Job, now: int)
    requires Witnessed(h)
    ensures Witnessed(Emit(h, job, now))
  {
    var t := Emit(h, job, now);
    forall s | s in t.lastEmit ensures exists i :: Stamps(t, s, i) {
      if t != h && s == job.station {
        assert Stamps(t, s, |h.h.emissions|);
      } else {
        var i :| Stamps(h, s, i);
        assert t.h.emissions[i] == h.h.emissions[i];
        assert Stamps(t, s, i);
      }
    }
  }

  lemma RoutesStamps(h: Hub, keep: set<string>)
    requires Witnessed(h)
    ensures Witnessed(SetRoutes(h, keep))
  {
    var t := SetRoutes(h, keep);
    forall s | s in t.lastEmit ensures exists i :: Stamps(t, s, i) {
      var i :| Stamps(h, s, i);
      assert Stamps(t, s, i);
    }
  }

  lemma SameStamps(h: Hub, t: Hub)
    requires Witnessed(h) && t.lastEmit == h.lastEmit && t.h.emissions == h.h.emissions && t.h.marks == h.h.marks
    ensures Witnessed(t)
  {
    forall s | s in t.lastEmit ensures exists i :: Stamps(t, s, i) {
      var i :| Stamps(h, s, i);
      assert Stamps(t, s, i);
    }
  }

  lemma StepStamps(h: Hub, step: Step)
    requires Witnessed(h)
    ensures Witnessed(Next(h, step))
  {
    if step.DoEmit? {
      EmitStamps(h, step.job, step.now);
    } else if step.DoSetRoutes? {
      RoutesStamps(h, step.keep);
    } else {
      SameStamps(h, Next(h, step));
    }
  }

  lemma {:induction false} RunStamps(steps: seq<Step>)
    ensures Witnessed(Run(steps))
  {
    if steps != [] {
      RunStamps(steps[..|steps|-1]);
      StepStamps(Run(steps[..|steps|-1]), steps[|steps|-1]);
    }
  }

  /**
   * In every reachable hub a request goes through exactly when each recorded emission of its station
   * since the routes last dropped it is at least a second older: then it is recorded, and its job is
   * on the way; else nothing happens.
   */
  lemma {:induction false} EmittedIff(steps: seq<Step>, job: Job, now: int)
    requires Possible(steps)
    ensures var h := Run(steps);
            var t := Next(h, DoEmit(job, now));
            var clear := forall i :: 0 <= i < |h.h.emissions| && h.h.emissions[i].station == job.station
                                     && Unbroken(h.h.marks, job.station, i, |h.h.emissions|)
                                     ==> now - h.h.emissions[i].at >= 1_000_000_000;
            && (clear ==>
                  && t.h == h.h.(emissions := h.h.emissions + [Emission(job.station, now)])
                  && t.accepted == h.accepted + multiset{job})
            && (!clear ==> t == h)
  {
    RunKeeps(steps);
    RunStamps(steps);
    EmitByRecord(Run(steps), job.station, now);
  }

  lemma EmitByRecord(h: Hub, station: string, now: int)
    requires Remembered(h) && Witnessed(h)
    ensures MayEmit(h, station, now) <==>
            forall i :: 0 <= i < |h.h.emissions| && h.h.emissions[i].station == station
                        && Unbroken(h.h.marks, station, i, |h.h.emissions|)
                        ==> now - h.h.emissions[i].at >= 1_000_000_000
  {
    if station in h.lastEmit {
      var i :| Stamps(h, station, i);
      assert h.h.emissions[i].at == h.lastEmit[station];
    }
  }

  /**
   * A job put becomes its station's pending one, in place of an older one; new routes take away
   * exactly the pending jobs of stations they drop, and no others are touched.
   */
  lemma PendingFate(h: Hub, job: Job, keep: set<string>, s: string)
    ensures var t := Next(h, DoPut(job));
            && job.station in t.pending && t.pending[job.station] == job
            && (s != job.station ==> (s in t.pending <==> s in h.pending))
            && (s != job.station && s in h.pending ==> t.pending[s] == h.pending[s])
            && t.lastEmit == h.lastEmit && t.worker == h.worker && t.h.put == h.h.put + [job]
    ensures var t := Next(h, DoSetRoutes(keep));
            && (s in t.pending <==> s in h.pending && s in keep)
            && (s in t.pending ==> t.pending[s] == h.pending[s])
            && (s in t.lastEmit <==> s in h.lastEmit && s in keep)
            && (s in t.lastEmit ==> t.lastEmit[s] == h.lastEmit[s])
            && (s in t.h.cut <==> s in h.h.cut || (s in h.pending && s !in keep))
            && t.worker == h.worker && t.wake == h.wake && t.h.put == h.h.put && t.h.posted == h.h.posted
  {
  }

  // ----- the worker gets there

  predicate WorkerStep(s: Step) {
    s.DoWake? || s.DoTake? || s.DoPost? || s.DoFinish?
  }

  /** An upper bound on the worker steps left until the hub is quiescent. */
  function Rank(h: Hub): nat {
    3 * |h.pending| + (if h.wake then 2 else 0)
    + match h.worker
      case Idle => 0
      case Draining => 1
      case Posting(jobs) => |jobs| + 2
      case Stopped => 0
  }

  lemma {:induction false} EnumerationExists(pending: map<string, Job>) returns (jobs: seq<Job>)
    requires forall s :: s in pending ==> pending[s].station == s
    ensures Enumerates(jobs, pending)
    decreases |pending|
  {
    if pending == map[] {
      jobs := [];
    } else {
      var s :| s in pending;
      var rest := pending - {s};
      var front := EnumerationExists(rest);
      EnumerateMore(front, rest, pending[s]);
      assert rest[s := pending[s]] == pending;
      jobs := front + [pending[s]];
    }
  }

  /** One more job for a station not listed yet. */
  lemma EnumerateMore(jobs: seq<Job>, listed: map<string, Job>, job: Job)
    requires Enumerates(jobs, listed) && job.station !in listed
    ensures Enumerates(jobs + [job], listed[job.station := job])
  {
    var all := listed[job.station := job];
    forall s | s in all ensures all[s] in jobs + [job] {
      assert s == job.station || listed[s] in jobs;
    }
  }

  lemma LastListed(jobs: seq<Job>, pending: map<string, Job>)
    requires Enumerates(jobs, pending) && Keys(pending) && jobs != []
    ensures var last := jobs[|jobs|-1];
            && Enumerates(jobs[..|jobs|-1], pending - {last.station}) && Keys(pending - {last.station})
            && last.station in pending
  {
    var last := jobs[|jobs|-1];
    var front, rest := jobs[..|jobs|-1], pending - {last.station};
    forall s | s in rest ensures rest[s] in front {
      var i :| 0 <= i < |jobs| && jobs[i] == pending[s];
      assert front[i] == jobs[i];
    }
  }

  /** Each job is listed under its own station. */
  predicate Keys(pending: map<string, Job>) {
    forall s :: s in pending ==> pending[s].station == s
  }

  lemma {:induction false} EnumerationLength(jobs: seq<Job>, pending: map<string, Job>)
    requires Enumerates(jobs, pending) && Keys(pending)
    ensures |jobs| == |pending|
    decreases |jobs|
  {
    if jobs == [] {
      assert pending.Keys == {};
    } else {
      var station := jobs[|jobs|-1].station;
      LastListed(jobs, pending);
      EnumerationLength(jobs[..|jobs|-1], pending - {station});
      assert pending.Keys == (pending - {station}).Keys + {station};
    }
  }

  /** A running hub without half-done enqueues is quiescent, or its worker can move. */
  lemma WorkerNeverStuck(h: Hub) returns (step: Step)
    requires Inv(h) && h.signalling == 0 && !h.stopping && h.worker != Stopped
    ensures !Quiescent(h) ==> WorkerStep(step) && Enabled(h, step)
  {
    match h.worker {
      case Idle => step := DoWake;
      case Draining =>
        var jobs := EnumerationExists(h.pending);
        step := DoTake(jobs);
      case Posting(jobs) => step := if jobs == [] then DoFinish else DoPost;
      case Stopped => step := DoWake;
    }
  }

  /** Every worker step brings the hub closer to quiescence. */
  lemma WorkerProgresses(h: Hub, step: Step)
    requires Inv(h) && WorkerStep(step) && Enabled(h, step)
    ensures Rank(Next(h, step)) < Rank(h)
  {
    if step.DoTake? {
      EnumerationLength(step.jobs, h.pending);
      if h.pending != map[] {
        assert |h.pending| > 0 by {
          var s :| s in h.pending;
          assert s in h.pending.Keys;
        }
      }
    }
  }

  // ----- the worker alone empties the hub

  /** The hub is running and no enqueue is half done. */
  ghost predicate Running(h: Hub) {
    Inv(h) && h.signalling == 0 && !h.stopping && h.worker != Stopped
  }

  /** Worker steps one after another, each possible when it is taken. */
  ghost predicate WorkerRun(h: Hub, steps: seq<Step>)
    decreases |steps|
  {
    steps == [] || (WorkerStep(steps[0]) && Enabled(h, steps[0]) && WorkerRun(Next(h, steps[0]), steps[1..]))
  }

  ghost function After(h: Hub, steps: seq<Step>): Hub
    decreases |steps|
  {
    if steps == [] then h else After(Next(h, steps[0]), steps[1..])
  }

  lemma WorkerKeepsRunning(h: Hub, step: Step)
    requires Running(h) && WorkerStep(step) && Enabled(h, step)
    ensures var h' := Next(h, step); Running(h') && h'.h.put == h.h.put && h'.h.cut == h.h.cut
  {
    StepKeeps(h, step);
  }

  /** However the worker goes on, it stops after at most Rank(h) steps, without pending work if it can go no further. */
  lemma {:induction false} WorkerRunEnds(h: Hub, steps: seq<Step>)
    requires Running(h) && WorkerRun(h, steps)
    ensures var t := After(h, steps);
            && Running(t) && |steps| + Rank(t) <= Rank(h)
            && t.h.put == h.h.put && t.h.cut == h.h.cut
    decreases |steps|
  {
    if steps != [] {
      WorkerKeepsRunning(h, steps[0]);
      WorkerProgresses(h, steps[0]);
      WorkerRunEnds(Next(h, steps[0]), steps[1..]);
    }
  }

  /** What a quiescent hub has done: nothing is pending, and each latest job not thrown away was posted last. */
  ghost predicate Settled(h: Hub) {
    && h.pending == map[]
    && forall s :: s !in h.h.cut && Of(s, h.h.put) != [] ==> SameLast(Of(s, h.h.posted), Of(s, h.h.put))
  }

  lemma QuiescentIsSettled(h: Hub)
    requires Inv(h) && Quiescent(h)
    ensures Settled(h)
  {
    forall s | s !in h.h.cut && Of(s, h.h.put) != [] ensures SameLast(Of(s, h.h.posted), Of(s, h.h.put)) {
      assert LatestWins(h, s);
      assert Handled(h, s) == Of(s, h.h.posted);
    }
  }

  /**
   * Liveness: left alone, the worker of a running hub reaches quiescence within Rank(h) steps,
   * whichever of its steps it takes, and then the latest job of every station is posted.
   */
  lemma {:induction false} WorkerDrains(h: Hub) returns (steps: seq<Step>)
    requires Running(h)
    ensures WorkerRun(h, steps) && |steps| <= Rank(h)
    ensures Quiescent(After(h, steps)) && Settled(After(h, steps)) && After(h, steps).h.put == h.h.put
    decreases Rank(h)
  {
    if Quiescent(h) {
      steps := [];
      QuiescentIsSettled(h);
    } else {
      var step := WorkerNeverStuck(h);
      WorkerKeepsRunning(h, step);
      WorkerProgresses(h, step);
      var rest := WorkerDrains(Next(h, step));
      steps := [step] + rest;
      assert steps[1..] == rest;
      WorkerRunEnds(h, steps);
    }
  }
}

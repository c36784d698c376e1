/** The hub's mutable state; each method is one goroutine's work under the lock or on a channel. */
module InterceptorHubs {
  import opened InterceptorSpec

  class InterceptorHub {
    var routes: map<string, string>
    var lastEmit: map<string, int>
    var pending: map<string, Job>
    var wake: bool
    var worker: Worker
    var stopping: bool
    ghost var accepted: multiset<Job>
    ghost var signalling: nat
    ghost var history: History

    ghost function State(): Hub
      reads this
    {
      Hub(lastEmit, accepted, pending, signalling, wake, worker, stopping, history)
    }

    constructor ()
      ensures State() == Init() && routes == map[]
    {
      routes := map[];
      lastEmit := map[];
      pending := map[];
      wake, worker, stopping := false, Idle, false;
      accepted, signalling, history := multiset{}, 0, Init().h;
    }

    /** `r` maps a listen path to its station. */
    method InstallRoutes(r: map<string, string>)
      modifies this
      ensures routes == r && State() == SetRoutes(old(State()), r.Values)
    {
      routes := r;
      var keep := r.Values;
      history := SetRoutes(State(), keep).h;
      ForgetEmits(keep);
      ForgetPending(keep);
    }

    method ForgetEmits(keep: set<string>)
      modifies this`lastEmit
      ensures lastEmit == map s | s in old(lastEmit) && s in keep :: old(lastEmit)[s]
    {
      var rest := lastEmit.Keys;
      ghost var was := lastEmit;
      while rest != {}
        invariant rest <= was.Keys
        invariant lastEmit == map s | s in was && (s in rest || s in keep) :: was[s]
      {
        var id :| id in rest;
        if id !in keep {
          lastEmit := lastEmit - {id};
        }
        rest := rest - {id};
      }
    }

    method ForgetPending(keep: set<string>)
      modifies this`pending
      ensures pending == map s | s in old(pending) && s in keep :: old(pending)[s]
    {
      var rest := pending.Keys;
      ghost var was := pending;
      while rest != {}
        invariant rest <= was.Keys
        invariant pending == map s | s in was && (s in rest || s in keep) :: was[s]
      {
        var id :| id in rest;
        if id !in keep {
          pending := pending - {id};
        }
        rest := rest - {id};
      }
    }

    /** The rate check of a request; the device is acknowledged either way. */
    method CheckRate(job: Job, now: int) returns (ok: bool)
      modifies this`lastEmit, this`accepted, this`history
      ensures ok == MayEmit(old(State()), job.station, now)
      ensures State() == Emit(old(State()), job, now)
    {
      ghost var after := Emit(State(), job, now);
      if job.station in lastEmit && now - lastEmit[job.station] < EMIT_INTERVAL {
        return false;
      }
      lastEmit := lastEmit[job.station := now];
      accepted, history := after.accepted, after.h;
      ok := true;
    }

    /** First half of an enqueue: the latest job of a station replaces an older one. */
    method PutPending(job: Job)
      modifies this`pending, this`accepted, this`signalling, this`history
      ensures State() == Put(old(State()), job)
    {
      ghost var after := Put(State(), job);
      PutMeans(State(), job, after);
      pending := pending[job.station := job];
      accepted, signalling, history := after.accepted, after.signalling, after.h;
    }

    /** Second half: a wake-up, unless one is waiting already. */
    method SendWake()
      requires signalling > 0
      modifies this`wake, this`signalling
      ensures State() == Signal(old(State()))
    {
      if !wake {
        wake := true;
      }
      signalling := signalling - 1;
    }

    /** Empties the pending map, in no particular order. */
    method TakePending() returns (jobs: seq<Job>)
      requires Keyed(State())
      modifies this`pending
      ensures pending == map[] && Enumerates(jobs, old(pending))
    {
      jobs := [];
      ghost var was := pending;
      var rest := pending.Keys;
      while rest != {}
        invariant rest <= was.Keys && pending == map s | s in rest :: was[s]
        invariant Enumerates(jobs, was - rest)
      {
        var id :| id in rest;
        EnumerateMore(jobs, was - rest, was[id]);
        assert (was - rest)[id := was[id]] == was - (rest - {id});
        jobs := jobs + [pending[id]];
        pending := pending - {id};
        rest := rest - {id};
      }
      assert was - rest == was;
    }

    /** The worker, woken: it looks for jobs and goes back to waiting when there are none. */
    method LookForJobs() returns (jobs: seq<Job>)
      requires Keyed(State()) && worker == Draining && !stopping
      modifies this`pending, this`worker
      ensures Enumerates(jobs, old(pending)) && State() == Take(old(State()), jobs)
    {
      jobs := TakePending();
      if |jobs| == 0 {
        assert old(pending) == map[] by {
          assert forall s :: s !in old(pending);
        }
        worker := Idle;
      } else {
        assert jobs[0].station in old(pending);
        worker := Posting(jobs);
      }
    }

    /** The worker hands its next job to the poster. */
    method HandOver() returns (job: Job)
      requires worker.Posting? && worker.jobs != [] && !stopping
      modifies this`worker, this`history
      ensures State() == PostNext(old(State())) && job == old(worker.jobs)[0]
    {
      job := worker.jobs[0];
      history := PostNext(State()).h;
      worker := Posting(worker.jobs[1..]);
    }

    /** Shutdown: what is pending or left in the batch is dropped. */
    method DropPending()
      requires stopping
      modifies this`pending, this`worker, this`history
      ensures State() == StopWorker(old(State()))
    {
      history := StopWorker(State()).h;
      pending := map[];
      worker := Stopped;
    }
  }

  /** What an enqueue's first half leaves as it was. */
  lemma PutMeans(h: Hub, job: Job, after: Hub)
    requires after == Put(h, job)
    ensures after == h.(accepted := after.accepted, pending := h.pending[job.station := job],
                        signalling := after.signalling, h := after.h)
  {
  }
}

/**
 * Concurrent uploads: one coordinator, a bounded channel, a pool of workers, and the set of paths
 * in flight.  Each step is what one goroutine does between two lock or channel operations.  A file
 * on disk carries the number it was stored under, so that a reused name is a different file.
 */
module InFlightSpec {
  /** Choosing: no image in hand.  Holding: dequeued, not checked.  Placing: marked in flight, not sent. */
  datatype Coordinator = Choosing | Holding(path: string) | Placing(path: string)

  datatype Worker =
    | Free
    | Received(path: string)
    | Working(path: string)
    | Sending(path: string, file: nat)
    | Succeeded(path: string, file: nat)
    | Marked(path: string)
    | Failed(path: string)
    | Released

  /**
   * `origin[f]` is the path file number f was stored under.  `uploaded` lists the files whose upload
   * a worker saw succeed; `kept` has those whose removal afterwards failed, or whose worker panicked
   * before the removal was done.
   */
  datatype Uploads = Uploads(
    disk: map<string, nat>,
    origin: seq<string>,
    inFlight: set<string>,
    channel: seq<string>,
    coordinator: Coordinator,
    workers: map<nat, Worker>,
    active: int,
    uploaded: seq<nat>,
    kept: set<nat>)

  function Init(): Uploads {
    Uploads(map[], [], {}, [], Choosing, map[], 0, [], {})
  }

  datatype Step =
    | DoStore(path: string)
    | DoVanish(path: string)
    | DoDequeue(path: string)
    | DoCheck
    | DoSend(room: nat)
    | DoReceive(w: nat)
    | DoCountUp(w: nat)
    | DoRead(w: nat, readable: bool)
    | DoFinish(w: nat, ok: bool)
    | DoMark(w: nat, removable: bool)
    | DoPanic(w: nat)
    | DoRelease(w: nat)
    | DoCountDown(w: nat)
    | DoAddWorker(w: nat)

  /** A worker gives its path back when its upload failed or panicked, or is marked. */
  predicate MayRelease(w: Worker) {
    w.Failed? || w.Marked?
  }

  /** An upload may panic before it ends, or after it succeeded and before its image is marked. */
  predicate MayPanic(w: Worker) {
    w.Working? || Carries(w)
  }

  predicate Enabled(s: Uploads, step: Step) {
    match step
    case DoStore(path) => path !in s.disk
    case DoVanish(_) => true
    case DoDequeue(path) => s.coordinator == Choosing && path in s.disk
    case DoCheck => s.coordinator.Holding?
    case DoSend(_) => s.coordinator.Placing?
    case DoReceive(w) => w in s.workers && s.workers[w] == Free && s.channel != []
    case DoCountUp(w) => w in s.workers && s.workers[w].Received?
    case DoRead(w, _) => w in s.workers && s.workers[w].Working?
    case DoFinish(w, _) => w in s.workers && s.workers[w].Sending?
    case DoMark(w, _) => w in s.workers && s.workers[w].Succeeded?
    case DoPanic(w) => w in s.workers && MayPanic(s.workers[w])
    case DoRelease(w) => w in s.workers && MayRelease(s.workers[w])
    case DoCountDown(w) => w in s.workers && s.workers[w] == Released
    case DoAddWorker(w) => w !in s.workers
  }

  function Mark(s: Uploads): Uploads
    requires s.coordinator.Holding?
  {
    var p := s.coordinator.path;
    if p in s.inFlight then s.(coordinator := Choosing)
    else s.(inFlight := s.inFlight + {p}, coordinator := Placing(p))
  }

  /** Hands the task over if the channel has room; otherwise the path is given up again. */
  function Send(s: Uploads, room: nat): Uploads
    requires s.coordinator.Placing?
  {
    var p := s.coordinator.path;
    if |s.channel| < room then s.(channel := s.channel + [p], coordinator := Choosing)
    else s.(inFlight := s.inFlight - {p}, coordinator := Choosing)
  }

  function Set(s: Uploads, w: nat, state: Worker): Uploads {
    s.(workers := s.workers[w := state])
  }

  function Next(s: Uploads, step: Step): Uploads
    requires Enabled(s, step)
  {
    match step
    case DoStore(path) => s.(disk := s.disk[path := |s.origin|], origin := s.origin + [path])
    case DoVanish(path) => s.(disk := s.disk - {path})
    case DoDequeue(path) => s.(coordinator := Holding(path))
    case DoCheck => Mark(s)
    case DoSend(room) => Send(s, room)
    case DoReceive(w) => Set(s, w, Received(s.channel[0])).(channel := s.channel[1..])
    case DoCountUp(w) => Set(s, w, Working(s.workers[w].path)).(active := s.active + 1)
    case DoRead(w, readable) =>
      var p := s.workers[w].path;
      if readable && p in s.disk then Set(s, w, Sending(p, s.disk[p])) else Set(s, w, Failed(p))
    case DoFinish(w, ok) =>
      var p, f := s.workers[w].path, s.workers[w].file;
      if ok then Set(s, w, Succeeded(p, f)).(uploaded := s.uploaded + [f]) else Set(s, w, Failed(p))
    case DoMark(w, removable) =>
      var p, f := s.workers[w].path, s.workers[w].file;
      if removable then Set(s, w, Marked(p)).(disk := s.disk - {p}) else Set(s, w, Marked(p)).(kept := s.kept + {f})
    case DoPanic(w) =>
      var t := Set(s, w, Failed(s.workers[w].path));
      if s.workers[w].Succeeded? then t.(kept := t.kept + {s.workers[w].file}) else t
    case DoRelease(w) => Set(s, w, Released).(inFlight := s.inFlight - {s.workers[w].path})
    case DoCountDown(w) => Set(s, w, Free).(active := s.active - 1)
    case DoAddWorker(w) => Set(s, w, Free)
  }

  // ----- who holds which path

  predicate HoldsTask(w: Worker) {
    w.Received? || w.Working? || w.Sending? || w.Succeeded? || w.Marked? || w.Failed?
  }

  /** Whether worker w holds a task for path p. */
  predicate HeldBy(s: Uploads, w: nat, p: string) {
    w in s.workers && HoldsTask(s.workers[w]) && s.workers[w].path == p
  }

  ghost predicate HeldBySome(s: Uploads, p: string) {
    exists w :: HeldBy(s, w, p)
  }

  predicate BeingPlaced(s: Uploads, p: string) {
    s.coordinator == Placing(p)
  }

  /** No path is held twice: in the channel, by the workers, or by the coordinator. */
  ghost predicate Exclusive(s: Uploads) {
    && (forall i, j :: 0 <= i < j < |s.channel| ==> s.channel[i] != s.channel[j])
    && (forall v, w, p :: HeldBy(s, v, p) && HeldBy(s, w, p) ==> v == w)
    && (forall w, p :: HeldBy(s, w, p) ==> p !in s.channel && !BeingPlaced(s, p))
    && (forall p :: BeingPlaced(s, p) ==> p !in s.channel)
  }

  /** The set of paths in flight is exactly what is held. */
  ghost predicate Exact(s: Uploads) {
    forall p :: p in s.inFlight <==> p in s.channel || HeldBySome(s, p) || BeingPlaced(s, p)
  }

  predicate IsCounted(w: Worker) {
    w != Free && !w.Received?
  }

  ghost function CountedWorkers(s: Uploads): set<nat> {
    set w | w in s.workers && IsCounted(s.workers[w])
  }

  ghost predicate ActiveExact(s: Uploads) {
    s.active == |CountedWorkers(s)|
  }

  // ----- which file is where

  predicate Carries(w: Worker) {
    w.Sending? || w.Succeeded?
  }

  ghost predicate FilesKnown(s: Uploads) {
    && (forall p :: p in s.disk ==> s.disk[p] < |s.origin| && s.origin[s.disk[p]] == p)
    && (forall w :: w in s.workers && Carries(s.workers[w]) ==>
          s.workers[w].file < |s.origin| && s.origin[s.workers[w].file] == s.workers[w].path)
    && (forall i :: 0 <= i < |s.uploaded| ==> s.uploaded[i] < |s.origin|)
  }

  /** An uploaded file is off the disk, unless its removal failed or is still to be done by its worker. */
  ghost predicate UploadedGone(s: Uploads) {
    forall p :: p in s.disk && s.disk[p] in s.uploaded && s.disk[p] !in s.kept ==>
      exists w :: w in s.workers && s.workers[w] == Succeeded(p, s.disk[p])
  }

  /** What is being sent was not uploaded before, unless its removal failed. */
  ghost predicate SendingFresh(s: Uploads) {
    forall w :: w in s.workers && s.workers[w].Sending? ==>
      s.workers[w].file !in s.uploaded || s.workers[w].file in s.kept
  }

  ghost predicate UploadedOnce(s: Uploads) {
    forall i, j :: 0 <= i < j < |s.uploaded| && s.uploaded[i] == s.uploaded[j] ==> s.uploaded[i] in s.kept
  }

  ghost predicate Inv(s: Uploads) {
    && Exclusive(s) && Exact(s) && ActiveExact(s)
    && FilesKnown(s) && UploadedGone(s) && SendingFresh(s) && UploadedOnce(s)
  }

  // ----- steps keep the invariants

  lemma SameHolding(s: Uploads, t: Uploads)
    requires forall v, p :: HeldBy(t, v, p) <==> HeldBy(s, v, p)
    ensures forall p :: HeldBySome(t, p) <==> HeldBySome(s, p)
  {
    forall p ensures HeldBySome(t, p) <==> HeldBySome(s, p) {
      if HeldBySome(s, p) {
        var v :| HeldBy(s, v, p);
        assert HeldBy(t, v, p);
      }
      if HeldBySome(t, p) {
        var v :| HeldBy(t, v, p);
        assert HeldBy(s, v, p);
      }
    }
  }

  /** A worker moving on with the same path changes nothing about who holds what. */
  lemma SamePathKeeps(s: Uploads, w: nat, state: Worker, t: Uploads)
    requires Exclusive(s) && Exact(s)
    requires w in s.workers && HoldsTask(s.workers[w]) && HoldsTask(state) && state.path == s.workers[w].path
    requires t.workers == s.workers[w := state] && t.channel == s.channel && t.coordinator == s.coordinator
    requires t.inFlight == s.inFlight
    ensures Exclusive(t) && Exact(t)
  {
    SameHolding(s, t);
  }

  /** A worker without a path before and after changes nothing either. */
  lemma NoPathKeeps(s: Uploads, w: nat, state: Worker, t: Uploads)
    requires Exclusive(s) && Exact(s)
    requires (w in s.workers ==> !HoldsTask(s.workers[w])) && !HoldsTask(state)
    requires t.workers == s.workers[w := state] && t.channel == s.channel && t.coordinator == s.coordinator
    requires t.inFlight == s.inFlight
    ensures Exclusive(t) && Exact(t)
  {
    SameHolding(s, t);
  }

  lemma CoordinatorKeeps(s: Uploads, t: Uploads)
    requires Exclusive(s) && Exact(s)
    requires t.workers == s.workers
    requires (s.coordinator.Holding? && t == Mark(s)) || (exists room :: s.coordinator.Placing? && t == Send(s, room))
             || (t == s.(coordinator := t.coordinator) && !s.coordinator.Placing? && !t.coordinator.Placing?)
    ensures Exclusive(t) && Exact(t)
  {
    SameHolding(s, t);
    if s.coordinator.Placing? {
      assert BeingPlaced(s, s.coordinator.path);
    }
  }

  lemma ReceiveKeeps(s: Uploads, w: nat)
    requires Exclusive(s) && Exact(s) && Enabled(s, DoReceive(w))
    ensures Exclusive(Next(s, DoReceive(w))) && Exact(Next(s, DoReceive(w)))
  {
    var t := Next(s, DoReceive(w));
    var q := s.channel[0];
    assert s.channel == [q] + t.channel;
    assert HeldBy(t, w, q);
    assert forall v, p :: HeldBy(t, v, p) <==> HeldBy(s, v, p) || (v == w && p == q);
    forall p ensures HeldBySome(t, p) <==> HeldBySome(s, p) || p == q {
      if HeldBySome(s, p) {
        var v :| HeldBy(s, v, p);
        assert HeldBy(t, v, p);
      }
      if HeldBySome(t, p) {
        var v :| HeldBy(t, v, p);
        assert HeldBy(s, v, p) || p == q;
      }
    }
    assert q in s.channel && !BeingPlaced(s, q) && !BeingPlaced(t, q);
    assert q !in t.channel && forall x :: x in t.channel ==> x in s.channel;
  }

  lemma ReleaseKeeps(s: Uploads, w: nat)
    requires Exclusive(s) && Exact(s) && Enabled(s, DoRelease(w))
    ensures Exclusive(Next(s, DoRelease(w))) && Exact(Next(s, DoRelease(w)))
  {
    var t := Next(s, DoRelease(w));
    var q := s.workers[w].path;
    assert HeldBy(s, w, q);
    assert forall v, p :: HeldBy(t, v, p) <==> HeldBy(s, v, p) && v != w;
    forall p ensures HeldBySome(t, p) <==> HeldBySome(s, p) && p != q {
      if HeldBySome(s, p) && p != q {
        var v :| HeldBy(s, v, p);
        assert HeldBy(t, v, p);
      }
      if HeldBySome(t, p) {
        var v :| HeldBy(t, v, p);
        assert HeldBy(s, v, p) && v != w;
      }
    }
  }

  lemma HoldingKeeps(s: Uploads, step: Step)
    requires Exclusive(s) && Exact(s) && Enabled(s, step)
    ensures Exclusive(Next(s, step)) && Exact(Next(s, step))
  {
    var t := Next(s, step);
    match step {
      case DoStore(_) => SameHolders(s, t);
      case DoVanish(_) => SameHolders(s, t);
      case DoDequeue(_) => CoordinatorKeeps(s, t);
      case DoCheck => CoordinatorKeeps(s, t);
      case DoSend(_) => CoordinatorKeeps(s, t);
      case DoReceive(w) => ReceiveKeeps(s, w);
      case DoCountUp(w) => SamePathKeeps(s, w, t.workers[w], t);
      case DoRead(w, _) => SamePathKeeps(s, w, t.workers[w], t);
      case DoFinish(w, _) => SamePathKeeps(s, w, t.workers[w], t);
      case DoMark(w, _) => SamePathKeeps(s, w, t.workers[w], t);
      case DoPanic(w) => SamePathKeeps(s, w, t.workers[w], t);
      case DoRelease(w) => ReleaseKeeps(s, w);
      case DoCountDown(w) => NoPathKeeps(s, w, Free, t);
      case DoAddWorker(w) => NoPathKeeps(s, w, Free, t);
    }
  }

  lemma SameHolders(s: Uploads, t: Uploads)
    requires Exclusive(s) && Exact(s)
    requires t.workers == s.workers && t.channel == s.channel
    requires t.coordinator == s.coordinator && t.inFlight == s.inFlight
    ensures Exclusive(t) && Exact(t)
  {
    SameHolding(s, t);
  }

  lemma OneMoreOrLess(a: set<nat>, w: nat)
    ensures |a + {w}| == |a| + (if w in a then 0 else 1)
    ensures |a - {w}| == |a| - (if w in a then 1 else 0)
  {
    if w in a {
      assert a + {w} == a;
    } else {
      assert a - {w} == a;
    }
  }

  lemma CountedMove(s: Uploads, w: nat, state: Worker, t: Uploads)
    requires t.workers == s.workers[w := state]
    ensures CountedWorkers(t) == if IsCounted(state) then CountedWorkers(s) + {w} else CountedWorkers(s) - {w}
    ensures w in CountedWorkers(s) <==> w in s.workers && IsCounted(s.workers[w])
  {
  }

  /** A worker's move changes the count only by whether that worker is counted. */
  lemma CountOneWorker(s: Uploads, w: nat, state: Worker, t: Uploads)
    requires ActiveExact(s) && t.workers == s.workers[w := state]
    requires var counted := w in s.workers && IsCounted(s.workers[w]);
             t.active - s.active == (if IsCounted(state) then 1 else 0) - (if counted then 1 else 0)
    ensures ActiveExact(t)
  {
    CountedMove(s, w, state, t);
    OneMoreOrLess(CountedWorkers(s), w);
  }

  lemma SameWorkers(s: Uploads, t: Uploads)
    requires ActiveExact(s) && t.workers == s.workers && t.active == s.active
    ensures ActiveExact(t)
  {
    assert CountedWorkers(t) == CountedWorkers(s);
  }

  lemma CountingKeeps(s: Uploads, step: Step)
    requires ActiveExact(s) && Enabled(s, step)
    ensures ActiveExact(Next(s, step))
  {
    var t := Next(s, step);
    match step {
      case DoStore(_) => SameWorkers(s, t);
      case DoVanish(_) => SameWorkers(s, t);
      case DoDequeue(_) => SameWorkers(s, t);
      case DoCheck => SameWorkers(s, t);
      case DoSend(_) => SameWorkers(s, t);
      case DoReceive(w) => CountOneWorker(s, w, t.workers[w], t);
      case DoCountUp(w) => CountOneWorker(s, w, t.workers[w], t);
      case DoRead(w, _) => CountOneWorker(s, w, t.workers[w], t);
      case DoFinish(w, _) => CountOneWorker(s, w, t.workers[w], t);
      case DoMark(w, _) => CountOneWorker(s, w, t.workers[w], t);
      case DoPanic(w) => CountOneWorker(s, w, t.workers[w], t);
      case DoRelease(w) => CountOneWorker(s, w, t.workers[w], t);
      case DoCountDown(w) => CountOneWorker(s, w, t.workers[w], t);
      case DoAddWorker(w) => CountOneWorker(s, w, t.workers[w], t);
    }
  }

  /** Two workers never carry the same file: they would hold the same path. */
  lemma OneCarrier(s: Uploads, v: nat, w: nat)
    requires Exclusive(s) && FilesKnown(s)
    requires v in s.workers && w in s.workers && Carries(s.workers[v]) && Carries(s.workers[w])
    requires s.workers[v].file == s.workers[w].file
    ensures v == w
  {
    assert HeldBy(s, v, s.workers[v].path) && HeldBy(s, w, s.workers[w].path);
  }

  ghost predicate FilesInv(s: Uploads) {
    FilesKnown(s) && UploadedGone(s) && SendingFresh(s) && UploadedOnce(s)
  }

  lemma StoreKeepsFiles(s: Uploads, path: string)
    requires FilesInv(s) && Enabled(s, DoStore(path))
    ensures FilesInv(Next(s, DoStore(path)))
  {
    var t := Next(s, DoStore(path));
    forall p | p in t.disk && t.disk[p] in t.uploaded && t.disk[p] !in t.kept
      ensures exists w :: w in t.workers && t.workers[w] == Succeeded(p, t.disk[p])
    {
      assert |s.origin| !in s.uploaded;
      var w :| w in s.workers && s.workers[w] == Succeeded(p, s.disk[p]);
      assert t.workers[w] == Succeeded(p, t.disk[p]);
    }
  }

  /** Steps that only take files off the disk or move paths around. */
  lemma QuietKeepsFiles(s: Uploads, t: Uploads)
    requires FilesInv(s)
    requires t.origin == s.origin && t.uploaded == s.uploaded && t.kept == s.kept
    requires forall p :: p in t.disk ==> p in s.disk && t.disk[p] == s.disk[p]
    requires forall w :: w in t.workers && Carries(t.workers[w]) ==> w in s.workers && s.workers[w] == t.workers[w]
    requires forall w :: w in s.workers && s.workers[w].Succeeded? ==> w in t.workers && t.workers[w] == s.workers[w]
    ensures FilesInv(t)
  {
    forall p | p in t.disk && t.disk[p] in t.uploaded && t.disk[p] !in t.kept
      ensures exists w :: w in t.workers && t.workers[w] == Succeeded(p, t.disk[p])
    {
      var w :| w in s.workers && s.workers[w] == Succeeded(p, s.disk[p]);
      assert t.workers[w] == Succeeded(p, t.disk[p]);
    }
  }

  lemma ReadKeepsFiles(s: Uploads, w: nat, readable: bool)
    requires Exclusive(s) && FilesInv(s) && Enabled(s, DoRead(w, readable))
    ensures FilesInv(Next(s, DoRead(w, readable)))
  {
    var t := Next(s, DoRead(w, readable));
    var q := s.workers[w].path;
    if readable && q in s.disk {
      forall p | p in t.disk && t.disk[p] in t.uploaded && t.disk[p] !in t.kept
        ensures exists v :: v in t.workers && t.workers[v] == Succeeded(p, t.disk[p])
      {
        var v :| v in s.workers && s.workers[v] == Succeeded(p, s.disk[p]);
        assert t.workers[v] == Succeeded(p, t.disk[p]);
      }
      var f := s.disk[q];
      if f in s.uploaded && f !in s.kept {
        var v :| v in s.workers && s.workers[v] == Succeeded(q, f);
        assert HeldBy(s, v, q) && HeldBy(s, w, q);
        assert false;
      }
    } else {
      QuietKeepsFiles(s, t);
    }
  }

  lemma FinishKeepsFiles(s: Uploads, w: nat, ok: bool)
    requires Exclusive(s) && FilesInv(s) && Enabled(s, DoFinish(w, ok))
    ensures FilesInv(Next(s, DoFinish(w, ok)))
  {
    var t := Next(s, DoFinish(w, ok));
    if ok {
      var q, f := s.workers[w].path, s.workers[w].file;
      assert t.workers[w] == Succeeded(q, f);
      forall p | p in t.disk && t.disk[p] in t.uploaded && t.disk[p] !in t.kept
        ensures exists v :: v in t.workers && t.workers[v] == Succeeded(p, t.disk[p])
      {
        if t.disk[p] == f {
          assert t.workers[w] == Succeeded(p, t.disk[p]);
        } else {
          assert s.disk[p] in s.uploaded;
          var v :| v in s.workers && s.workers[v] == Succeeded(p, s.disk[p]);
          assert t.workers[v] == Succeeded(p, t.disk[p]);
        }
      }
      forall v | v in t.workers && t.workers[v].Sending?
        ensures t.workers[v].file !in t.uploaded || t.workers[v].file in t.kept
      {
        if t.workers[v].file == f {
          OneCarrier(s, v, w);
        }
      }
    } else {
      QuietKeepsFiles(s, t);
    }
  }

  lemma MarkKeepsFiles(s: Uploads, w: nat, removable: bool)
    requires FilesInv(s) && Enabled(s, DoMark(w, removable))
    ensures FilesInv(Next(s, DoMark(w, removable)))
  {
    var t := Next(s, DoMark(w, removable));
    forall p | p in t.disk && t.disk[p] in t.uploaded && t.disk[p] !in t.kept
      ensures exists v :: v in t.workers && t.workers[v] == Succeeded(p, t.disk[p])
    {
      var v :| v in s.workers && s.workers[v] == Succeeded(p, s.disk[p]);
      assert v != w;
      assert t.workers[v] == Succeeded(p, t.disk[p]);
    }
  }

  lemma PanicKeepsFiles(s: Uploads, w: nat)
    requires FilesInv(s) && Enabled(s, DoPanic(w))
    ensures FilesInv(Next(s, DoPanic(w)))
  {
    var t := Next(s, DoPanic(w));
    forall p | p in t.disk && t.disk[p] in t.uploaded && t.disk[p] !in t.kept
      ensures exists v :: v in t.workers && t.workers[v] == Succeeded(p, t.disk[p])
    {
      var v :| v in s.workers && s.workers[v] == Succeeded(p, s.disk[p]);
      assert v != w;
      assert t.workers[v] == Succeeded(p, t.disk[p]);
    }
  }

  lemma FilesKeep(s: Uploads, step: Step)
    requires Exclusive(s) && FilesInv(s) && Enabled(s, step)
    ensures FilesInv(Next(s, step))
  {
    var t := Next(s, step);
    match step {
      case DoStore(path) => StoreKeepsFiles(s, path);
      case DoVanish(_) => QuietKeepsFiles(s, t);
      case DoDequeue(_) => QuietKeepsFiles(s, t);
      case DoCheck => QuietKeepsFiles(s, t);
      case DoSend(_) => QuietKeepsFiles(s, t);
      case DoReceive(_) => QuietKeepsFiles(s, t);
      case DoCountUp(_) => QuietKeepsFiles(s, t);
      case DoRead(w, readable) => ReadKeepsFiles(s, w, readable);
      case DoFinish(w, ok) => FinishKeepsFiles(s, w, ok);
      case DoMark(w, removable) => MarkKeepsFiles(s, w, removable);
      case DoPanic(w) => PanicKeepsFiles(s, w);
      case DoRelease(_) => QuietKeepsFiles(s, t);
      case DoCountDown(_) => QuietKeepsFiles(s, t);
      case DoAddWorker(_) => QuietKeepsFiles(s, t);
    }
  }

  // ----- runs

  /** One state after another, each reached by an enabled step. */
  ghost predicate Reaches(s: Uploads, steps: seq<Step>, t: Uploads)
    decreases |steps|
  {
    if steps == [] then s == t
    else Enabled(s, steps[0]) && Reaches(Next(s, steps[0]), steps[1..], t)
  }

  lemma {:induction false} RunKeeps(s: Uploads, steps: seq<Step>, t: Uploads)
    requires Inv(s) && Reaches(s, steps, t)
    ensures Inv(t)
    decreases |steps|
  {
    if steps != [] {
      HoldingKeeps(s, steps[0]);
      CountingKeeps(s, steps[0]);
      FilesKeep(s, steps[0]);
      RunKeeps(Next(s, steps[0]), steps[1..], t);
    }
  }

  lemma InitHolds()
    ensures Inv(Init())
  {
    assert CountedWorkers(Init()) == {};
  }

  /**
   * In every interleaving no path is held twice, what is held is exactly the in-flight set, and the
   * active count is the number of workers between their two counting steps.
   */
  lemma InFlightIsExact(steps: seq<Step>, s: Uploads)
    requires Reaches(Init(), steps, s)
    ensures Exclusive(s) && Exact(s) && ActiveExact(s)
  {
    InitHolds();
    RunKeeps(Init(), steps, s);
  }

  /** When every removal succeeds and no upload panics after success, no stored image is uploaded twice. */
  lemma UploadedAtMostOnce(steps: seq<Step>, s: Uploads)
    requires Reaches(Init(), steps, s) && s.kept == {}
    ensures forall i, j :: 0 <= i < j < |s.uploaded| ==> s.uploaded[i] != s.uploaded[j]
  {
    InitHolds();
    RunKeeps(Init(), steps, s);
  }

  /**
   * An uploaded image that is still on the disk is in flight, its mark still to come, unless its
   * removal failed or its worker panicked before it.
   */
  lemma UploadedStaysInFlight(steps: seq<Step>, s: Uploads, p: string)
    requires Reaches(Init(), steps, s)
    requires p in s.disk && s.disk[p] in s.uploaded && s.disk[p] !in s.kept
    ensures p in s.inFlight
  {
    InitHolds();
    RunKeeps(Init(), steps, s);
    var w :| w in s.workers && s.workers[w] == Succeeded(p, s.disk[p]);
    assert HeldBy(s, w, p);
    assert HeldBySome(s, p);
  }

  /**
   * A path leaves the in-flight set only when the coordinator found no room for it, or by the one
   * worker that holds it, after the mark or after a failure or panic; never while an upload of it
   * that succeeded is still to be marked.
   */
  lemma LeavesOnlyMarked(steps: seq<Step>, s: Uploads, step: Step, p: string)
    requires Reaches(Init(), steps, s) && Enabled(s, step)
    requires p in s.inFlight && p !in Next(s, step).inFlight
    ensures (step.DoSend? && s.coordinator == Placing(p))
            || (step.DoRelease? && (s.workers[step.w] == Marked(p) || s.workers[step.w] == Failed(p)))
    ensures forall w :: w in s.workers && s.workers[w].Succeeded? ==> s.workers[w].path != p
    ensures p in s.disk && s.disk[p] in s.uploaded ==> s.disk[p] in s.kept
  {
    InitHolds();
    RunKeeps(Init(), steps, s);
    if step.DoRelease? {
      assert HeldBy(s, step.w, p);
    } else {
      assert BeingPlaced(s, p);
    }
    forall w | w in s.workers && s.workers[w].Succeeded? ensures s.workers[w].path != p {
      assert HeldBy(s, w, s.workers[w].path);
    }
  }

  // ----- one image, from the queue to the server

  /** The coordinator with an image: in flight already, no room, or sent to the workers. */
  lemma PlacingFate(s: Uploads, p: string, room: nat)
    requires s.coordinator == Choosing && p in s.disk
    ensures var held := Next(s, DoDequeue(p));
            && Enabled(s, DoDequeue(p)) && Enabled(held, DoCheck)
            && (p in s.inFlight ==> Next(held, DoCheck) == s)
            && (p !in s.inFlight ==>
                  && Enabled(Next(held, DoCheck), DoSend(room))
                  && Next(Next(held, DoCheck), DoSend(room)) ==
                     if |s.channel| < room then s.(inFlight := s.inFlight + {p}, channel := s.channel + [p]) else s)
  {
    if p !in s.inFlight {
      assert s.inFlight + {p} - {p} == s.inFlight;
    }
  }

  /**
   * A worker with a task it has counted: the upload it sees succeed is on record, and its image is
   * marked by taking the file off the disk; one it sees fail, or cannot read, leaves file and record
   * alone; either way the path is given back and the worker is free and no longer counted.
   */
  lemma TaskFate(s: Uploads, w: nat, p: string, readable: bool, ok: bool, removable: bool)
    requires w in s.workers && s.workers[w] == Working(p)
    ensures var read := Next(s, DoRead(w, readable));
            var sent := readable && p in s.disk;
            var done := if sent then Next(read, DoFinish(w, ok)) else read;
            var marked := if sent && ok then Next(done, DoMark(w, removable)) else done;
            var t := Next(Next(marked, DoRelease(w)), DoCountDown(w));
            && Enabled(s, DoRead(w, readable))
            && (sent ==> Enabled(read, DoFinish(w, ok)))
            && (sent && ok ==> Enabled(done, DoMark(w, removable)))
            && Enabled(marked, DoRelease(w)) && Enabled(Next(marked, DoRelease(w)), DoCountDown(w))
            && t.inFlight == s.inFlight - {p} && t.active == s.active - 1 && t.workers == s.workers[w := Free]
            && t.channel == s.channel && t.coordinator == s.coordinator
            && t.uploaded == s.uploaded + (if sent && ok then [s.disk[p]] else [])
            && t.disk == (if sent && ok && removable then s.disk - {p} else s.disk)
            && t.kept == s.kept + (if sent && ok && !removable then {s.disk[p]} else {})
  {
  }

  /** The task it takes is the oldest in the channel, and taking it makes no difference to what is in flight. */
  lemma TakingFate(s: Uploads, w: nat)
    requires w in s.workers && s.workers[w] == Free && s.channel != []
    ensures var t := Next(Next(s, DoReceive(w)), DoCountUp(w));
            && Enabled(s, DoReceive(w)) && Enabled(Next(s, DoReceive(w)), DoCountUp(w))
            && t.workers == s.workers[w := Working(s.channel[0])] && t.channel == s.channel[1..]
            && t.inFlight == s.inFlight && t.active == s.active + 1 && t.disk == s.disk && t.uploaded == s.uploaded
  {
  }

  /** A panic ends an upload like a failure; after a success the image stays unmarked, and that is on record. */
  lemma PanicFate(s: Uploads, w: nat)
    requires w in s.workers && MayPanic(s.workers[w])
    ensures var t := Next(s, DoPanic(w));
            && t.workers == s.workers[w := Failed(s.workers[w].path)] && t.disk == s.disk && t.uploaded == s.uploaded
            && t.inFlight == s.inFlight && t.active == s.active
            && t.kept == s.kept + (if s.workers[w].Succeeded? then {s.workers[w].file} else {})
  {
  }
}

/** The ring's buffer, filtered and shifted in place. */
module OutboundRings {
  import opened Common
  import opened RingSpec

  const EMPTY_SLOT := Request("", "", "", None)

  class OutboundRing {
    var slots: array<Request>
    var n: nat

    /** No slot past the items still holds a request. */
    ghost predicate Valid()
      reads this, slots
    {
      n <= slots.Length && forall i :: n <= i < slots.Length ==> slots[i] == EMPTY_SLOT
    }

    ghost function Items(): seq<Request>
      reads this, slots
      requires Valid()
    {
      slots[..n]
    }

    constructor ()
      ensures Valid() && Items() == [] && fresh(slots)
    {
      slots := new Request[16](_ => EMPTY_SLOT);
      n := 0;
    }

    /** Keeps what passes, compacting towards the front, and clears the slots given up. */
    method Filter(t: Test)
      requires Valid()
      modifies this`n, slots
      ensures Valid() && slots == old(slots)
      ensures Items() == Select(t, old(Items()))
    {
      ghost var was := Items();
      var dst := 0;
      for i := 0 to n
        invariant dst <= i && n == |was| <= slots.Length
        invariant slots[..dst] == Select(t, was[..i])
        invariant forall k :: i <= k < n ==> slots[k] == was[k]
        invariant forall k :: n <= k < slots.Length ==> slots[k] == EMPTY_SLOT
      {
        assert was[..i+1][..i] == was[..i];
        if Passes(t, slots[i]) {
          slots[dst] := slots[i];
          dst := dst + 1;
        }
      }
      assert was[..n] == was;
      ClearTail(dst);
      n := dst;
    }

    method ClearTail(keep: nat)
      requires Valid() && keep <= n
      modifies slots
      ensures slots[..keep] == old(slots[..keep])
      ensures forall i :: keep <= i < slots.Length ==> slots[i] == EMPTY_SLOT
    {
      for i := keep to n
        invariant slots[..keep] == old(slots[..keep])
        invariant forall k :: keep <= k < i || n <= k < slots.Length ==> slots[k] == EMPTY_SLOT
      {
        slots[i] := EMPTY_SLOT;
      }
    }

    method PruneLocked(now: int)
      requires Valid()
      modifies this`n, slots
      ensures Valid() && slots == old(slots)
      ensures Items() == Prune(old(Items()), now)
    {
      Filter(Fresh(now));
    }

    method Len(now: int) returns (len: nat)
      requires Valid()
      modifies this`n, slots
      ensures Valid() && slots == old(slots)
      ensures Items() == Prune(old(Items()), now) && len == |Items()|
    {
      PruneLocked(now);
      len := n;
    }

    method RetainSources(keep: set<string>)
      requires Valid()
      modifies this`n, slots
      ensures Valid() && slots == old(slots)
      ensures Items() == Select(Among(keep), old(Items()))
    {
      Filter(Among(keep));
    }

    method Append(r: Request)
      requires Valid()
      modifies this, slots
      ensures Valid() && (slots == old(slots) || fresh(slots))
      ensures Items() == old(Items()) + [r]
    {
      if n == slots.Length {
        var was := slots;
        var bigger := new Request[2 * n + 1](i requires 0 <= i reads was =>
          if i < was.Length then was[i] else EMPTY_SLOT);
        slots := bigger;
        assert slots[..n] == old(Items());
      }
      slots[n] := r;
      n := n + 1;
    }

    /** Over the cap, the oldest entries go: the rest is shifted to the front. Reports how many went. */
    method EnforceSoftMaxLocked() returns (drop: nat)
      requires Valid()
      modifies this`n, slots
      ensures Valid() && slots == old(slots)
      ensures Items() == Trim(old(Items())) && drop == Excess(old(Items()))
    {
      if n <= SOFT_MAX {
        return 0;
      }
      drop := n - SOFT_MAX;
      ghost var was := Items();
      for i := 0 to n - drop
        invariant n == |was| <= slots.Length
        invariant forall k :: 0 <= k < i ==> slots[k] == was[drop + k]
        invariant forall k :: i <= k < n ==> slots[k] == was[k]
        invariant forall k :: n <= k < slots.Length ==> slots[k] == EMPTY_SLOT
      {
        slots[i] := slots[drop + i];
      }
      assert slots[..n - drop] == was[drop..];
      ClearTail(n - drop);
      n := n - drop;
    }

    method Push(r: Request, now: int)
      requires Valid()
      modifies this, slots
      ensures Valid() && (slots == old(slots) || fresh(slots))
      ensures Items() == if Retain(r, now) then Trim(Prune(old(Items()), now) + [r]) else Prune(old(Items()), now)
    {
      PruneLocked(now);
      if !Retain(r, now) {
        return;
      }
      Append(r);
      var _ := EnforceSoftMaxLocked();
    }

    method PopReady(due: map<string, int>, now: int, minInterval: int) returns (ready: seq<Request>)
      requires Valid()
      modifies this`n, slots
      ensures Valid() && slots == old(slots)
      ensures Popped(ready, Items()) == Pop(Prune(old(Items()), now), due, now, minInterval)
    {
      PruneLocked(now);
      if n == 0 {
        return [];
      }
      ready := TakeReady(due, now, minInterval);
    }

    /** At most one due request per source is taken out; the rest is compacted in place. */
    method TakeReady(due: map<string, int>, now: int, minInterval: int) returns (ready: seq<Request>)
      requires Valid()
      modifies this`n, slots
      ensures Valid() && slots == old(slots)
      ensures Popped(ready, Items()) == Pop(old(Items()), due, now, minInterval)
    {
      ready := [];
      ghost var was := Items();
      var taken: set<string> := {};
      var dst := 0;
      for i := 0 to n
        invariant n == |was| <= slots.Length
        invariant Sifted(was, i, dst, Pop(was[..i], due, now, minInterval).kept)
        invariant ready == Pop(was[..i], due, now, minInterval).ready
        invariant taken == Sources(ready)
      {
        var r := slots[i];
        PopNext(was, i, due, now, minInterval);
        SourcesGrow(ready, r);
        if r.source in taken || (r.source in due && now - due[r.source] < minInterval) {
          Compact(dst, i, was, Pop(was[..i], due, now, minInterval).kept);
          dst := dst + 1;
        } else {
          taken := taken + {r.source};
          ready := ready + [r];
        }
      }
      assert was[..n] == was && slots[..dst] == Pop(was, due, now, minInterval).kept;
      ClearTail(dst);
      n := dst;
    }

    /** A filter at entry i: the kept entries fill the front, those from i on are untouched. */
    ghost predicate Sifted(was: seq<Request>, i: nat, dst: nat, kept: seq<Request>)
      reads slots, this`slots
    {
      && |kept| == dst <= i <= |was| <= slots.Length
      && (forall k :: 0 <= k < dst ==> slots[k] == kept[k])
      && (forall k :: i <= k < |was| ==> slots[k] == was[k])
      && (forall k :: |was| <= k < slots.Length ==> slots[k] == EMPTY_SLOT)
    }

    /** Moves entry i down to the next kept slot. */
    method Compact(dst: nat, i: nat, ghost was: seq<Request>, ghost kept: seq<Request>)
      requires i < |was| && Sifted(was, i, dst, kept)
      modifies slots
      ensures Sifted(was, i + 1, dst + 1, kept + [was[i]])
    {
      slots[dst] := slots[i];
    }

    method PushFront(reqs: seq<Request>, now: int)
      requires Valid()
      modifies this, slots
      ensures Valid() && (slots == old(slots) || fresh(slots))
      ensures Items() == if reqs == [] then old(Items()) else Trim(Prune(reqs + old(Items()), now))
    {
      if reqs == [] {
        return;
      }
      var was, len := slots, n;
      var combined := new Request[|reqs| + len](i requires 0 <= i < |reqs| + len && len <= was.Length reads was =>
        if i < |reqs| then reqs[i] else was[i - |reqs|]);
      slots := combined;
      n := |reqs| + len;
      assert Items() == reqs + old(Items());
      PruneLocked(now);
      var _ := EnforceSoftMaxLocked();
    }
  }
}

/** The breaker's mutable state. */
module WeatherUplinks {
  import opened Common
  import opened UplinkSpec

  class WeatherUplink {
    var open: bool
    var failures: nat
    var openUntil: Option<int>
    var backoff: int

    ghost function State(): Breaker
      reads this
    {
      Breaker(open, failures, openUntil, backoff)
    }

    constructor ()
      ensures State() == NewBreaker()
    {
      open, failures, openUntil, backoff := false, 0, None, BACKOFF_START;
    }

    /** Asking whether a probe is due consumes nothing. */
    method IsProbeDue(now: int) returns (due: bool)
      ensures due == ProbeDue(State(), now)
    {
      if !open {
        return true;
      }
      due := !(openUntil.Some? && now < openUntil.value);
    }

    method Allow(now: int) returns (ok: bool)
      modifies this
      ensures ok == ProbeDue(old(State()), now)
      ensures State() == AllowAttempt(old(State()), now)
    {
      if !open {
        return true;
      }
      if openUntil.Some? && now < openUntil.value {
        return false;
      }
      openUntil := Some(now + backoff);
      ok := true;
    }

    method Success() returns (wasOpen: bool)
      modifies this
      ensures wasOpen == old(open) && State() == NoteSuccess(old(State()))
    {
      wasOpen := open;
      open, failures, backoff, openUntil := false, 0, BACKOFF_START, None;
    }

    method TransientFailure(now: int) returns (tripped: bool)
      modifies this
      ensures State() == NoteTransientFailure(old(State()), now)
      ensures tripped <==> !old(open) && open
    {
      failures := failures + 1;
      if !open && failures < OPEN_AFTER {
        return false;
      }
      tripped := !open;
      open := true;
      if backoff <= 0 {
        backoff := BACKOFF_START;
      }
      openUntil := Some(now + backoff);
      var next := backoff * 2;
      if next > BACKOFF_CAP {
        next := BACKOFF_CAP;
      }
      backoff := next;
    }
  }
}

/** The station manager's posting side; each method runs under the post mutex. */
module WeatherManagers {
  import opened Common
  import opened RingSpec
  import opened UplinkSpec
  import opened CatchupSpec
  import opened OutboundRings
  import opened WeatherUplinks

  class WeatherManager {
    const ring: OutboundRing
    const uplink: WeatherUplink
    var lastCatchupPost: map<string, int>
    ghost var history: History

    ghost predicate Valid()
      reads this, ring, ring.slots
    {
      ring.Valid()
    }

    ghost function State(): Weather
      reads this, ring, ring.slots, uplink
      requires Valid()
    {
      Weather(ring.Items(), uplink.State(), lastCatchupPost, history)
    }

    constructor ()
      ensures Valid() && State() == Init() && fresh(ring) && fresh(ring.slots) && fresh(uplink)
    {
      ring := new OutboundRing();
      uplink := new WeatherUplink();
      lastCatchupPost := map[];
      history := Init().h;
    }

    /** A concurrent reader of the ring's length. */
    method ReadLen(now: int) returns (len: nat)
      requires Valid()
      modifies this`history, ring, ring.slots
      ensures Valid() && ring.slots == old(ring.slots)
      ensures State() == PruneAt(old(State()), now) && len == |State().items|
    {
      history := PruneAt(State(), now).h;
      len := ring.Len(now);
    }

    method ReadLens(lens: seq<int>)
      requires Valid()
      modifies this`history, ring, ring.slots
      ensures Valid() && ring.slots == old(ring.slots)
      ensures State() == Prunes(old(State()), lens)
    {
      for i := 0 to |lens|
        invariant Valid() && ring.slots == old(ring.slots)
        invariant State() == Prunes(old(State()), lens[..i])
      {
        assert lens[..i+1][..i] == lens[..i];
        var _ := ReadLen(lens[i]);
      }
      assert lens[..|lens|] == lens;
    }

    method PutBack(reqs: seq<Request>, now: int)
      requires Valid()
      modifies this`history, ring, ring.slots
      ensures Valid() && (ring.slots == old(ring.slots) || fresh(ring.slots))
      ensures State() == PushFrontAt(old(State()), reqs, now)
    {
      history := PushFrontAt(State(), reqs, now).h;
      ring.PushFront(reqs, now);
    }

    method Queue(r: Request, now: int)
      requires Valid()
      modifies this`history, ring, ring.slots
      ensures Valid() && (ring.slots == old(ring.slots) || fresh(ring.slots))
      ensures State() == PushAt(old(State()), r, now)
    {
      history := PushAt(State(), r, now).h;
      ring.Push(r, now);
    }

    /** A POST the breaker just granted, with the breaker told about its result. */
    method NoteResult(r: Request, catchup: bool, inp: PostInput, ghost before: Weather)
      requires Valid()
      requires before.h == history && before.items == ring.Items() && before.lastPost == lastCatchupPost
      requires uplink.State() == AllowAttempt(before.breaker, inp.gateAt)
      modifies this, uplink
      ensures Valid() && State() == PostOne(before, r, catchup, inp)
    {
      if catchup {
        lastCatchupPost := lastCatchupPost[r.source := inp.stampAt];
      }
      match OutcomeOf(inp) {
        case Delivered => var _ := uplink.Success();
        case Transient => var _ := uplink.TransientFailure(inp.noteAt);
        case Permanent =>
        case Canceled =>
      }
      history := PostOne(before, r, catchup, inp).h;
    }

    method FlushRing(f: FlushInput)
      requires Valid()
      modifies this, ring, ring.slots, uplink
      ensures Valid() && (ring.slots == old(ring.slots) || fresh(ring.slots))
      ensures State() == Flush(old(State()), f)
    {
      if !f.configured {
        return;
      }
      var due := uplink.IsProbeDue(f.probeAt);
      if !due {
        return;
      }
      history := PruneAt(State(), f.popAt).h;
      var ready := ring.PopReady(lastCatchupPost, f.popAt, MIN_INTERVAL);
      ghost var target := Flush(old(State()), f);
      assert target == FlushFrom(State(), ready, f.script, 0);
      var i := 0;
      while i < |ready|
        invariant 0 <= i <= |ready| && Valid() && ring.slots == old(ring.slots)
        invariant FlushFrom(State(), ready, f.script, i) == target
      {
        var inp := f.script(i);
        ReadLens(inp.lens);
        ghost var before := State();
        var allowed := uplink.Allow(inp.gateAt);
        if !allowed {
          PutBack(ready[i..], inp.backAt);
          return;
        }
        NoteResult(ready[i], true, inp, before);
        if !Settles(OutcomeOf(inp)) {
          PutBack(ready[i..], inp.backAt);
          return;
        }
        i := i + 1;
      }
    }

    /** The caller is told of an error exactly when the observation was not delivered. */
    method PostObservation(r: Request, f: FlushInput, inp: PostInput) returns (ok: bool)
      requires Valid()
      modifies this, ring, ring.slots, uplink
      ensures Valid() && (ring.slots == old(ring.slots) || fresh(ring.slots))
      ensures State() == LivePost(old(State()), r, f, inp)
      ensures f.configured ==>
                (ok <==> ProbeDue(Flush(old(State()), f).breaker, inp.gateAt) && OutcomeOf(inp) == Delivered)
    {
      if !f.configured {
        return true;
      }
      FlushRing(f);
      ReadLens(inp.lens);
      ghost var before := State();
      PrunesKeepRest(Flush(old(State()), f), inp.lens);
      var allowed := uplink.Allow(inp.gateAt);
      if !allowed {
        Queue(r, inp.backAt);
        return false;
      }
      NoteResult(r, false, inp, before);
      if OutcomeOf(inp) == Transient {
        Queue(r, inp.backAt);
      }
      ok := OutcomeOf(inp) == Delivered;
    }

    method TickCatchup(lenAt: int, f: FlushInput, drainedAt: int)
      requires Valid()
      modifies this, ring, ring.slots, uplink
      ensures Valid() && (ring.slots == old(ring.slots) || fresh(ring.slots))
      ensures State() == Tick(old(State()), lenAt, f, drainedAt)
    {
      if !f.configured {
        return;
      }
      var queued := ReadLen(lenAt);
      if queued == 0 {
        return;
      }
      FlushRing(f);
      var _ := ReadLen(drainedAt);
    }

    method SyncFromConfig(wanted: set<string>)
      requires Valid()
      modifies this, ring, ring.slots
      ensures Valid() && ring.slots == old(ring.slots)
      ensures State() == Sync(old(State()), wanted)
    {
      history := Sync(State(), wanted).h;
      ring.RetainSources(wanted);
      var ids := lastCatchupPost.Keys;
      ghost var was := lastCatchupPost;
      while ids != {}
        modifies this`lastCatchupPost
        invariant ids <= was.Keys
        invariant lastCatchupPost == map s | s in was && (s in ids || s in wanted) :: was[s]
      {
        var id :| id in ids;
        if id !in wanted {
          lastCatchupPost := lastCatchupPost - {id};
        }
        ids := ids - {id};
      }
    }
  }
}

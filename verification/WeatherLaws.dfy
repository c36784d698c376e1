/**
 * What becomes of weather requests, in the plain terms of the bridge: the fields of a POST's error,
 * seconds, minutes, and who is where in the ring.
 */
module WeatherLaws {
  import opened Common
  import opened Subsequences
  import opened RingSpec
  import opened UplinkSpec
  import opened CatchupSpec

  // ----- which requests are kept at all

  /** At most ten minutes old, and at most one minute ahead. */
  predicate Good(r: Request, now: int) {
    r.observedAt.Some? && now - 600_000_000_000 <= r.observedAt.value && r.observedAt.value <= now + 60_000_000_000
  }

  lemma GoodIsRetained(r: Request, now: int)
    ensures Retain(r, now) <==> Good(r, now)
  {
  }

  /** Pruning keeps exactly the good requests. */
  lemma PrunedAreGood(s: seq<Request>, now: int, r: Request)
    ensures r in Prune(s, now) <==> r in s && Good(r, now)
  {
    SelectMembers(Fresh(now), s);
    GoodIsRetained(r, now);
  }

  lemma PruneKeepsHead(s: seq<Request>, now: int)
    requires s != [] && Good(s[0], now)
    ensures Prune(s, now) != [] && Prune(s, now)[0] == s[0]
  {
    GoodIsRetained(s[0], now);
    assert s == [s[0]] + s[1..];
    SelectConcat(Fresh(now), [s[0]], s[1..]);
    assert Select(Fresh(now), [s[0]]) == [s[0]];
  }

  // ----- the fate of one popped request

  /** The server turned the request down for good. */
  predicate TurnedDown(e: PostError) {
    !e.canceled && 400 <= e.code < 500 && e.code != 429
  }

  /** A POST that says nothing about its request. */
  predicate Outage(e: Option<PostError>) {
    e.Some? && !e.value.canceled && !TurnedDown(e.value)
  }

  /** A POST that ends its request's time in the bridge. */
  predicate Final(e: Option<PostError>) {
    e.None? || TurnedDown(e.value)
  }

  /** Consecutive failures after a POST: none after a delivery, one more after an outage, else as before. */
  function FailuresAfter(before: int, e: Option<PostError>): int {
    if e.None? then 0 else if Outage(e) then before + 1 else before
  }

  /** The POST is on record, with its clock readings and how it ended. */
  ghost predicate Recorded(w: Weather, t: Weather, r: Request, catchup: bool, inp: PostInput) {
    && |t.h.posts| == |w.h.posts| + 1 && t.h.posts[..|w.h.posts|] == w.h.posts
    && var p := t.h.posts[|w.h.posts|];
       && p.source == r.source && p.catchup == catchup
       && p.gateAt == inp.gateAt && p.startAt == inp.startAt && p.stampAt == inp.stampAt && p.noteAt == inp.noteAt
       && (p.outcome == Delivered <==> inp.error.None?)
       && (p.outcome == Transient <==> Outage(inp.error))
  }

  /** One catch-up POST of r was made: only r's own ledger entry, its stamp and the breaker changed. */
  ghost predicate Posted(w: Weather, t: Weather, r: Request, inp: PostInput) {
    && t.items == w.items
    && t.lastPost == w.lastPost[r.source := inp.stampAt]
    && t.breaker.failures == FailuresAfter(w.breaker.failures, inp.error)
    && Recorded(w, t, r, true, inp)
    && t.h.delivered == w.h.delivered + (if inp.error.None? then [r] else [])
    && t.h.rejected == w.h.rejected + (if inp.error.Some? && TurnedDown(inp.error.value) then [r] else [])
    && t.h.aged == w.h.aged && t.h.overflowed == w.h.overflowed && t.h.removed == w.h.removed
    && t.h.accepted == w.h.accepted && t.h.syncs == w.h.syncs
  }

  /** The batch from r on went back: in front of the ring, less what is no longer good. */
  ghost predicate WentBack(w: Weather, t: Weather, batch: seq<Request>, now: int) {
    && t.items == Prune(batch + w.items, now)
    && (batch != [] && Good(batch[0], now) ==> t.items != [] && t.items[0] == batch[0])
    && t.breaker == w.breaker && t.lastPost == w.lastPost && t.h == w.h.(aged := t.h.aged)
  }

  lemma PostIsPosted(w: Weather, r: Request, inp: PostInput)
    ensures Posted(w, PostOne(w, r, true, inp), r, inp)
  {
  }

  lemma PutBack(w: Weather, batch: seq<Request>, now: int)
    requires batch != [] && |batch| + |w.items| <= 1200
    ensures WentBack(w, PushFrontAt(w, batch, now), batch, now)
  {
    var all := batch + w.items;
    SelectSplits(Fresh(now), all);
    var p := PruneAt(w.(items := all), now);
    assert Excess(p.items) == 0 && p.items[0..] == p.items && p.h.overflowed + p.items[..0] == p.h.overflowed;
    if Good(batch[0], now) {
      PruneKeepsHead(all, now);
    }
  }

  /**
   * The round of the flush that posts the i-th popped request.  Delivered, or turned down for good:
   * the request is settled and the next one is tried.  Canceled, or an outage: nothing is settled,
   * and it goes back to the front of the ring with those not yet tried, which ends the flush.
   */
  lemma {:induction false} RoundFate(w: Weather, ready: seq<Request>, script: Script, i: nat)
    requires i < |ready| && |ready| - i + |w.items| <= 1200
    ensures var inp := script(i);
            var w1, t := Prunes(w, inp.lens), FlushFrom(w, ready, script, i);
            var granted := ProbeDue(w1.breaker, inp.gateAt);
            && (!granted ==> WentBack(w1, t, ready[i..], inp.backAt))
            && (granted && Final(inp.error) ==>
                  exists w2 :: Posted(w1, w2, ready[i], inp) && t == FlushFrom(w2, ready, script, i + 1))
            && (granted && !Final(inp.error) ==>
                  exists w2 :: Posted(w1, w2, ready[i], inp) && WentBack(w2, t, ready[i..], inp.backAt))
  {
    var inp := script(i);
    var w1 := Prunes(w, inp.lens);
    PrunesShrink(w, inp.lens);
    PostIsPosted(w1, ready[i], inp);
    var w2 := PostOne(w1, ready[i], true, inp);
    if !ProbeDue(w1.breaker, inp.gateAt) {
      PutBack(w1, ready[i..], inp.backAt);
    } else if !Final(inp.error) {
      PutBack(w2, ready[i..], inp.backAt);
    }
  }

  lemma {:induction false} PrunesShrink(w: Weather, lens: seq<int>)
    ensures |Prunes(w, lens).items| <= |w.items| && forall r :: r in Prunes(w, lens).items ==> r in w.items
  {
    if lens != [] {
      var front, now := lens[..|lens|-1], lens[|lens|-1];
      PrunesShrink(w, front);
      SelectSplits(Fresh(now), Prunes(w, front).items);
      SelectMembers(Fresh(now), Prunes(w, front).items);
    }
  }

  // ----- the fate of the whole batch

  /** Those of the i-th to the n-th popped request whose POST was delivered, or was turned down. */
  ghost function Settled(ready: seq<Request>, script: Script, i: nat, n: nat, delivered: bool): seq<Request>
    requires i <= n <= |ready|
    decreases n - i
  {
    if i == n then []
    else (if script(i).error.None? == delivered then [ready[i]] else []) + Settled(ready, script, i + 1, n, delivered)
  }

  /** A flush of this batch stopped before its n-th request: settled up to there, back from there on. */
  ghost predicate StoppedAt(w: Weather, t: Weather, ready: seq<Request>, script: Script, i: nat, n: nat) {
    && i <= n <= |ready|
    && (forall j :: i <= j < n ==> Final(script(j).error))
    && t.h.delivered == w.h.delivered + Settled(ready, script, i, n, true)
    && t.h.rejected == w.h.rejected + Settled(ready, script, i, n, false)
    && t.h.accepted == w.h.accepted
    && (n == |ready| ==> |t.h.posts| == |w.h.posts| + n - i && forall r :: r in t.items ==> r in w.items)
    && (n < |ready| ==>
          && (|t.h.posts| == |w.h.posts| + n - i
              || (|t.h.posts| == |w.h.posts| + n - i + 1 && !Final(script(n).error)))
          && (forall k :: n <= k < |ready| && Good(ready[k], script(n).backAt) ==> ready[k] in t.items)
          && (Good(ready[n], script(n).backAt) ==> t.items != [] && t.items[0] == ready[n]))
  }

  lemma BackInRing(w: Weather, t: Weather, batch: seq<Request>, now: int)
    requires WentBack(w, t, batch, now)
    ensures forall k :: 0 <= k < |batch| && Good(batch[k], now) ==> batch[k] in t.items
  {
    forall k | 0 <= k < |batch| && Good(batch[k], now) ensures batch[k] in t.items {
      PrunedAreGood(batch + w.items, now, batch[k]);
      assert (batch + w.items)[k] == batch[k];
    }
  }

  lemma StopsHere(w: Weather, t: Weather, ready: seq<Request>, script: Script, i: nat, w2: Weather)
    requires i < |ready| && WentBack(w2, t, ready[i..], script(i).backAt)
    requires w2.h.delivered == w.h.delivered && w2.h.rejected == w.h.rejected && w2.h.accepted == w.h.accepted
    requires |w2.h.posts| == |w.h.posts| || (|w2.h.posts| == |w.h.posts| + 1 && !Final(script(i).error))
    ensures StoppedAt(w, t, ready, script, i, i)
  {
    BackInRing(w2, t, ready[i..], script(i).backAt);
    forall k | i <= k < |ready| && Good(ready[k], script(i).backAt) ensures ready[k] in t.items {
      assert ready[i..][k - i] == ready[k];
    }
  }

  lemma SettledOneMore(w: Weather, w2: Weather, t: Weather, ready: seq<Request>, script: Script, i: nat, n: nat)
    requires i < |ready| && Final(script(i).error) && StoppedAt(w2, t, ready, script, i + 1, n)
    requires w2.h.delivered == w.h.delivered + (if script(i).error.None? then [ready[i]] else [])
    requires w2.h.rejected == w.h.rejected + (if script(i).error.None? then [] else [ready[i]])
    requires w2.h.accepted == w.h.accepted && |w2.h.posts| == |w.h.posts| + 1
    requires forall r :: r in w2.items ==> r in w.items
    ensures StoppedAt(w, t, ready, script, i, n)
  {
    assert forall a: seq<Request>, b, c :: a + (b + c) == (a + b) + c;
  }

  lemma RoundStops(w: Weather, ready: seq<Request>, script: Script, i: nat)
    requires i < |ready| && |ready| - i + |w.items| <= 1200
    requires !ProbeDue(Prunes(w, script(i).lens).breaker, script(i).gateAt) || !Final(script(i).error)
    ensures StoppedAt(w, FlushFrom(w, ready, script, i), ready, script, i, i)
  {
    var w1, t := Prunes(w, script(i).lens), FlushFrom(w, ready, script, i);
    RoundFate(w, ready, script, i);
    PrunesKeepRest(w, script(i).lens);
    if !ProbeDue(w1.breaker, script(i).gateAt) {
      StopsHere(w, t, ready, script, i, w1);
    } else {
      var w2 :| Posted(w1, w2, ready[i], script(i)) && WentBack(w2, t, ready[i..], script(i).backAt);
      StopsHere(w, t, ready, script, i, w2);
    }
  }

  lemma {:induction false} RoundGoesOn(w: Weather, ready: seq<Request>, script: Script, i: nat) returns (w2: Weather)
    requires i < |ready| && |ready| - i + |w.items| <= 1200
    requires ProbeDue(Prunes(w, script(i).lens).breaker, script(i).gateAt) && Final(script(i).error)
    ensures FlushFrom(w, ready, script, i) == FlushFrom(w2, ready, script, i + 1)
    ensures |w2.items| <= |w.items| && (forall r :: r in w2.items ==> r in w.items)
    ensures w2.h.delivered == w.h.delivered + (if script(i).error.None? then [ready[i]] else [])
    ensures w2.h.rejected == w.h.rejected + (if script(i).error.None? then [] else [ready[i]])
    ensures w2.h.accepted == w.h.accepted && |w2.h.posts| == |w.h.posts| + 1
  {
    var w1 := Prunes(w, script(i).lens);
    RoundFate(w, ready, script, i);
    PrunesShrink(w, script(i).lens);
    PrunesKeepRest(w, script(i).lens);
    w2 :| Posted(w1, w2, ready[i], script(i)) && FlushFrom(w, ready, script, i) == FlushFrom(w2, ready, script, i + 1);
  }

  /** How far a flush gets, and what it leaves. */
  lemma {:induction false} BatchFate(w: Weather, ready: seq<Request>, script: Script, i: nat) returns (n: nat)
    requires i <= |ready| && |ready| - i + |w.items| <= 1200
    ensures StoppedAt(w, FlushFrom(w, ready, script, i), ready, script, i, n)
    decreases |ready| - i
  {
    n := i;
    if i < |ready| {
      if ProbeDue(Prunes(w, script(i).lens).breaker, script(i).gateAt) && Final(script(i).error) {
        var w2 := RoundGoesOn(w, ready, script, i);
        n := BatchFate(w2, ready, script, i + 1);
        SettledOneMore(w, w2, FlushFrom(w, ready, script, i), ready, script, i, n);
      } else {
        RoundStops(w, ready, script, i);
      }
    }
  }

  // ----- a whole flush

  /** At least a second since the source's stamp, if it has one. */
  predicate Rested(w: Weather, source: string, now: int) {
    source in w.lastPost ==> now - w.lastPost[source] >= 1_000_000_000
  }

  /**
   * A flush of a configured service whose breaker grants a probe takes the oldest good request of
   * every rested source, leaves the others, and settles or puts back the batch.
   */
  lemma FlushFate(w: Weather, f: FlushInput) returns (batch: seq<Request>, rest: seq<Request>, n: nat)
    requires f.configured && ProbeDue(w.breaker, f.probeAt) && |w.items| <= 1200
    ensures forall source ::
              var queued := Of(source, Prune(w.items, f.popAt));
              && Of(source, batch) + Of(source, rest) == queued
              && Of(source, batch) == if queued != [] && Rested(w, source, f.popAt) then [queued[0]] else []
    ensures StoppedAt(w.(items := rest), Flush(w, f), batch, f.script, 0, n)
  {
    var w1 := PruneAt(w, f.popAt);
    var p := Pop(w1.items, w1.lastPost, f.popAt, MIN_INTERVAL);
    batch, rest := p.ready, p.kept;
    forall source
      ensures var queued := Of(source, w1.items);
              && Of(source, batch) + Of(source, rest) == queued
              && Of(source, batch) == if queued != [] && Rested(w, source, f.popAt) then [queued[0]] else []
    {
      PopKeepsSourceOrder(w1.items, w1.lastPost, f.popAt, MIN_INTERVAL, source);
      HeadOnly(Of(source, batch), Of(source, rest), Of(source, w1.items));
    }
    SelectSplits(Fresh(f.popAt), w.items);
    PopSplits(w1.items, w1.lastPost, f.popAt, MIN_INTERVAL);
    n := BatchFate(w1.(items := rest), batch, f.script, 0);
  }

  lemma HeadOnly(a: seq<Request>, b: seq<Request>, q: seq<Request>)
    requires a + b == q
    ensures |a| == 1 ==> q != [] && a == [q[0]]
    ensures |a| == 0 ==> a == []
  {
    if |a| == 1 {
      assert (a + b)[0] == a[0];
    }
  }

  /** Without a service nothing happens at all; before the breaker grants a probe, a flush does nothing. */
  lemma FlushIdle(w: Weather, f: FlushInput, r: Request, inp: PostInput, lenAt: int, drainedAt: int)
    ensures !f.configured ==> Flush(w, f) == LivePost(w, r, f, inp) == Tick(w, lenAt, f, drainedAt) == w
    ensures !ProbeDue(w.breaker, f.probeAt) ==> Flush(w, f) == w
  {
  }

  // ----- joining the ring

  /** The ring with one more request at the back: at most the newest 1200. */
  function Joined(items: seq<Request>, r: Request): seq<Request> {
    var all := items + [r];
    if |all| > 1200 then all[|all| - 1200..] else all
  }

  lemma PushFate(w: Weather, r: Request, now: int)
    ensures var t := PushAt(w, r, now);
            && t.items == (if Good(r, now) then Joined(Prune(w.items, now), r) else Prune(w.items, now))
            && t.h.accepted == w.h.accepted + (if Good(r, now) then [r] else [])
            && t.h.posts == w.h.posts && t.breaker == w.breaker && t.lastPost == w.lastPost
            && t.h.delivered == w.h.delivered && t.h.rejected == w.h.rejected
  {
    GoodIsRetained(r, now);
  }

  /**
   * A live observation, after the flush: it is posted exactly when the breaker grants it; it joins
   * the ring exactly when it was not granted or ended in an outage, and is good; and the breaker
   * counts its failure only if it was an outage.
   */
  lemma LiveFateByError(w: Weather, r: Request, f: FlushInput, inp: PostInput)
    requires f.configured
    ensures var w1, t := Prunes(Flush(w, f), inp.lens), LivePost(w, r, f, inp);
            var granted := ProbeDue(w1.breaker, inp.gateAt);
            var wants := !granted || Outage(inp.error);
            && t.items == (if !wants then w1.items
                           else if Good(r, inp.backAt) then Joined(Prune(w1.items, inp.backAt), r)
                           else Prune(w1.items, inp.backAt))
            && t.h.accepted == w1.h.accepted + (if wants && Good(r, inp.backAt) then [r] else [])
            && t.h.delivered == w1.h.delivered && t.h.rejected == w1.h.rejected && t.lastPost == w1.lastPost
            && (if granted then Recorded(w1, t, r, false, inp) else t.h.posts == w1.h.posts)
            && t.breaker.failures ==
               (if granted then FailuresAfter(w1.breaker.failures, inp.error) else w1.breaker.failures)
  {
    var w1 := Prunes(Flush(w, f), inp.lens);
    PushFate(w1, r, inp.backAt);
    PushFate(PostOne(w1, r, false, inp), r, inp.backAt);
  }

  // ----- configuration syncs

  lemma {:induction false} KeptSources(keep: set<string>, s: seq<Request>, source: string)
    ensures Of(source, Select(Among(keep), s)) == if source in keep then Of(source, s) else []
  {
    if s != [] {
      var front, last := s[..|s|-1], s[|s|-1];
      KeptSources(keep, front, source);
      assert s == front + [last];
      SelectLast(From(source), front, last);
      SelectLast(From(source), Select(Among(keep), front), last);
    }
  }

  /** A sync leaves every kept station as it was, requests and stamp, and nothing of the others. */
  lemma SyncFate(w: Weather, keep: set<string>, source: string)
    ensures var t := Sync(w, keep);
            && Of(source, t.items) == (if source in keep then Of(source, w.items) else [])
            && (source in t.lastPost <==> source in w.lastPost && source in keep)
            && (source in t.lastPost ==> t.lastPost[source] == w.lastPost[source])
            && t.breaker == w.breaker && t.h.posts == w.h.posts
            && t.h.delivered == w.h.delivered && t.h.rejected == w.h.rejected && t.h.aged == w.h.aged
  {
    KeptSources(keep, w.items, source);
  }

  /** Whoever reads the ring's length leaves the good requests in it, in order, and nothing else changes. */
  lemma LenFate(w: Weather, now: int)
    ensures var t := Step(w, DoLen(now));
            && Sub(t.items, w.items) && (forall r :: r in t.items <==> r in w.items && Good(r, now))
            && t == w.(items := t.items, h := w.h.(aged := t.h.aged))
  {
    SelectIsSub(Fresh(now), w.items);
    forall r ensures r in Prune(w.items, now) <==> r in w.items && Good(r, now) {
      PrunedAreGood(w.items, now, r);
    }
  }

  // ----- ticks

  /** With a service that answers every POST, one tick delivers the oldest good request of each rested source. */
  lemma TickServesEverySource(w: Weather, lenAt: int, f: FlushInput, drainedAt: int, source: string)
    requires f.configured && ProbeDue(w.breaker, f.probeAt) && ProbeDue(w.breaker, f.script(0).gateAt)
    requires forall j: nat :: f.script(j).error.None?
    ensures var queued := Of(source, Prune(Prune(w.items, lenAt), f.popAt));
            Of(source, Tick(w, lenAt, f, drainedAt).h.delivered) ==
            Of(source, w.h.delivered) + (if queued != [] && Rested(w, source, f.popAt) then [queued[0]] else [])
  {
    var w1 := PruneAt(w, lenAt);
    forall j: nat ensures OutcomeOf(f.script(j)) == Delivered {
      assert f.script(j).error.None?;
    }
    FlushServesEverySource(w1, f, source);
    if w1.items == [] {
      assert Prune(w1.items, f.popAt) == [];
    }
  }

  lemma {:induction false} PruneThins(s: seq<Request>, now: int, source: string)
    ensures |Of(source, Prune(s, now))| <= |Of(source, s)|
  {
    if s != [] {
      var front, last := s[..|s|-1], s[|s|-1];
      PruneThins(front, now, source);
      assert s == front + [last];
      SelectLast(From(source), front, last);
      SelectLast(From(source), Prune(front, now), last);
    }
  }

  lemma {:induction false} PrunesThin(w: Weather, lens: seq<int>, source: string)
    ensures |Of(source, Prunes(w, lens).items)| <= |Of(source, w.items)|
  {
    if lens != [] {
      PrunesThin(w, lens[..|lens|-1], source);
      PruneThins(Prunes(w, lens[..|lens|-1]).items, lens[|lens|-1], source);
    }
  }

  /** Every stamp of a source is at most `at`. */
  predicate StampedBy(w: Weather, at: int) {
    forall s :: s in w.lastPost ==> w.lastPost[s] <= at
  }

  lemma {:induction false} AnsweredBatch(w: Weather, ready: seq<Request>, script: Script, i: nat, at: int)
    requires !w.breaker.open && StampedBy(w, at)
    requires forall j: nat :: script(j).error.None? && script(j).stampAt <= at
    ensures var t := FlushFrom(w, ready, script, i);
            && !t.breaker.open && StampedBy(t, at)
            && forall source :: |Of(source, t.items)| <= |Of(source, w.items)|
    decreases |ready| - i
  {
    if i < |ready| {
      var inp := script(i);
      var w1 := Prunes(w, inp.lens);
      PrunesKeepRest(w, inp.lens);
      AnsweredBatch(PostOne(w1, ready[i], true, inp), ready, script, i + 1, at);
      forall source ensures |Of(source, w1.items)| <= |Of(source, w.items)| {
        PrunesThin(w, inp.lens, source);
      }
    }
  }

  /** One good tick: every source with requests has one fewer. */
  lemma TickThins(w: Weather, lenAt: int, f: FlushInput, drainedAt: int, at: int)
    requires f.configured && !w.breaker.open && StampedBy(w, f.popAt - 1_000_000_000) && f.popAt <= at
    requires forall j: nat :: f.script(j).error.None? && f.script(j).stampAt <= at
    ensures var t := Tick(w, lenAt, f, drainedAt);
            && !t.breaker.open && StampedBy(t, at)
            && forall source ::
                 |Of(source, t.items)| <= if |Of(source, w.items)| == 0 then 0 else |Of(source, w.items)| - 1
  {
    var w1 := PruneAt(w, lenAt);
    forall source ensures |Of(source, w1.items)| <= |Of(source, w.items)| {
      PruneThins(w.items, lenAt, source);
    }
    if w1.items != [] {
      FlushThins(w1, f, at);
      var fl := Flush(w1, f);
      forall source ensures |Of(source, Prune(fl.items, drainedAt))| <= |Of(source, fl.items)| {
        PruneThins(fl.items, drainedAt, source);
      }
    }
  }

  lemma FlushThins(w: Weather, f: FlushInput, at: int)
    requires f.configured && !w.breaker.open && StampedBy(w, f.popAt - 1_000_000_000) && f.popAt <= at
    requires forall j: nat :: f.script(j).error.None? && f.script(j).stampAt <= at
    ensures var t := Flush(w, f);
            && !t.breaker.open && StampedBy(t, at)
            && forall source ::
                 |Of(source, t.items)| <= if |Of(source, w.items)| == 0 then 0 else |Of(source, w.items)| - 1
  {
    var w1 := PruneAt(w, f.popAt);
    var p := Pop(w1.items, w1.lastPost, f.popAt, MIN_INTERVAL);
    AnsweredBatch(w1.(items := p.kept), p.ready, f.script, 0, at);
    forall source
      ensures |Of(source, p.kept)| <= if |Of(source, w.items)| == 0 then 0 else |Of(source, w.items)| - 1
    {
      PruneThins(w.items, f.popAt, source);
      PopKeepsSourceOrder(w1.items, w1.lastPost, f.popAt, MIN_INTERVAL, source);
    }
  }

  datatype TickInput = TickInput(lenAt: int, flush: FlushInput, drainedAt: int)

  /** A tick of the configured service in which every POST is delivered before the tick is over. */
  ghost predicate Answered(k: TickInput) {
    && k.flush.configured && k.flush.popAt <= k.drainedAt
    && forall j: nat :: k.flush.script(j).error.None? && k.flush.script(j).stampAt <= k.drainedAt
  }

  /** Each tick looks at the ring at least a second after the one before it was over. */
  ghost predicate Spread(ticks: seq<TickInput>) {
    && (forall k :: 0 <= k < |ticks| ==> Answered(ticks[k]))
    && (forall k :: 0 < k < |ticks| ==> ticks[k-1].drainedAt + 1_000_000_000 <= ticks[k].flush.popAt)
  }

  function Ticks(w: Weather, ticks: seq<TickInput>): Weather
    decreases |ticks|
  {
    if ticks == [] then w else Ticks(Tick(w, ticks[0].lenAt, ticks[0].flush, ticks[0].drainedAt), ticks[1..])
  }

  /** Each such tick takes one request off every source that has any. */
  lemma {:induction false} TicksThin(w: Weather, ticks: seq<TickInput>, source: string)
    requires !w.breaker.open && Spread(ticks)
    requires ticks != [] ==> StampedBy(w, ticks[0].flush.popAt - 1_000_000_000)
    ensures var n := |Of(source, w.items)| - |ticks|;
            |Of(source, Ticks(w, ticks).items)| <= if n < 0 then 0 else n
    decreases |ticks|
  {
    if ticks != [] {
      var k, rest := ticks[0], ticks[1..];
      assert Answered(k);
      TickThins(w, k.lenAt, k.flush, k.drainedAt, k.drainedAt);
      forall m | 0 <= m < |rest| ensures Answered(rest[m]) {
        assert rest[m] == ticks[m+1];
      }
      assert forall m :: 0 < m < |rest| ==> rest[m] == ticks[m+1] && rest[m-1] == ticks[m];
      if rest != [] {
        assert ticks[0].drainedAt + 1_000_000_000 <= ticks[1].flush.popAt;
      }
      TicksThin(Tick(w, k.lenAt, k.flush, k.drainedAt), rest, source);
    }
  }

  /**
   * The ring drains: once the service answers and the breaker is closed, as many spread ticks as the
   * busiest source has requests leave it empty, from any ring whatever.
   */
  lemma TicksDrain(w: Weather, ticks: seq<TickInput>)
    requires !w.breaker.open && Spread(ticks)
    requires ticks != [] ==> StampedBy(w, ticks[0].flush.popAt - 1_000_000_000)
    requires forall source :: |Of(source, w.items)| <= |ticks|
    ensures Ticks(w, ticks).items == []
  {
    forall source ensures |Of(source, Ticks(w, ticks).items)| == 0 {
      TicksThin(w, ticks, source);
    }
    SomeoneWaits(Ticks(w, ticks).items);
  }

  lemma SomeoneWaits(s: seq<Request>)
    ensures s != [] ==> |Of(s[0].source, s)| > 0
  {
    if s != [] {
      SelectMembers(From(s[0].source), s);
      assert s[0] in Of(s[0].source, s);
    }
  }

  // ----- when the breaker grants an attempt

  /** min(60 s, 5 s * 2^(n-1)), with 2^0 for n = 0. */
  function Wait(n: nat): int {
    if n <= 1 then 5_000_000_000
    else if n == 2 then 10_000_000_000
    else if n == 3 then 20_000_000_000
    else if n == 4 then 40_000_000_000
    else 60_000_000_000
  }

  lemma WaitIsBackoff(n: nat)
    ensures Backoff(n) == Wait(n)
  {
    assert Pow2(0) == 1 && Pow2(1) == 2 && Pow2(2) == 4 && Pow2(3) == 8 && Pow2(4) == 16;
    if n >= 5 {
      PowGrows(4, n - 1);
    }
  }

  /**
   * In every reachable state an attempt is granted exactly when fewer than two failures came since
   * the last delivery, or the wait of the last attempt is over: from its note if it was an outage,
   * else from the moment it was granted.
   */
  lemma {:induction false} GrantedIff(ops: seq<Op>, now: int)
    ensures var posts := Run(ops).h.posts;
            var f := FailuresIn(posts);
            (f >= 2 ==> posts != [])
            && (ProbeDue(Run(ops).breaker, now) <==>
                || f < 2
                || (var last := posts[|posts|-1];
                    now >= if last.outcome == Transient then last.noteAt + Wait(f - 1) else last.gateAt + Wait(f)))
  {
    RunKeeps(ops);
    var f := FailuresIn(Run(ops).h.posts);
    WaitIsBackoff(f);
    if f >= 1 {
      WaitIsBackoff(f - 1);
    }
  }

  // ----- when a source is rested

  /** Every stamp is that of a catch-up POST of its source made while it stayed configured. */
  ghost predicate Witnessed(w: Weather) {
    && (forall m :: m in w.h.syncs ==> m.at <= |w.h.posts|)
    && forall s :: s in w.lastPost ==> exists i :: Stamps(w, s, i)
  }

  ghost predicate Stamps(w: Weather, s: string, i: int) {
    && 0 <= i < |w.h.posts| && w.h.posts[i].catchup && w.h.posts[i].source == s
    && s in w.lastPost && w.h.posts[i].stampAt == w.lastPost[s] && Unbroken(w.h.syncs, s, i, |w.h.posts|)
  }

  lemma SameStamps(w: Weather, t: Weather)
    requires Witnessed(w) && t.lastPost == w.lastPost && t.h.posts == w.h.posts && t.h.syncs == w.h.syncs
    ensures Witnessed(t)
  {
    forall s | s in t.lastPost ensures exists i :: Stamps(t, s, i) {
      var i :| Stamps(w, s, i);
      assert Stamps(t, s, i);
    }
  }

  lemma PostStamps(w: Weather, r: Request, catchup: bool, inp: PostInput)
    requires Witnessed(w)
    ensures Witnessed(PostOne(w, r, catchup, inp))
  {
    var t := PostOne(w, r, catchup, inp);
    var n := |w.h.posts|;
    forall s | s in t.lastPost ensures exists i :: Stamps(t, s, i) {
      if catchup && s == r.source {
        assert Stamps(t, s, n);
      } else {
        var i :| Stamps(w, s, i);
        assert t.h.posts[i] == w.h.posts[i];
        assert Stamps(t, s, i);
      }
    }
  }

  lemma SyncStamps(w: Weather, keep: set<string>)
    requires Witnessed(w)
    ensures Witnessed(Sync(w, keep))
  {
    var t := Sync(w, keep);
    forall s | s in t.lastPost ensures exists i :: Stamps(t, s, i) {
      var i :| Stamps(w, s, i);
      assert Stamps(t, s, i);
    }
  }

  lemma {:induction false} BatchStamps(w: Weather, ready: seq<Request>, script: Script, i: nat)
    requires Witnessed(w)
    ensures Witnessed(FlushFrom(w, ready, script, i))
    decreases |ready| - i
  {
    if i < |ready| {
      var inp := script(i);
      var w1 := Prunes(w, inp.lens);
      PrunesKeepRest(w, inp.lens);
      SameStamps(w, w1);
      PostStamps(w1, ready[i], true, inp);
      var w2 := PostOne(w1, ready[i], true, inp);
      SameStamps(w1, PushFrontAt(w1, ready[i..], inp.backAt));
      SameStamps(w2, PushFrontAt(w2, ready[i..], inp.backAt));
      BatchStamps(w2, ready, script, i + 1);
    }
  }

  lemma FlushStamps(w: Weather, f: FlushInput)
    requires Witnessed(w)
    ensures Witnessed(Flush(w, f))
  {
    if f.configured && ProbeDue(w.breaker, f.probeAt) {
      var w1 := PruneAt(w, f.popAt);
      var p := Pop(w1.items, w1.lastPost, f.popAt, MIN_INTERVAL);
      SameStamps(w, w1.(items := p.kept));
      BatchStamps(w1.(items := p.kept), p.ready, f.script, 0);
    }
  }

  lemma LiveStamps(w: Weather, r: Request, f: FlushInput, inp: PostInput)
    requires Witnessed(w)
    ensures Witnessed(LivePost(w, r, f, inp))
  {
    if f.configured {
      FlushStamps(w, f);
      var w1 := Prunes(Flush(w, f), inp.lens);
      PrunesKeepRest(Flush(w, f), inp.lens);
      SameStamps(Flush(w, f), w1);
      PostStamps(w1, r, false, inp);
      SameStamps(w1, PushAt(w1, r, inp.backAt));
      SameStamps(PostOne(w1, r, false, inp), PushAt(PostOne(w1, r, false, inp), r, inp.backAt));
    }
  }

  lemma StepStamps(w: Weather, op: Op)
    requires Witnessed(w)
    ensures Witnessed(Step(w, op))
  {
    match op {
      case DoLive(r, f, inp) => LiveStamps(w, r, f, inp);
      case DoTick(a, f, b) =>
        SameStamps(w, PruneAt(w, a));
        FlushStamps(PruneAt(w, a), f);
        SameStamps(Flush(PruneAt(w, a), f), PruneAt(Flush(PruneAt(w, a), f), b));
      case DoSync(keep) => SyncStamps(w, keep);
      case DoLen(now) => SameStamps(w, PruneAt(w, now));
    }
  }

  lemma {:induction false} RunStamps(ops: seq<Op>)
    ensures Witnessed(Run(ops))
  {
    if ops != [] {
      RunStamps(ops[..|ops|-1]);
      StepStamps(Run(ops[..|ops|-1]), ops[|ops|-1]);
    }
  }

  /**
   * With a clock that does not go back within an operation, a source is rested exactly when every
   * catch-up POST of it since it was last removed ended at least a second ago.
   */
  lemma {:induction false} RestedIff(ops: seq<Op>, source: string, now: int)
    requires Clocked(ops)
    ensures var w := Run(ops);
            Rested(w, source, now) <==>
            forall i :: 0 <= i < |w.h.posts| && w.h.posts[i].catchup && w.h.posts[i].source == source
                        && Unbroken(w.h.syncs, source, i, |w.h.posts|)
                        ==> now - w.h.posts[i].stampAt >= 1_000_000_000
  {
    RunKeeps(ops);
    RunStamps(ops);
    var w := Run(ops);
    if source in w.lastPost {
      var i :| Stamps(w, source, i);
      assert w.h.posts[i].stampAt == w.lastPost[source];
    }
  }
}

/**
 * Weather catch-up: live posts, ring flushes and configuration syncs over the outbound ring and the
 * circuit breaker.  Every clock reading, POST result and concurrent ring reader is an input of the
 * step; `History` records what happened and is never read by the steps.
 */
module CatchupSpec {
  import opened Common
  import opened Subsequences
  import opened RingSpec
  import opened UplinkSpec

  /** A configuration sync that kept `keep`, done when `at` POSTs had started. */
  datatype SyncMark = SyncMark(at: nat, keep: set<string>)

  /**
   * The fate of every request the ring accepted.  `answered` lists delivered and rejected requests
   * together, in the order their catch-up POSTs completed.
   */
  datatype History = History(
    posts: seq<Post>,
    syncs: seq<SyncMark>,
    accepted: seq<Request>,
    answered: seq<Request>,
    delivered: seq<Request>,
    rejected: seq<Request>,
    aged: seq<Request>,
    overflowed: seq<Request>,
    removed: seq<Request>)

  datatype Weather = Weather(items: seq<Request>, breaker: Breaker, lastPost: map<string, int>, h: History)

  function Init(): Weather {
    Weather([], NewBreaker(), map[], History([], [], [], [], [], [], [], [], []))
  }

  // ----- ring operations

  function PruneAt(w: Weather, now: int): Weather {
    w.(items := Prune(w.items, now), h := w.h.(aged := w.h.aged + Refuse(Fresh(now), w.items)))
  }

  /** Other goroutines reading the ring's length, one prune each. */
  function Prunes(w: Weather, lens: seq<int>): Weather {
    if lens == [] then w else PruneAt(Prunes(w, lens[..|lens|-1]), lens[|lens|-1])
  }

  function TrimRing(w: Weather): Weather {
    w.(items := Trim(w.items), h := w.h.(overflowed := w.h.overflowed + w.items[..Excess(w.items)]))
  }

  function PushAt(w: Weather, r: Request, now: int): Weather {
    var p := PruneAt(w, now);
    if !Retain(r, now) then p
    else TrimRing(p.(items := p.items + [r], h := p.h.(accepted := p.h.accepted + [r])))
  }

  function PushFrontAt(w: Weather, reqs: seq<Request>, now: int): Weather {
    if reqs == [] then w else TrimRing(PruneAt(w.(items := reqs + w.items), now))
  }

  // ----- posting

  /**
   * The inputs of one attempt: the breaker is asked at `gateAt`; the POST runs from `startAt` to
   * `stampAt` and ends in `error`; a transient failure is noted at `noteAt`; whatever goes back to
   * the ring goes back at `backAt`; `lens` are the concurrent ring readers' clock readings.
   */
  datatype PostInput = PostInput(gateAt: int, startAt: int, stampAt: int, noteAt: int, backAt: int,
                                 error: Option<PostError>, lens: seq<int>)

  type Script = nat -> PostInput

  datatype FlushInput = FlushInput(configured: bool, probeAt: int, popAt: int, script: Script)

  function OutcomeOf(inp: PostInput): Outcome {
    if inp.error.None? then Delivered else Handled(inp.error.value)
  }

  function PostOf(r: Request, catchup: bool, inp: PostInput): Post {
    Post(r.source, catchup, inp.gateAt, inp.startAt, inp.stampAt, inp.noteAt, OutcomeOf(inp))
  }

  /** Whether a catch-up POST settled its request for good. */
  predicate Settles(o: Outcome) {
    o == Delivered || o == Permanent
  }

  function Settle(h: History, r: Request, o: Outcome): History {
    match o
    case Delivered => h.(answered := h.answered + [r], delivered := h.delivered + [r])
    case Permanent => h.(answered := h.answered + [r], rejected := h.rejected + [r])
    case Transient => h
    case Canceled => h
  }

  /** One granted POST. */
  function PostOne(w: Weather, r: Request, catchup: bool, inp: PostInput): Weather {
    var p := PostOf(r, catchup, inp);
    var h := w.h.(posts := w.h.posts + [p]);
    w.(breaker := AfterPost(AllowAttempt(w.breaker, inp.gateAt), p),
       lastPost := if catchup then w.lastPost[r.source := inp.stampAt] else w.lastPost,
       h := if catchup then Settle(h, r, p.outcome) else h)
  }

  /** The flush loop from the i-th popped request on. */
  function FlushFrom(w: Weather, ready: seq<Request>, script: Script, i: nat): Weather
    decreases |ready| - i
  {
    if i >= |ready| then w
    else
      var inp := script(i);
      var w1 := Prunes(w, inp.lens);
      if !ProbeDue(w1.breaker, inp.gateAt) then PushFrontAt(w1, ready[i..], inp.backAt)
      else
        var w2 := PostOne(w1, ready[i], true, inp);
        if Settles(OutcomeOf(inp)) then FlushFrom(w2, ready, script, i + 1)
        else PushFrontAt(w2, ready[i..], inp.backAt)
  }

  function Flush(w: Weather, f: FlushInput): Weather {
    if !f.configured || !ProbeDue(w.breaker, f.probeAt) then w
    else
      var w1 := PruneAt(w, f.popAt);
      var p := Pop(w1.items, w1.lastPost, f.popAt, MIN_INTERVAL);
      FlushFrom(w1.(items := p.kept), p.ready, f.script, 0)
  }

  /** A live observation: flush first, then post it or queue it. */
  function LivePost(w: Weather, r: Request, f: FlushInput, inp: PostInput): Weather {
    if !f.configured then w
    else
      var w1 := Prunes(Flush(w, f), inp.lens);
      if !ProbeDue(w1.breaker, inp.gateAt) then PushAt(w1, r, inp.backAt)
      else
        var w2 := PostOne(w1, r, false, inp);
        if OutcomeOf(inp) == Transient then PushAt(w2, r, inp.backAt) else w2
  }

  function Tick(w: Weather, lenAt: int, f: FlushInput, drainedAt: int): Weather {
    if !f.configured then w
    else
      var w1 := PruneAt(w, lenAt);
      if w1.items == [] then w1 else PruneAt(Flush(w1, f), drainedAt)
  }

  /** A configuration sync: queued requests and pacing stamps of removed stations go. */
  function Sync(w: Weather, keep: set<string>): Weather {
    w.(items := Select(Among(keep), w.items),
       lastPost := map s | s in w.lastPost && s in keep :: w.lastPost[s],
       h := w.h.(removed := w.h.removed + Refuse(Among(keep), w.items),
                 syncs := w.h.syncs + [SyncMark(|w.h.posts|, keep)]))
  }

  datatype Op =
    | DoLive(req: Request, flush: FlushInput, post: PostInput)
    | DoTick(lenAt: int, flush: FlushInput, drainedAt: int)
    | DoSync(keep: set<string>)
    | DoLen(now: int)

  function Step(w: Weather, op: Op): Weather {
    match op
    case DoLive(r, f, inp) => LivePost(w, r, f, inp)
    case DoTick(a, f, b) => Tick(w, a, f, b)
    case DoSync(keep) => Sync(w, keep)
    case DoLen(now) => PruneAt(w, now)
  }

  function Run(ops: seq<Op>): Weather {
    if ops == [] then Init() else Step(Run(ops[..|ops|-1]), ops[|ops|-1])
  }

  // ----- within one step the clock does not go back

  predicate InputOrdered(inp: PostInput) {
    inp.gateAt <= inp.startAt <= inp.stampAt <= inp.noteAt
  }

  ghost predicate FlushOrdered(f: FlushInput) {
    forall i: nat :: f.popAt <= f.script(i).gateAt && InputOrdered(f.script(i))
  }

  ghost predicate OpOrdered(op: Op) {
    match op
    case DoLive(_, f, inp) => FlushOrdered(f) && InputOrdered(inp)
    case DoTick(_, f, _) => FlushOrdered(f)
    case DoSync(_) => true
    case DoLen(_) => true
  }

  ghost predicate Clocked(ops: seq<Op>) {
    forall i :: 0 <= i < |ops| ==> OpOrdered(ops[i])
  }

  // ----- invariants; `hand` is the part of a batch that is out of the ring and not yet settled

  /** What was dropped unanswered: by age, by the soft cap, or with its station. */
  ghost function Dropped(h: History): multiset<Request> {
    multiset(h.aged) + multiset(h.overflowed) + multiset(h.removed)
  }

  ghost predicate Conserved(w: Weather, hand: seq<Request>) {
    && multiset(w.h.accepted) == multiset(hand) + multiset(w.items) + multiset(w.h.answered) + Dropped(w.h)
    && multiset(w.h.answered) == multiset(w.h.delivered) + multiset(w.h.rejected)
  }

  ghost predicate SourceInOrder(w: Weather, hand: seq<Request>, source: string) {
    Sub(Of(source, w.h.answered) + (Of(source, hand) + Of(source, w.items)), Of(source, w.h.accepted))
  }

  ghost predicate InOrder(w: Weather, hand: seq<Request>) {
    forall source :: SourceInOrder(w, hand, source)
  }

  predicate Capped(w: Weather, hand: seq<Request>) {
    |hand| + |w.items| <= SOFT_MAX
  }

  ghost predicate BreakerExact(w: Weather) {
    w.breaker == BreakerOf(w.h.posts) && Gated(w.h.posts)
  }

  /** The source stayed configured between POST `i` and POST `j`. */
  ghost predicate Unbroken(syncs: seq<SyncMark>, source: string, i: int, j: int) {
    forall m :: m in syncs && i < m.at <= j ==> source in m.keep
  }

  ghost predicate Paced(h: History) {
    forall i, j :: 0 <= i < j < |h.posts| && h.posts[i].catchup && h.posts[j].catchup
                   && h.posts[i].source == h.posts[j].source && Unbroken(h.syncs, h.posts[i].source, i, j)
                   ==> h.posts[j].startAt >= h.posts[i].stampAt + MIN_INTERVAL
  }

  ghost predicate Remembered(w: Weather) {
    && (forall m :: m in w.h.syncs ==> m.at <= |w.h.posts|)
    && (forall i :: 0 <= i < |w.h.posts| && w.h.posts[i].catchup
                    && Unbroken(w.h.syncs, w.h.posts[i].source, i, |w.h.posts|)
                    ==> w.h.posts[i].source in w.lastPost
                        && w.lastPost[w.h.posts[i].source] >= w.h.posts[i].stampAt)
  }

  /** What needs a clock that does not go back within one operation. */
  ghost predicate OnTime(w: Weather) {
    Timed(w.h.posts) && Paced(w.h) && Remembered(w)
  }

  /** The last part only holds when the clock readings so far were `clocked`. */
  ghost predicate Inv(w: Weather, hand: seq<Request>, clocked: bool) {
    Conserved(w, hand) && InOrder(w, hand) && Capped(w, hand) && BreakerExact(w) && (clocked ==> OnTime(w))
  }

  // ----- ring operations keep the invariants

  /** Shrinking the ring to a subsequence keeps every source's order. */
  lemma ShrinkKeepsOrder(w: Weather, w': Weather, hand: seq<Request>)
    requires InOrder(w, hand)
    requires Sub(w'.items, w.items)
    requires w'.h.answered == w.h.answered && w'.h.accepted == w.h.accepted
    ensures InOrder(w', hand)
  {
    forall source ensures SourceInOrder(w', hand, source) {
      assert SourceInOrder(w, hand, source);
      SelectMonotone(From(source), w'.items, w.items);
      var p := Of(source, w.h.answered) + Of(source, hand);
      SubPrefix(p, Of(source, w'.items), Of(source, w.items));
      assert Of(source, w.h.answered) + (Of(source, hand) + Of(source, w.items)) == p + Of(source, w.items);
      assert Of(source, w.h.answered) + (Of(source, hand) + Of(source, w'.items)) == p + Of(source, w'.items);
      SubTrans(p + Of(source, w'.items), p + Of(source, w.items), Of(source, w.h.accepted));
    }
  }

  lemma PruneKeeps(w: Weather, hand: seq<Request>, now: int, clocked: bool)
    requires Inv(w, hand, clocked)
    ensures Inv(PruneAt(w, now), hand, clocked)
  {
    SelectSplits(Fresh(now), w.items);
    SelectIsSub(Fresh(now), w.items);
    ShrinkKeepsOrder(w, PruneAt(w, now), hand);
  }

  lemma {:induction false} PrunesKeep(w: Weather, hand: seq<Request>, lens: seq<int>, clocked: bool)
    requires Inv(w, hand, clocked)
    ensures var w' := Prunes(w, lens);
            && Inv(w', hand, clocked) && w'.breaker == w.breaker && w'.lastPost == w.lastPost
            && w'.h.overflowed == w.h.overflowed
  {
    if lens != [] {
      PrunesKeep(w, hand, lens[..|lens|-1], clocked);
      PruneKeeps(Prunes(w, lens[..|lens|-1]), hand, lens[|lens|-1], clocked);
    }
  }

  /** Taking a batch out of the ring or putting it back only moves requests between ring and hand. */
  lemma MoveKeeps(w: Weather, w': Weather, hand: seq<Request>, hand': seq<Request>, clocked: bool)
    requires Inv(w, hand, clocked)
    requires w' == w.(items := w'.items)
    requires multiset(hand') + multiset(w'.items) == multiset(hand) + multiset(w.items)
    requires |hand'| + |w'.items| == |hand| + |w.items|
    requires forall source :: Of(source, hand') + Of(source, w'.items) == Of(source, hand) + Of(source, w.items)
    ensures Inv(w', hand', clocked)
  {
    forall source ensures SourceInOrder(w', hand', source) {
      assert SourceInOrder(w, hand, source);
    }
  }

  /** A request joins the back of the ring. */
  lemma AcceptKeepsOrder(p: Weather, q: Weather, r: Request, source: string)
    requires SourceInOrder(p, [], source)
    requires q.items == p.items + [r] && q.h.accepted == p.h.accepted + [r] && q.h.answered == p.h.answered
    ensures SourceInOrder(q, [], source)
  {
    SelectLast(From(source), p.items, r);
    SelectLast(From(source), p.h.accepted, r);
    if r.source == source {
      SubAppends(Of(source, p.h.answered), Of(source, []), Of(source, p.items), Of(source, p.h.accepted), r);
    }
  }

  lemma SubAppends(a: seq<Request>, b: seq<Request>, items: seq<Request>, accepted: seq<Request>, r: Request)
    requires Sub(a + (b + items), accepted)
    ensures Sub(a + (b + (items + [r])), accepted + [r])
  {
    SubGrow(a + (b + items), accepted, r);
    assert a + (b + (items + [r])) == a + (b + items) + [r];
  }

  /** The soft cap drops from the front. */
  lemma TrimKeeps(q: Weather, clocked: bool)
    requires Conserved(q, []) && InOrder(q, []) && BreakerExact(q) && (clocked ==> OnTime(q))
    ensures Inv(TrimRing(q), [], clocked)
  {
    var t := TrimRing(q);
    assert q.items == q.items[..Excess(q.items)] + t.items;
    SubDrop(q.items, Excess(q.items));
    ShrinkKeepsOrder(q, t, []);
  }

  function Accept(p: Weather, r: Request): Weather {
    p.(items := p.items + [r], h := p.h.(accepted := p.h.accepted + [r]))
  }

  lemma AcceptKeepsBooks(p: Weather, r: Request)
    requires Conserved(p, []) && InOrder(p, [])
    ensures Conserved(Accept(p, r), []) && InOrder(Accept(p, r), [])
  {
    forall source ensures SourceInOrder(Accept(p, r), [], source) {
      assert SourceInOrder(p, [], source);
      AcceptKeepsOrder(p, Accept(p, r), r, source);
    }
  }

  lemma PushKeeps(w: Weather, r: Request, now: int, clocked: bool)
    requires Inv(w, [], clocked)
    ensures Inv(PushAt(w, r, now), [], clocked)
  {
    PruneKeeps(w, [], now, clocked);
    if Retain(r, now) {
      AcceptKeepsBooks(PruneAt(w, now), r);
      TrimKeeps(Accept(PruneAt(w, now), r), clocked);
    }
  }

  /** A batch going back never overflows the ring it came from. */
  lemma PushFrontKeeps(w: Weather, hand: seq<Request>, now: int, clocked: bool)
    requires Inv(w, hand, clocked)
    ensures Inv(PushFrontAt(w, hand, now), [], clocked)
    ensures PushFrontAt(w, hand, now).h.overflowed == w.h.overflowed
  {
    var q := w.(items := hand + w.items);
    forall source ensures Of(source, []) + Of(source, q.items) == Of(source, hand) + Of(source, w.items) {
      SelectConcat(From(source), hand, w.items);
    }
    MoveKeeps(w, q, hand, [], clocked);
    if hand == [] {
      assert q.items == w.items;
    } else {
      PruneKeeps(q, [], now, clocked);
      SelectSplits(Fresh(now), q.items);
      var p := PruneAt(q, now);
      assert Excess(p.items) == 0;
      assert p.items[0..] == p.items && p.items[..0] == [];
      assert TrimRing(p) == p;
    }
  }

  lemma SyncKeepsPace(w: Weather, keep: set<string>)
    requires Paced(w.h) && Remembered(w)
    ensures Paced(Sync(w, keep).h) && Remembered(Sync(w, keep))
  {
    var w' := Sync(w, keep);
    assert SyncMark(|w.h.posts|, keep) in w'.h.syncs;
    assert forall m :: m in w.h.syncs ==> m in w'.h.syncs;
  }

  lemma SyncKeeps(w: Weather, keep: set<string>, clocked: bool)
    requires Inv(w, [], clocked)
    ensures Inv(Sync(w, keep), [], clocked)
  {
    SelectSplits(Among(keep), w.items);
    SelectIsSub(Among(keep), w.items);
    ShrinkKeepsOrder(w, Sync(w, keep), []);
    if clocked {
      SyncKeepsPace(w, keep);
    }
  }

  // ----- a POST keeps the invariants

  lemma PostKeepsBreaker(w: Weather, r: Request, catchup: bool, inp: PostInput)
    requires BreakerExact(w) && ProbeDue(w.breaker, inp.gateAt)
    ensures BreakerExact(PostOne(w, r, catchup, inp))
  {
    var p := PostOf(r, catchup, inp);
    BreakerFollowsPosts(w.h.posts, p);
    GatedGrows(w.h.posts, p);
  }

  lemma PostKeepsPace(w: Weather, r: Request, catchup: bool, inp: PostInput)
    requires OnTime(w) && InputOrdered(inp)
    requires catchup ==> Due(w.lastPost, r.source, inp.gateAt, MIN_INTERVAL)
    ensures OnTime(PostOne(w, r, catchup, inp))
  {
    var w' := PostOne(w, r, catchup, inp);
    var n := |w.h.posts|;
    assert w'.h.syncs == w.h.syncs && w'.h.posts == w.h.posts + [PostOf(r, catchup, inp)];
    forall i, j | 0 <= i < j < |w'.h.posts| && w'.h.posts[i].catchup && w'.h.posts[j].catchup
                  && w'.h.posts[i].source == w'.h.posts[j].source
                  && Unbroken(w'.h.syncs, w'.h.posts[i].source, i, j)
      ensures w'.h.posts[j].startAt >= w'.h.posts[i].stampAt + MIN_INTERVAL
    {
      assert w'.h.posts[i] == w.h.posts[i];
      if j < n {
        assert w'.h.posts[j] == w.h.posts[j];
      }
    }
    forall i | 0 <= i < |w'.h.posts| && w'.h.posts[i].catchup
               && Unbroken(w'.h.syncs, w'.h.posts[i].source, i, |w'.h.posts|)
      ensures w'.h.posts[i].source in w'.lastPost
              && w'.lastPost[w'.h.posts[i].source] >= w'.h.posts[i].stampAt
    {
      if i < n {
        assert w'.h.posts[i] == w.h.posts[i];
        assert Unbroken(w.h.syncs, w.h.posts[i].source, i, n);
      }
    }
  }

  lemma CatchupPostKeepsOrder(w: Weather, hand: seq<Request>, inp: PostInput, source: string)
    requires hand != [] && SourceInOrder(w, hand, source) && Settles(OutcomeOf(inp))
    ensures SourceInOrder(PostOne(w, hand[0], true, inp), hand[1..], source)
  {
    assert hand == [hand[0]] + hand[1..];
    SelectConcat(From(source), [hand[0]], hand[1..]);
    SelectConcat(From(source), w.h.answered, [hand[0]]);
    var a, x, y, z := Of(source, w.h.answered), Of(source, [hand[0]]), Of(source, hand[1..]), Of(source, w.items);
    Regroup(a, x, y, z);
  }

  lemma Regroup(a: seq<Request>, x: seq<Request>, y: seq<Request>, z: seq<Request>)
    ensures (a + x) + (y + z) == a + ((x + y) + z)
  {
  }

  lemma CatchupPostKeepsLedger(w: Weather, hand: seq<Request>, inp: PostInput)
    requires hand != [] && Conserved(w, hand) && Capped(w, hand)
    ensures var w' := PostOne(w, hand[0], true, inp);
            var hand' := if Settles(OutcomeOf(inp)) then hand[1..] else hand;
            Conserved(w', hand') && Capped(w', hand')
  {
    assert hand == [hand[0]] + hand[1..];
    assert multiset(hand) == multiset{hand[0]} + multiset(hand[1..]);
    assert Dropped(PostOne(w, hand[0], true, inp).h) == Dropped(w.h);
  }

  /** The batch still out: distinct sources, all due when they were popped. */
  ghost predicate BatchDue(w: Weather, hand: seq<Request>, popAt: int) {
    && (forall i, j :: 0 <= i < j < |hand| ==> hand[i].source != hand[j].source)
    && (forall i :: 0 <= i < |hand| ==> Due(w.lastPost, hand[i].source, popAt, MIN_INTERVAL))
  }

  lemma CatchupPostKeepsOrders(w: Weather, hand: seq<Request>, inp: PostInput)
    requires hand != [] && InOrder(w, hand)
    ensures InOrder(PostOne(w, hand[0], true, inp), if Settles(OutcomeOf(inp)) then hand[1..] else hand)
  {
    var w' := PostOne(w, hand[0], true, inp);
    var hand' := if Settles(OutcomeOf(inp)) then hand[1..] else hand;
    forall source ensures SourceInOrder(w', hand', source) {
      assert SourceInOrder(w, hand, source);
      if Settles(OutcomeOf(inp)) {
        CatchupPostKeepsOrder(w, hand, inp, source);
      }
    }
  }

  lemma BatchStaysDue(w: Weather, hand: seq<Request>, inp: PostInput, popAt: int)
    requires hand != [] && BatchDue(w, hand, popAt)
    ensures BatchDue(PostOne(w, hand[0], true, inp), hand[1..], popAt)
  {
    assert forall i :: 0 <= i < |hand[1..]| ==> hand[1..][i] == hand[i+1];
  }

  /** One catch-up POST keeps every invariant, with its request settled or still in hand. */
  lemma CatchupPostKeeps(w: Weather, hand: seq<Request>, inp: PostInput, popAt: int, clocked: bool)
    requires hand != [] && Inv(w, hand, clocked) && BatchDue(w, hand, popAt)
    requires ProbeDue(w.breaker, inp.gateAt) && (clocked ==> popAt <= inp.gateAt && InputOrdered(inp))
    ensures Inv(PostOne(w, hand[0], true, inp), if Settles(OutcomeOf(inp)) then hand[1..] else hand, clocked)
  {
    PostKeepsBreaker(w, hand[0], true, inp);
    if clocked {
      PostKeepsPace(w, hand[0], true, inp);
    }
    CatchupPostKeepsLedger(w, hand, inp);
    CatchupPostKeepsOrders(w, hand, inp);
  }

  lemma LivePostKeeps(w: Weather, r: Request, inp: PostInput, clocked: bool)
    requires Inv(w, [], clocked) && (clocked ==> InputOrdered(inp)) && ProbeDue(w.breaker, inp.gateAt)
    ensures Inv(PostOne(w, r, false, inp), [], clocked)
  {
    PostKeepsBreaker(w, r, false, inp);
    if clocked {
      PostKeepsPace(w, r, false, inp);
    }
    var w' := PostOne(w, r, false, inp);
    forall source ensures SourceInOrder(w', [], source) {
      assert SourceInOrder(w, [], source);
    }
  }

  /** One round of the flush loop: go on with a smaller batch, or put the whole rest back. */
  lemma {:induction false} FlushRoundKeeps(w: Weather, hand: seq<Request>, inp: PostInput, popAt: int, clocked: bool)
    requires hand != [] && Inv(w, hand, clocked) && BatchDue(w, hand, popAt)
    requires clocked ==> popAt <= inp.gateAt && InputOrdered(inp)
    ensures var w1 := Prunes(w, inp.lens);
            if !ProbeDue(w1.breaker, inp.gateAt)
            then GoesBack(w, PushFrontAt(w1, hand, inp.backAt), clocked)
            else
              var w2 := PostOne(w1, hand[0], true, inp);
              if Settles(OutcomeOf(inp))
              then Inv(w2, hand[1..], clocked) && BatchDue(w2, hand[1..], popAt) && w2.h.overflowed == w.h.overflowed
              else GoesBack(w, PushFrontAt(w2, hand, inp.backAt), clocked)
  {
    PrunesKeep(w, hand, inp.lens, clocked);
    var w1 := Prunes(w, inp.lens);
    if !ProbeDue(w1.breaker, inp.gateAt) {
      PushFrontKeeps(w1, hand, inp.backAt, clocked);
    } else {
      var w2 := PostOne(w1, hand[0], true, inp);
      CatchupPostKeeps(w1, hand, inp, popAt, clocked);
      BatchStaysDue(w1, hand, inp, popAt);
      if !Settles(OutcomeOf(inp)) {
        PushFrontKeeps(w2, hand, inp.backAt, clocked);
      }
    }
  }

  ghost predicate GoesBack(w: Weather, w': Weather, clocked: bool) {
    Inv(w', [], clocked) && w'.h.overflowed == w.h.overflowed
  }

  lemma {:induction false} FlushFromKeeps(w: Weather, ready: seq<Request>, f: FlushInput, i: nat, clocked: bool)
    requires i <= |ready| && Inv(w, ready[i..], clocked) && (clocked ==> FlushOrdered(f))
    requires BatchDue(w, ready[i..], f.popAt)
    ensures GoesBack(w, FlushFrom(w, ready, f.script, i), clocked)
    decreases |ready| - i
  {
    if i < |ready| {
      var inp := f.script(i);
      assert clocked ==> f.popAt <= inp.gateAt && InputOrdered(inp);
      FlushRoundKeeps(w, ready[i..], inp, f.popAt, clocked);
      assert ready[i..][1..] == ready[i+1..];
      var w1 := Prunes(w, inp.lens);
      if ProbeDue(w1.breaker, inp.gateAt) && Settles(OutcomeOf(inp)) {
        FlushFromKeeps(PostOne(w1, ready[i], true, inp), ready, f, i + 1, clocked);
      }
    } else {
      assert ready[i..] == [];
    }
  }

  /** A flush keeps every invariant and drops nothing for lack of room. */
  lemma FlushKeeps(w: Weather, f: FlushInput, clocked: bool)
    requires Inv(w, [], clocked) && (clocked ==> FlushOrdered(f))
    ensures Inv(Flush(w, f), [], clocked) && Flush(w, f).h.overflowed == w.h.overflowed
  {
    if f.configured && ProbeDue(w.breaker, f.probeAt) {
      var w1 := PruneAt(w, f.popAt);
      PruneKeeps(w, [], f.popAt, clocked);
      var p := Pop(w1.items, w1.lastPost, f.popAt, MIN_INTERVAL);
      PopSplits(w1.items, w1.lastPost, f.popAt, MIN_INTERVAL);
      var w2 := w1.(items := p.kept);
      forall source
        ensures Of(source, p.ready) + Of(source, w2.items) == Of(source, []) + Of(source, w1.items)
      {
        PopKeepsSourceOrder(w1.items, w1.lastPost, f.popAt, MIN_INTERVAL, source);
      }
      MoveKeeps(w1, w2, [], p.ready, clocked);
      assert p.ready[0..] == p.ready;
      FlushFromKeeps(w2, p.ready, f, 0, clocked);
    }
  }

  lemma StepKeeps(w: Weather, op: Op, clocked: bool)
    requires Inv(w, [], clocked) && (clocked ==> OpOrdered(op))
    ensures Inv(Step(w, op), [], clocked)
  {
    match op {
      case DoLive(r, f, inp) =>
        if f.configured {
          FlushKeeps(w, f, clocked);
          PrunesKeep(Flush(w, f), [], inp.lens, clocked);
          var w1 := Prunes(Flush(w, f), inp.lens);
          if !ProbeDue(w1.breaker, inp.gateAt) {
            PushKeeps(w1, r, inp.backAt, clocked);
          } else {
            LivePostKeeps(w1, r, inp, clocked);
            if OutcomeOf(inp) == Transient {
              PushKeeps(PostOne(w1, r, false, inp), r, inp.backAt, clocked);
            }
          }
        }
      case DoTick(a, f, b) =>
        if f.configured {
          PruneKeeps(w, [], a, clocked);
          if PruneAt(w, a).items != [] {
            FlushKeeps(PruneAt(w, a), f, clocked);
            PruneKeeps(Flush(PruneAt(w, a), f), [], b, clocked);
          }
        }
      case DoSync(keep) => SyncKeeps(w, keep, clocked);
      case DoLen(now) => PruneKeeps(w, [], now, clocked);
    }
  }

  lemma {:induction false} RunKeeps(ops: seq<Op>)
    ensures Inv(Run(ops), [], Clocked(ops))
  {
    if ops == [] {
      BackoffDoubles(0);
      forall source ensures SourceInOrder(Init(), [], source) {
      }
    } else {
      RunKeeps(ops[..|ops|-1]);
      StepKeeps(Run(ops[..|ops|-1]), ops[|ops|-1], Clocked(ops));
    }
  }

  // ----- what holds after every run, for any clock readings

  /**
   * Nothing is lost and nothing is duplicated: after any run, every accepted request is in exactly
   * one place, and the ring is within its cap.
   */
  lemma {:induction false} Conservation(ops: seq<Op>)
    ensures var w := Run(ops);
            && multiset(w.h.accepted) ==
               multiset(w.items) + multiset(w.h.delivered) + multiset(w.h.rejected)
               + multiset(w.h.aged) + multiset(w.h.overflowed) + multiset(w.h.removed)
            && |w.items| <= SOFT_MAX
  {
    RunKeeps(ops);
  }

  /**
   * For every source, what catch-up settled followed by what is still queued is a subsequence of
   * what was accepted: catch-up POSTs of one source complete in push order, whatever else failed.
   */
  lemma {:induction false} CatchupOrder(ops: seq<Op>, source: string)
    ensures var w := Run(ops);
            && Sub(Of(source, w.h.answered) + Of(source, w.items), Of(source, w.h.accepted))
            && multiset(w.h.answered) == multiset(w.h.delivered) + multiset(w.h.rejected)
  {
    RunKeeps(ops);
    var w := Run(ops);
    assert SourceInOrder(w, [], source);
    assert Of(source, []) + Of(source, w.items) == Of(source, w.items);
  }

  /** No flush, in any reachable state, costs a request its place to the soft cap. */
  lemma {:induction false} FlushNeverOverflows(ops: seq<Op>, f: FlushInput)
    ensures Flush(Run(ops), f).h.overflowed == Run(ops).h.overflowed
  {
    RunKeeps(ops);
    FlushKeeps(Run(ops), f, false);
  }

  /** In every reachable state the breaker is open exactly from the second failure on; its backoff in closed form. */
  lemma {:induction false} BreakerShape(ops: seq<Op>)
    ensures var b := Run(ops).breaker;
            && b.failures == FailuresIn(Run(ops).h.posts)
            && (b.open <==> b.failures >= 2)
            && (b.open <==> b.openUntil.Some?)
            && b.backoff == Backoff(b.failures)
  {
    RunKeeps(ops);
  }

  // ----- what needs a clock that does not go back within one operation

  /** Two catch-up POSTs of a source that stayed configured start a full interval apart. */
  lemma {:induction false} CatchupPacing(ops: seq<Op>, i: nat, j: nat)
    requires Clocked(ops)
    requires i < j < |Run(ops).h.posts|
    requires Run(ops).h.posts[i].catchup && Run(ops).h.posts[j].catchup
    requires Run(ops).h.posts[i].source == Run(ops).h.posts[j].source
    requires Unbroken(Run(ops).h.syncs, Run(ops).h.posts[i].source, i, j)
    ensures Run(ops).h.posts[j].startAt >= Run(ops).h.posts[i].startAt + MIN_INTERVAL
  {
    RunKeeps(ops);
    assert Ordered(Run(ops).h.posts[i]);
  }

  /** While every attempt fails transiently, few POSTs of any kind start after the breaker opens. */
  lemma OutageLimitsPosts(ops: seq<Op>, i: nat, k: nat, d: nat)
    requires Clocked(ops) && k >= 1 && Outage(Run(ops).h.posts, i, k)
    requires Run(ops).h.posts[i+k].startAt <= Run(ops).h.posts[i].noteAt + d * SECOND
    ensures k <= (d + 165) / 60
  {
    RunKeeps(ops);
    OutageBound(Run(ops).h.posts, i, k, d);
  }

  /** And few while none is delivered, whether the others fail transiently, for good, or are canceled. */
  lemma {:induction false} UndeliveredLimitsPosts(ops: seq<Op>, i: nat, k: nat, d: nat)
    requires Clocked(ops) && k >= 1 && Undelivered(Run(ops).h.posts, i, k)
    requires Run(ops).h.posts[i+k].startAt <= Run(ops).h.posts[i].noteAt + d * SECOND
    ensures k <= (d + 5) / 10
  {
    RunKeeps(ops);
    UndeliveredBound(Run(ops).h.posts, i, k, d);
  }

  // ----- what gets posted, and what gets queued

  lemma {:induction false} PrunesKeepRest(w: Weather, lens: seq<int>)
    ensures var w' := Prunes(w, lens);
            && w'.breaker == w.breaker && w'.lastPost == w.lastPost
            && w'.h == w.h.(aged := w'.h.aged)
  {
    if lens != [] {
      PrunesKeepRest(w, lens[..|lens|-1]);
    }
  }

  lemma {:induction false} FlushAcceptsNothing(w: Weather, ready: seq<Request>, script: Script, i: nat)
    ensures FlushFrom(w, ready, script, i).h.accepted == w.h.accepted
    decreases |ready| - i
  {
    if i < |ready| {
      PrunesKeepRest(w, script(i).lens);
      var w1 := Prunes(w, script(i).lens);
      FlushAcceptsNothing(PostOne(w1, ready[i], true, script(i)), ready, script, i + 1);
    }
  }

  /**
   * The fate of a live observation: it is queued, at the back, exactly when the breaker refused it
   * or its POST failed transiently, and its station time is still good; a delivered, permanently
   * rejected or canceled one never enters the ring.
   */
  lemma LiveFate(w: Weather, r: Request, f: FlushInput, inp: PostInput)
    requires f.configured
    ensures var w' := LivePost(w, r, f, inp);
            var held := !ProbeDue(Flush(w, f).breaker, inp.gateAt) || OutcomeOf(inp) == Transient;
            var queued := held && Retain(r, inp.backAt);
            && w'.h.accepted == w.h.accepted + (if queued then [r] else [])
            && (queued ==> w'.items != [] && w'.items[|w'.items|-1] == r)
  {
    var p := Pop(PruneAt(w, f.popAt).items, w.lastPost, f.popAt, MIN_INTERVAL);
    FlushAcceptsNothing(PruneAt(w, f.popAt).(items := p.kept), p.ready, f.script, 0);
    PrunesKeepRest(Flush(w, f), inp.lens);
  }

  lemma {:induction false} FlushFromDelivers(w: Weather, ready: seq<Request>, script: Script, i: nat)
    requires i <= |ready| && forall j: nat :: OutcomeOf(script(j)) == Delivered
    requires i < |ready| ==> ProbeDue(w.breaker, script(i).gateAt)
    ensures FlushFrom(w, ready, script, i).h.delivered == w.h.delivered + ready[i..]
    decreases |ready| - i
  {
    if i < |ready| {
      PrunesKeepRest(w, script(i).lens);
      var w1 := Prunes(w, script(i).lens);
      assert OutcomeOf(script(i)) == Delivered;
      FlushFromDelivers(PostOne(w1, ready[i], true, script(i)), ready, script, i + 1);
      assert ready[i..] == [ready[i]] + ready[i+1..];
    }
  }

  /** When POSTs succeed, one flush delivers the oldest good request of every due source, and no more. */
  lemma {:induction false} FlushServesEverySource(w: Weather, f: FlushInput, source: string)
    requires f.configured && ProbeDue(w.breaker, f.probeAt) && ProbeDue(w.breaker, f.script(0).gateAt)
    requires forall j: nat :: OutcomeOf(f.script(j)) == Delivered
    ensures var queued := Of(source, Prune(w.items, f.popAt));
            Of(source, Flush(w, f).h.delivered) ==
            Of(source, w.h.delivered)
            + (if queued != [] && Due(w.lastPost, source, f.popAt, MIN_INTERVAL) then [queued[0]] else [])
  {
    var w1 := PruneAt(w, f.popAt);
    var p := Pop(w1.items, w1.lastPost, f.popAt, MIN_INTERVAL);
    FlushFromDelivers(w1.(items := p.kept), p.ready, f.script, 0);
    assert p.ready[0..] == p.ready;
    PopKeepsSourceOrder(w1.items, w1.lastPost, f.popAt, MIN_INTERVAL, source);
    SelectConcat(From(source), w.h.delivered, p.ready);
    assert |Of(source, p.ready)| == 1 ==> Of(source, p.ready) == [Of(source, p.ready)[0]];
    assert Of(source, p.ready) != [] ==> Of(source, w1.items)[0] == Of(source, p.ready)[0];
  }
}

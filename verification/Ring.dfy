/**
 * The outbound ring of failed weather POSTs: an in-memory FIFO, pruned by station time and
 * trimmed by a soft cap.  Time is counted in nanoseconds; a station time of None is Go's zero time.
 */
module RingSpec {
  import opened Common
  import opened Subsequences

  const SECOND := 1_000_000_000
  const MAX_AGE := 600 * SECOND
  const FUTURE_SKEW := 60 * SECOND
  const MIN_INTERVAL := SECOND
  const SOFT_MAX := (MAX_AGE / MIN_INTERVAL) * 2

  datatype Request = Request(source: string, provider: string, payload: string, observedAt: Option<int>)

  /** Whether a station time is recent enough, and not too far ahead, to be worth keeping at `now`. */
  predicate Retain(r: Request, now: int) {
    r.observedAt.Some? && now - MAX_AGE <= r.observedAt.value <= now + FUTURE_SKEW
  }

  /** The three filters the ring is put through. */
  datatype Test = Fresh(now: int) | Among(keep: set<string>) | From(source: string)

  predicate Passes(t: Test, r: Request) {
    match t
    case Fresh(now) => Retain(r, now)
    case Among(keep) => r.source in keep
    case From(source) => r.source == source
  }

  function Select(t: Test, s: seq<Request>): seq<Request> {
    if s == [] then []
    else
      var last := s[|s|-1];
      if Passes(t, last) then Select(t, s[..|s|-1]) + [last] else Select(t, s[..|s|-1])
  }

  /** What a filter throws away. */
  function Refuse(t: Test, s: seq<Request>): seq<Request> {
    if s == [] then []
    else
      var last := s[|s|-1];
      if Passes(t, last) then Refuse(t, s[..|s|-1]) else Refuse(t, s[..|s|-1]) + [last]
  }

  function Prune(s: seq<Request>, now: int): seq<Request> {
    Select(Fresh(now), s)
  }

  /** One source's requests, in queue order. */
  function Of(source: string, s: seq<Request>): seq<Request> {
    Select(From(source), s)
  }

  function Excess(s: seq<Request>): nat {
    if |s| <= SOFT_MAX then 0 else |s| - SOFT_MAX
  }

  function Trim(s: seq<Request>): seq<Request> {
    s[Excess(s)..]
  }

  predicate Due(due: map<string, int>, source: string, now: int, minInterval: int) {
    source in due ==> now - due[source] >= minInterval
  }

  datatype Popped = Popped(ready: seq<Request>, kept: seq<Request>)

  function Sources(s: seq<Request>): set<string> {
    set r | r in s :: r.source
  }

  /** At most one due request per source leaves the queue: the first of that source. */
  function Pop(s: seq<Request>, due: map<string, int>, now: int, minInterval: int): Popped {
    if s == [] then Popped([], [])
    else
      var p := Pop(s[..|s|-1], due, now, minInterval);
      var last := s[|s|-1];
      if last.source in Sources(p.ready) || !Due(due, last.source, now, minInterval)
      then p.(kept := p.kept + [last])
      else p.(ready := p.ready + [last])
  }

  // ----- filters

  lemma {:induction false} SelectConcat(t: Test, a: seq<Request>, b: seq<Request>)
    ensures Select(t, a + b) == Select(t, a) + Select(t, b)
    decreases |b|
  {
    if b == [] {
      assert a + b == a;
    } else {
      assert (a + b)[..|a + b|-1] == a + b[..|b|-1];
      SelectConcat(t, a, b[..|b|-1]);
    }
  }

  /** One element more on either side of a split. */
  lemma SplitGrows(a: seq<Request>, b: seq<Request>, s: seq<Request>, last: Request)
    requires multiset(a) + multiset(b) == multiset(s)
    ensures multiset(a + [last]) + multiset(b) == multiset(s + [last])
    ensures multiset(a) + multiset(b + [last]) == multiset(s + [last])
  {
  }

  /** A filter splits its input: nothing is lost and nothing is duplicated. */
  lemma {:induction false} SelectSplits(t: Test, s: seq<Request>)
    ensures multiset(Select(t, s)) + multiset(Refuse(t, s)) == multiset(s)
    ensures |Select(t, s)| + |Refuse(t, s)| == |s|
  {
    if s != [] {
      var s', last := s[..|s|-1], s[|s|-1];
      SelectSplits(t, s');
      SplitGrows(Select(t, s'), Refuse(t, s'), s', last);
      assert s == s' + [last];
    }
  }

  lemma {:induction false} SelectIsSub(t: Test, s: seq<Request>)
    ensures Sub(Select(t, s), s)
  {
    if s != [] {
      var s', last := s[..|s|-1], s[|s|-1];
      SelectIsSub(t, s');
      assert s == s' + [last];
      SubGrow(Select(t, s'), s', last);
    }
  }

  lemma {:induction false} SelectMembers(t: Test, s: seq<Request>)
    ensures forall r :: r in Select(t, s) <==> r in s && Passes(t, r)
    ensures forall r :: r in Refuse(t, s) <==> r in s && !Passes(t, r)
  {
    if s != [] {
      var s', last := s[..|s|-1], s[|s|-1];
      SelectMembers(t, s');
      assert forall r :: r in s <==> r in s' || r == last by { assert s == s' + [last]; }
    }
  }

  lemma {:induction false} SelectMonotone(t: Test, a: seq<Request>, b: seq<Request>)
    requires Sub(a, b)
    ensures Sub(Select(t, a), Select(t, b))
    decreases |b|
  {
    if a != [] {
      var b', x := b[..|b|-1], b[|b|-1];
      if a[|a|-1] == x && Sub(a[..|a|-1], b') {
        SelectMonotone(t, a[..|a|-1], b');
        SubGrow(Select(t, a[..|a|-1]), Select(t, b'), x);
      } else {
        SelectMonotone(t, a, b');
        SubGrow(Select(t, a), Select(t, b'), x);
      }
    }
  }

  lemma {:induction false} SubDrop(s: seq<Request>, k: nat)
    requires k <= |s|
    ensures Sub(s[k..], s)
  {
    if k < |s| {
      var s', x := s[..|s|-1], s[|s|-1];
      SubDrop(s', k);
      assert s == s' + [x] && s[k..] == s'[k..] + [x];
      SubGrow(s'[k..], s', x);
    }
  }

  // ----- popping

  lemma PopNext(s: seq<Request>, i: nat, due: map<string, int>, now: int, minInterval: int)
    requires i < |s|
    ensures var p := Pop(s[..i], due, now, minInterval);
            Pop(s[..i+1], due, now, minInterval) ==
            if s[i].source in Sources(p.ready) || !Due(due, s[i].source, now, minInterval)
            then p.(kept := p.kept + [s[i]])
            else p.(ready := p.ready + [s[i]])
  {
    assert s[..i+1][..i] == s[..i];
  }

  /** What one pop promises about the queue it leaves and the batch it hands out. */
  ghost predicate PopSplit(s: seq<Request>, p: Popped, due: map<string, int>, now: int, minInterval: int) {
    && multiset(p.ready) + multiset(p.kept) == multiset(s)
    && |p.ready| + |p.kept| == |s|
    && (forall i, j :: 0 <= i < j < |p.ready| ==> p.ready[i].source != p.ready[j].source)
    && (forall i :: 0 <= i < |p.ready| ==> Due(due, p.ready[i].source, now, minInterval))
  }

  lemma {:induction false} PopSplits(s: seq<Request>, due: map<string, int>, now: int, minInterval: int)
    ensures PopSplit(s, Pop(s, due, now, minInterval), due, now, minInterval)
  {
    if s != [] {
      var s', last := s[..|s|-1], s[|s|-1];
      PopSplits(s', due, now, minInterval);
      assert s == s' + [last];
      var p := Pop(s', due, now, minInterval);
      SplitGrows(p.ready, p.kept, s', last);
      if !(last.source in Sources(p.ready) || !Due(due, last.source, now, minInterval)) {
        forall i | 0 <= i < |p.ready| ensures p.ready[i].source != last.source {
          assert p.ready[i] in p.ready;
        }
      }
    }
  }

  lemma SourcesGrow(s: seq<Request>, last: Request)
    ensures Sources(s + [last]) == Sources(s) + {last.source}
  {
    forall x | x in Sources(s) + {last.source} ensures x in Sources(s + [last]) {
      if x in Sources(s) {
        var r :| r in s && r.source == x;
        assert r in s + [last];
      } else {
        assert last in s + [last];
      }
    }
  }

  lemma SelectLast(t: Test, s: seq<Request>, last: Request)
    ensures Select(t, s + [last]) == Select(t, s) + (if Passes(t, last) then [last] else [])
  {
    assert (s + [last])[..|s|] == s;
  }

  /** How a pop treats one source: whether it is served, and that only its oldest request leaves. */
  ghost predicate ServedInOrder(
      queued: seq<Request>, ready: seq<Request>, kept: seq<Request>, served: bool, due: bool) {
    && ready + kept == queued
    && (served <==> due && queued != [])
    && |ready| == (if served then 1 else 0)
  }

  lemma KeptStep(s: seq<Request>, ready: seq<Request>, kept: seq<Request>, last: Request, source: string, due: bool)
    requires ServedInOrder(Of(source, s), Of(source, ready), Of(source, kept), source in Sources(ready), due)
    requires last.source == source ==> source in Sources(ready) || !due
    ensures ServedInOrder(Of(source, s + [last]), Of(source, ready), Of(source, kept + [last]),
                          source in Sources(ready), due)
  {
    SelectLast(From(source), s, last);
    SelectLast(From(source), kept, last);
    var r, k := Of(source, ready), Of(source, kept);
    assert r + (k + [last]) == (r + k) + [last];
  }

  lemma TakenStep(s: seq<Request>, ready: seq<Request>, kept: seq<Request>, last: Request, source: string, due: bool)
    requires ServedInOrder(Of(source, s), Of(source, ready), Of(source, kept), source in Sources(ready), due)
    requires last.source == source ==> source !in Sources(ready) && due
    ensures ServedInOrder(Of(source, s + [last]), Of(source, ready + [last]), Of(source, kept),
                          source in Sources(ready + [last]), due)
  {
    SelectLast(From(source), s, last);
    SelectLast(From(source), ready, last);
    SourcesGrow(ready, last);
  }

  /**
   * Popping never lets a request overtake an older one of its own source: putting the batch back
   * in front restores every source's order, and a due source with queued work is always served,
   * with exactly its oldest request.
   */
  lemma {:induction false} PopKeepsSourceOrder(
      s: seq<Request>, due: map<string, int>, now: int, minInterval: int, source: string)
    ensures var p := Pop(s, due, now, minInterval);
            ServedInOrder(Of(source, s), Of(source, p.ready), Of(source, p.kept),
                          source in Sources(p.ready), Due(due, source, now, minInterval))
  {
    if s != [] {
      var s', last := s[..|s|-1], s[|s|-1];
      PopKeepsSourceOrder(s', due, now, minInterval, source);
      assert s == s' + [last];
      var p := Pop(s', due, now, minInterval);
      if last.source in Sources(p.ready) || !Due(due, last.source, now, minInterval) {
        KeptStep(s', p.ready, p.kept, last, source, Due(due, source, now, minInterval));
      } else {
        TakenStep(s', p.ready, p.kept, last, source, Due(due, source, now, minInterval));
      }
    }
  }
}

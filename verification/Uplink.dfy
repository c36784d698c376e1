/**
 * The weather uplink's circuit breaker: it opens after two transient failures, doubles its backoff
 * up to a cap, lets one probe through per backoff, and closes on a delivered POST.
 */
module UplinkSpec {
  import opened Common
  import opened RingSpec

  const OPEN_AFTER: nat := 2
  const BACKOFF_START := 5 * SECOND
  const BACKOFF_CAP := 60 * SECOND

  // ----- errors of a POST

  /** `code` is the HTTP status carried by the error, 0 when it carries none. */
  datatype PostError = PostError(canceled: bool, code: int)

  datatype Outcome = Delivered | Transient | Permanent | Canceled

  predicate IsTransientErr(e: PostError) {
    if e.canceled then false
    else if e.code == 429 || e.code >= 500 then true
    else e.code == 0
  }

  predicate IsPermanentErr(e: PostError) {
    400 <= e.code < 500 && e.code != 429
  }

  /** How the flush and the live POST sort an error: cancellation first, then a permanent status. */
  function Handled(e: PostError): Outcome {
    if e.canceled then Canceled
    else if IsPermanentErr(e) then Permanent
    else Transient
  }

  /**
   * The breaker counts every error that is neither a cancellation nor permanent.  That is the
   * transient class, except for errors carrying a status below 400: those count as an outage
   * although the transient test denies them.
   */
  lemma HandledVersusTransient(e: PostError)
    ensures IsTransientErr(e) ==> Handled(e) == Transient
    ensures Handled(e) == Transient && !IsTransientErr(e) <==> !e.canceled && e.code != 0 && e.code < 400
    ensures !(IsTransientErr(e) && IsPermanentErr(e))
  {
  }

  // ----- the breaker

  datatype Breaker = Breaker(open: bool, failures: nat, openUntil: Option<int>, backoff: int)

  function NewBreaker(): Breaker {
    Breaker(false, 0, None, BACKOFF_START)
  }

  /** Whether `now` is still before the end of the backoff. */
  predicate Waiting(b: Breaker, now: int) {
    b.openUntil.Some? && now < b.openUntil.value
  }

  predicate ProbeDue(b: Breaker, now: int) {
    !b.open || !Waiting(b, now)
  }

  /** The breaker after an attempt is asked for at `now`; it is granted exactly when a probe is due. */
  function AllowAttempt(b: Breaker, now: int): Breaker {
    if !b.open || Waiting(b, now) then b else b.(openUntil := Some(now + b.backoff))
  }

  function NoteSuccess(b: Breaker): Breaker {
    Breaker(false, 0, None, BACKOFF_START)
  }

  function NoteTransientFailure(b: Breaker, now: int): Breaker {
    var b' := b.(failures := b.failures + 1);
    if !b'.open && b'.failures < OPEN_AFTER then b'
    else
      var wait := if b'.backoff <= 0 then BACKOFF_START else b'.backoff;
      b'.(open := true,
          openUntil := Some(now + wait),
          backoff := if wait * 2 > BACKOFF_CAP then BACKOFF_CAP else wait * 2)
  }

  // ----- the POSTs actually started

  /**
   * One POST: granted by the breaker at `gateAt`, started at `startAt`, back at `stampAt`, and, when
   * it failed transiently, reported to the breaker at `noteAt`.
   */
  datatype Post = Post(
    source: string, catchup: bool, gateAt: int, startAt: int, stampAt: int, noteAt: int, outcome: Outcome)

  function AfterPost(b: Breaker, p: Post): Breaker {
    match p.outcome
    case Delivered => NoteSuccess(b)
    case Transient => NoteTransientFailure(b, p.noteAt)
    case Permanent => b
    case Canceled => b
  }

  function Pow2(n: nat): (p: nat)
    ensures p >= 1
  {
    if n == 0 then 1 else 2 * Pow2(n - 1)
  }

  /** min(60 s, 5 s * 2^(max(failures, 1) - 1)) */
  function Backoff(failures: nat): int {
    var raw := BACKOFF_START * Pow2(if failures <= 1 then 0 else failures - 1);
    if raw > BACKOFF_CAP then BACKOFF_CAP else raw
  }

  /** Transient failures since the last delivered POST. */
  function FailuresIn(posts: seq<Post>): nat {
    if posts == [] then 0
    else
      var before := FailuresIn(posts[..|posts|-1]);
      match posts[|posts|-1].outcome
      case Delivered => 0
      case Transient => before + 1
      case Permanent => before
      case Canceled => before
  }

  /** When an open breaker will grant its next attempt, read off the POSTs alone. */
  function ReopenAt(posts: seq<Post>): Option<int> {
    if FailuresIn(posts) < OPEN_AFTER then None
    else
      var last := posts[|posts|-1];
      if last.outcome == Transient
      then Some(last.noteAt + Backoff(FailuresIn(posts) - 1))
      else Some(last.gateAt + Backoff(FailuresIn(posts)))
  }

  /** The breaker as a summary of the POSTs: no other memory of the past. */
  function BreakerOf(posts: seq<Post>): Breaker {
    var f := FailuresIn(posts);
    Breaker(f >= OPEN_AFTER, f, ReopenAt(posts), Backoff(f))
  }

  lemma BackoffDoubles(f: nat)
    ensures 0 < Backoff(f) <= BACKOFF_CAP
    ensures Backoff(0) == Backoff(1) == BACKOFF_START
    ensures f >= 1 ==> Backoff(f + 1) == if Backoff(f) * 2 > BACKOFF_CAP then BACKOFF_CAP else Backoff(f) * 2
  {
    assert Pow2(0) == 1;
    if f >= 1 {
      assert Pow2(f) == 2 * Pow2(f - 1);
    }
  }

  /** One granted attempt and its result keep the summary exact. */
  lemma BreakerFollowsPosts(posts: seq<Post>, p: Post)
    requires ProbeDue(BreakerOf(posts), p.gateAt)
    ensures AfterPost(AllowAttempt(BreakerOf(posts), p.gateAt), p) == BreakerOf(posts + [p])
  {
    assert (posts + [p])[..|posts|] == posts;
    BackoffDoubles(FailuresIn(posts));
  }

  // ----- outages

  /** Every POST waited for the breaker. */
  ghost predicate Gated(posts: seq<Post>) {
    forall n :: 0 <= n < |posts| ==> ProbeDue(BreakerOf(posts[..n]), posts[n].gateAt)
  }

  predicate Ordered(p: Post) {
    p.gateAt <= p.startAt <= p.stampAt <= p.noteAt
  }

  ghost predicate Timed(posts: seq<Post>) {
    forall n :: 0 <= n < |posts| ==> Ordered(posts[n])
  }

  lemma GatedGrows(posts: seq<Post>, p: Post)
    requires Gated(posts) && ProbeDue(BreakerOf(posts), p.gateAt)
    ensures Gated(posts + [p])
  {
    var all := posts + [p];
    forall n | 0 <= n < |all| ensures ProbeDue(BreakerOf(all[..n]), all[n].gateAt) {
      assert all[..n] == posts[..n];
      if n == |posts| {
        assert posts[..n] == posts;
      }
    }
  }

  /** The earliest start of the k-th POST after the breaker opened, counted from that moment. */
  function Schedule(k: nat): int {
    if k == 0 then 0 else Schedule(k - 1) + Backoff(k)
  }

  /** POST `i` opens the breaker. */
  ghost predicate Opens(posts: seq<Post>, i: nat) {
    i < |posts| && !BreakerOf(posts[..i]).open && BreakerOf(posts[..i+1]).open
  }

  /** The attempts between the opening POST and the k-th one after it all failed transiently. */
  ghost predicate Outage(posts: seq<Post>, i: nat, k: nat) {
    && Opens(posts, i)
    && i + k < |posts|
    && forall j :: i < j < i + k ==> posts[j].outcome == Transient
  }

  lemma {:induction false} OutageFailures(posts: seq<Post>, i: nat, k: nat)
    requires Outage(posts, i, k) && k >= 1
    ensures FailuresIn(posts[..i+k]) == k + 1
    ensures posts[i+k-1].outcome == Transient
  {
    var done := posts[..i+k];
    assert done[..|done|-1] == posts[..i+k-1];
    if k > 1 {
      OutageFailures(posts, i, k - 1);
    }
  }

  /** After a transient failure that left the breaker open, the next attempt waits out the backoff. */
  lemma NextGate(done: seq<Post>, next: Post, k: nat)
    requires done != [] && done[|done|-1].outcome == Transient && FailuresIn(done) == k + 1 && k >= 1
    requires ProbeDue(BreakerOf(done), next.gateAt)
    ensures next.gateAt >= done[|done|-1].noteAt + Backoff(k)
  {
    assert ReopenAt(done) == Some(done[|done|-1].noteAt + Backoff(k));
  }

  lemma OutageGate(posts: seq<Post>, i: nat, k: nat)
    requires Gated(posts) && Outage(posts, i, k) && k >= 1
    ensures posts[i+k].gateAt >= posts[i+k-1].noteAt + Backoff(k)
  {
    OutageFailures(posts, i, k);
    var done := posts[..i+k];
    assert done[|done|-1] == posts[i+k-1];
    NextGate(done, posts[i+k], k);
  }

  lemma OutageShorter(posts: seq<Post>, i: nat, k: nat, j: nat)
    requires Outage(posts, i, k) && j <= k
    ensures Outage(posts, i, j)
  {
  }

  /** Each of the k attempts after POST i waited for its backoff. */
  predicate Spaced(posts: seq<Post>, i: nat, k: nat) {
    i + k < |posts| && forall j :: 1 <= j <= k ==> posts[i+j].gateAt >= posts[i+j-1].noteAt + Backoff(j)
  }

  lemma {:induction false} SpacedSchedule(posts: seq<Post>, i: nat, k: nat)
    requires Spaced(posts, i, k) && Timed(posts) && k >= 1
    ensures posts[i+k].startAt >= posts[i].noteAt + Schedule(k)
  {
    assert Ordered(posts[i+k]) && Ordered(posts[i+k-1]);
    assert posts[i+k].gateAt >= posts[i+k-1].noteAt + Backoff(k);
    if k == 1 {
      assert Schedule(0) == 0;
    } else {
      SpacedSchedule(posts, i, k - 1);
    }
  }

  /** During an outage the k-th further POST starts no earlier than the doubling schedule allows. */
  lemma {:induction false} OutageSchedule(posts: seq<Post>, i: nat, k: nat)
    requires Gated(posts) && Timed(posts) && Outage(posts, i, k) && k >= 1
    ensures posts[i+k].startAt >= posts[i].noteAt + Schedule(k)
  {
    forall j: nat | 1 <= j <= k ensures posts[i+j].gateAt >= posts[i+j-1].noteAt + Backoff(j) {
      OutageShorter(posts, i, k, j);
      OutageGate(posts, i, j);
    }
    SpacedSchedule(posts, i, k);
  }

  lemma {:induction false} ScheduleIsSteep(k: nat)
    requires k >= 1
    ensures Schedule(k) >= (60 * k - 165) * SECOND
    ensures k >= 5 ==> Backoff(k) == BACKOFF_CAP
  {
    assert Pow2(1) == 2 && Pow2(2) == 4 && Pow2(3) == 8 && Pow2(4) == 16;
    if k == 1 {
    } else {
      ScheduleIsSteep(k - 1);
      if k >= 5 {
        assert k >= 6 ==> Backoff(k - 1) == BACKOFF_CAP;
        BackoffDoubles(k - 1);
      }
    }
  }

  /**
   * The outage bound: within D seconds after the breaker opened, no POST beyond the
   * floor((D + 165) / 60)-th has started.
   */
  lemma OutageBound(posts: seq<Post>, i: nat, k: nat, d: nat)
    requires Gated(posts) && Timed(posts) && Outage(posts, i, k) && k >= 1
    requires posts[i+k].startAt <= posts[i].noteAt + d * SECOND
    ensures k <= (d + 165) / 60
  {
    OutageSchedule(posts, i, k);
    ScheduleIsSteep(k);
  }

  // ----- attempts that fail in other ways

  /** While the breaker is open, an attempt waits from the one before it, however that one failed. */
  lemma OpenGate(posts: seq<Post>, n: nat)
    requires Gated(posts) && 0 < n < |posts| && FailuresIn(posts[..n]) >= OPEN_AFTER
    ensures var last, f := posts[n-1], FailuresIn(posts[..n]);
            posts[n].gateAt >=
            if last.outcome == Transient then last.noteAt + Backoff(f - 1) else last.gateAt + Backoff(f)
  {
    var done := posts[..n];
    assert done[|done|-1] == posts[n-1];
    assert ProbeDue(BreakerOf(done), posts[n].gateAt);
  }

  /** From the opening on none of k attempts was delivered; the k-th further one comes after them. */
  ghost predicate Undelivered(posts: seq<Post>, i: nat, k: nat) {
    && Opens(posts, i)
    && i + k < |posts|
    && forall j :: i < j < i + k ==> posts[j].outcome != Delivered
  }

  lemma {:induction false} UndeliveredFailures(posts: seq<Post>, i: nat, k: nat)
    requires Undelivered(posts, i, k) && k >= 1
    ensures FailuresIn(posts[..i+k]) >= OPEN_AFTER + (if k >= 2 && posts[i+k-1].outcome == Transient then 1 else 0)
    ensures k == 1 ==> FailuresIn(posts[..i+k]) == OPEN_AFTER && posts[i].outcome == Transient
  {
    var done := posts[..i+k];
    assert done[..|done|-1] == posts[..i+k-1];
    if k > 1 {
      UndeliveredFailures(posts, i, k - 1);
    }
  }

  lemma LongWaits(f: nat)
    requires f >= OPEN_AFTER
    ensures Backoff(f) >= 10 * SECOND
  {
    assert Pow2(1) == 2;
    PowGrows(1, f - 1);
  }

  lemma {:induction false} PowGrows(a: nat, b: nat)
    requires a <= b
    ensures Pow2(a) <= Pow2(b)
    decreases b
  {
    if a < b {
      PowGrows(a, b - 1);
    }
  }

  lemma FirstWait(posts: seq<Post>, i: nat)
    requires Gated(posts) && Undelivered(posts, i, 1)
    ensures posts[i+1].gateAt >= posts[i].noteAt + 5 * SECOND
  {
    UndeliveredFailures(posts, i, 1);
    OpenGate(posts, i + 1);
    BackoffDoubles(1);
  }

  lemma LaterWait(posts: seq<Post>, i: nat, k: nat)
    requires Gated(posts) && Undelivered(posts, i, k) && k >= 2 && Ordered(posts[i+k-1])
    ensures posts[i+k].gateAt >= posts[i+k-1].gateAt + 10 * SECOND
  {
    UndeliveredFailures(posts, i, k);
    OpenGate(posts, i + k);
    var f := FailuresIn(posts[..i+k]);
    LongWaits(if posts[i+k-1].outcome == Transient then f - 1 else f);
  }

  lemma UndeliveredShorter(posts: seq<Post>, i: nat, k: nat)
    requires Undelivered(posts, i, k) && k >= 1
    ensures Undelivered(posts, i, k - 1)
  {
  }

  /** The first further attempt waits five seconds, each later one at least ten more. */
  lemma {:induction false} UndeliveredGate(posts: seq<Post>, i: nat, k: nat)
    requires Gated(posts) && Timed(posts) && Undelivered(posts, i, k) && k >= 1
    ensures posts[i+k].gateAt >= posts[i].noteAt + (10 * k - 5) * SECOND
  {
    if k == 1 {
      FirstWait(posts, i);
    } else {
      UndeliveredShorter(posts, i, k);
      UndeliveredGate(posts, i, k - 1);
      LaterWait(posts, i, k);
      assert posts[i+k].gateAt >= posts[i+(k-1)].gateAt + 10 * SECOND;
    }
  }

  /**
   * Whatever the attempts after the opening end in, short of a delivery: within D seconds no POST
   * beyond the floor((D + 5) / 10)-th has started.
   */
  lemma UndeliveredBound(posts: seq<Post>, i: nat, k: nat, d: nat)
    requires Gated(posts) && Timed(posts) && Undelivered(posts, i, k) && k >= 1
    requires posts[i+k].startAt <= posts[i].noteAt + d * SECOND
    ensures k <= (d + 5) / 10
  {
    UndeliveredGate(posts, i, k);
    assert Ordered(posts[i+k]);
  }
}

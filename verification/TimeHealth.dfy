/** Clock health: a summary, over all past checks, of what the time servers answered. */
module TimeHealths {
  import opened Common

  const SECOND := 1_000_000_000
  const HOUR := 3600 * SECOND

  datatype Health = Health(healthy: bool, offset: int, lastCheck: Option<int>, lastGoodSync: Option<int>)

  /**
   * One check: each server's offset, in order, or None when it did not answer; the clock when the
   * check is recorded, and, when nobody answered, the clock again for the age of the last sync.
   */
  datatype Check = Check(replies: seq<Option<int>>, now: int, later: int)

  datatype Config = Config(maxOffset: int, staleMaxAge: int)

  /** The first server that answers decides. */
  function Response(replies: seq<Option<int>>): Option<int> {
    if replies == [] then None
    else if replies[0].Some? then replies[0]
    else Response(replies[1..])
  }

  predicate InBounds(c: Config, offset: int) {
    -c.maxOffset <= offset <= c.maxOffset
  }

  function Init(): Health {
    Health(false, 0, None, None)
  }

  function Next(c: Config, h: Health, k: Check): Health {
    match Response(k.replies)
    case Some(offset) =>
      Health(InBounds(c, offset), offset, Some(k.now), if InBounds(c, offset) then Some(k.now) else None)
    case None =>
      h.(lastCheck := Some(k.now), healthy := h.lastGoodSync.Some? && k.later - h.lastGoodSync.value <= c.staleMaxAge)
  }

  function Run(c: Config, checks: seq<Check>): Health {
    if checks == [] then Init() else Next(c, Run(c, checks[..|checks|-1]), checks[|checks|-1])
  }

  // ----- what the history says

  predicate Answered(k: Check) {
    Response(k.replies).Some?
  }

  /** Check `i` is the most recent one that got a response. */
  ghost predicate LastAnswered(checks: seq<Check>, i: int) {
    0 <= i < |checks| && Answered(checks[i]) && forall j :: i < j < |checks| ==> !Answered(checks[j])
  }

  /** How long before the latest check the sync of check `i` was. */
  function Age(checks: seq<Check>, i: int): int
    requires 0 <= i < |checks|
  {
    if i == |checks| - 1 then 0 else checks[|checks|-1].later - checks[i].now
  }

  lemma {:induction false} SyncIsLastAnswer(c: Config, checks: seq<Check>, i: int)
    requires LastAnswered(checks, i)
    ensures Run(c, checks).lastGoodSync ==
            if InBounds(c, Response(checks[i].replies).value) then Some(checks[i].now) else None
  {
    if i < |checks| - 1 {
      var front := checks[..|checks|-1];
      assert forall j :: 0 <= j < |front| ==> front[j] == checks[j];
      SyncIsLastAnswer(c, front, i);
      assert !Answered(checks[|checks|-1]);
    }
  }

  lemma {:induction false} NoAnswerNoSync(c: Config, checks: seq<Check>)
    requires forall j :: 0 <= j < |checks| ==> !Answered(checks[j])
    ensures Run(c, checks).lastGoodSync == None && !Run(c, checks).healthy
  {
    if checks != [] {
      NoAnswerNoSync(c, checks[..|checks|-1]);
      assert !Answered(checks[|checks|-1]);
    }
  }

  /**
   * After any checks, the clock is healthy if and only if the most recent response was in bounds
   * and is no older, at the latest check, than the grace period.  An out-of-bounds response ends
   * any earlier grace.
   */
  lemma HealthyIff(c: Config, checks: seq<Check>)
    requires c.staleMaxAge >= 0
    ensures Run(c, checks).healthy <==>
            exists i :: LastAnswered(checks, i) && InBounds(c, Response(checks[i].replies).value)
                        && Age(checks, i) <= c.staleMaxAge
  {
    if exists i :: LastAnswered(checks, i) {
      var i :| LastAnswered(checks, i);
      SyncIsLastAnswer(c, checks, i);
      assert forall j :: LastAnswered(checks, j) ==> j == i;
      if i < |checks| - 1 {
        var front := checks[..|checks|-1];
        assert forall j :: 0 <= j < |front| ==> front[j] == checks[j];
        assert LastAnswered(front, i);
        SyncIsLastAnswer(c, front, i);
        assert !Answered(checks[|checks|-1]);
      }
    } else {
      NobodyAnswered(checks);
      NoAnswerNoSync(c, checks);
    }
  }

  lemma {:induction false} NobodyAnswered(checks: seq<Check>)
    ensures (exists i :: LastAnswered(checks, i)) || forall j :: 0 <= j < |checks| ==> !Answered(checks[j])
  {
    if checks != [] {
      var n := |checks| - 1;
      var front := checks[..n];
      assert forall j :: 0 <= j < n ==> front[j] == checks[j];
      if Answered(checks[n]) {
        assert LastAnswered(checks, n);
      } else {
        NobodyAnswered(front);
        if exists i :: LastAnswered(front, i) {
          var i :| LastAnswered(front, i);
          assert LastAnswered(checks, i);
        }
      }
    }
  }

  /** The response is the offset of the first server that answers; there is none when no server does. */
  lemma {:induction false} ResponseIsFirst(replies: seq<Option<int>>, i: int)
    requires 0 <= i < |replies| && replies[i].Some? && forall j :: 0 <= j < i ==> replies[j].None?
    ensures Response(replies) == replies[i]
    decreases i
  {
    if i > 0 {
      assert replies[0].None?;
      ResponseIsFirst(replies[1..], i - 1);
    }
  }

  lemma {:induction false} NoResponse(replies: seq<Option<int>>)
    requires forall j :: 0 <= j < |replies| ==> replies[j].None?
    ensures Response(replies) == None
  {
    if replies != [] {
      assert replies[0].None?;
      NoResponse(replies[1..]);
    }
  }

  /** The offset on record is that of the most recent response, zero before any; the last check is the last one. */
  lemma {:induction false} RecordIsLast(c: Config, checks: seq<Check>)
    ensures var h := Run(c, checks);
            && (forall i :: LastAnswered(checks, i) ==> Some(h.offset) == Response(checks[i].replies))
            && ((forall i :: 0 <= i < |checks| ==> !Answered(checks[i])) ==> h.offset == 0)
            && h.lastCheck == (if checks == [] then None else Some(checks[|checks|-1].now))
  {
    if checks != [] {
      var n := |checks| - 1;
      var front := checks[..n];
      assert forall j :: 0 <= j < n ==> front[j] == checks[j];
      RecordIsLast(c, front);
      forall i | LastAnswered(checks, i) ensures Some(Run(c, checks).offset) == Response(checks[i].replies) {
        if i < n {
          assert !Answered(checks[n]);
          assert LastAnswered(front, i);
        }
      }
    }
  }

  // ----- the manager

  class TimeHealth {
    const config: Config
    const checkInterval: int
    const servers: seq<string>
    var healthy: bool
    var offset: int
    var lastCheck: Option<int>
    var lastGoodSync: Option<int>

    ghost function State(): Health
      reads this
    {
      Health(healthy, offset, lastCheck, lastGoodSync)
    }

    /** Unset settings get defaults: a check every five minutes, five seconds of offset, a server, a day of grace. */
    constructor (checkIntervalSeconds: int, maxOffsetSeconds: int, servers: seq<string>, staleThresholdHours: int)
      ensures State() == Init() && config.staleMaxAge > 0 && this.servers != []
      ensures checkInterval == (if checkIntervalSeconds == 0 then 300 * SECOND else checkIntervalSeconds * SECOND)
      ensures config.maxOffset == (if maxOffsetSeconds == 0 then 5 * SECOND else maxOffsetSeconds * SECOND)
      ensures this.servers == (if |servers| == 0 then ["pool.ntp.org"] else servers)
      ensures config.staleMaxAge == (if staleThresholdHours <= 0 then 24 * HOUR else staleThresholdHours * HOUR)
    {
      checkInterval := if checkIntervalSeconds == 0 then 300 * SECOND else checkIntervalSeconds * SECOND;
      this.servers := if |servers| == 0 then ["pool.ntp.org"] else servers;
      config := Config(if maxOffsetSeconds == 0 then 5 * SECOND else maxOffsetSeconds * SECOND,
                       (if staleThresholdHours <= 0 then 24 else staleThresholdHours) * HOUR);
      healthy, offset, lastCheck, lastGoodSync := false, 0, None, None;
    }

    /** Asks server after server until one answers. */
    method Sync(k: Check)
      modifies this
      ensures State() == Next(config, old(State()), k)
    {
      var i := 0;
      while i < |k.replies|
        invariant 0 <= i <= |k.replies|
        invariant Response(k.replies[i..]) == Response(k.replies)
        invariant State() == old(State())
      {
        assert k.replies[i..][1..] == k.replies[i+1..];
        if k.replies[i].Some? {
          offset := k.replies[i].value;
          lastCheck := Some(k.now);
          var abs := if offset < 0 then -offset else offset;
          healthy := abs <= config.maxOffset;
          lastGoodSync := if healthy then Some(k.now) else None;
          return;
        }
        i := i + 1;
      }
      lastCheck := Some(k.now);
      if lastGoodSync.None? {
        healthy := false;
      } else if k.later - lastGoodSync.value <= config.staleMaxAge {
        healthy := true;
      } else {
        healthy := false;
      }
    }
  }
}

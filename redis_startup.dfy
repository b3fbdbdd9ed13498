/** `RedisStartupListener`: at start-up and on a timer, up to three attempts to
    reach Redis; the first attempt that connects warms the cache when the database
    is empty and ends the run. */
module RedisStartup {
  import opened Base

  const MAX_RETRY_ATTEMPTS: nat := 3

  /** What Redis and the clock answer on one attempt: the ping (it throws when
      Redis is unreachable), whether the retry sleep was interrupted, and `dbSize`
      (which may return null or throw). */
  datatype Probe = Probe(ping: Outcome<Unit>, sleepInterrupted: bool, dbSize: Outcome<Option<int>>)

  /** How a run ended: the connection checks made, whether the cache was warmed,
      and whether the thread was interrupted. */
  datatype StartupReport = StartupReport(checks: nat, warmedUp: bool, interrupted: bool)

  /** `isRedisConnected`: any failure of the ping reads as "not connected". */
  function IsRedisConnected(ping: Outcome<Unit>): (r: bool)
    ensures r <==> !ping.Thrown?
  {
    ping.Ok?
  }

  /** `isRedisCacheEmpty`: the size is present and zero; a null size or a failure
      reads as "not empty". */
  function IsRedisCacheEmpty(dbSize: Outcome<Option<int>>): (r: bool)
    ensures r <==> dbSize == Ok(Some(0))
    ensures dbSize.Thrown? || dbSize == Ok(None) ==> !r
  {
    dbSize.Ok? && dbSize.value.Some? && dbSize.value.value == 0
  }

  /** The run from attempt `attempt` on: an unreachable Redis sleeps and tries
      again unless the sleep is interrupted; a reachable one is warmed when empty,
      and the run ends. */
  function RunFrom(probes: nat -> Probe, attempt: nat): (r: StartupReport)
    requires attempt <= MAX_RETRY_ATTEMPTS
    decreases MAX_RETRY_ATTEMPTS - attempt
  {
    if attempt == MAX_RETRY_ATTEMPTS then StartupReport(attempt, false, false)
    else
      var p := probes(attempt);
      if !IsRedisConnected(p.ping) then
        if p.sleepInterrupted then StartupReport(attempt + 1, false, true)
        else RunFrom(probes, attempt + 1)
      else StartupReport(attempt + 1, IsRedisCacheEmpty(p.dbSize), false)
  }

  /** A whole run. */
  function StartupRun(probes: nat -> Probe): StartupReport
  {
    RunFrom(probes, 0)
  }

  /** Every attempt before the last check failed to connect and slept through; the
      number of checks stays within the limit; a warm-up happens only on the last
      check, which connected and found the database empty; an interrupt ends the
      run on an attempt that did not connect. */
  lemma {:induction false} RunFromShape(probes: nat -> Probe, attempt: nat)
    requires attempt <= MAX_RETRY_ATTEMPTS
    ensures var r := RunFrom(probes, attempt);
            attempt <= r.checks <= MAX_RETRY_ATTEMPTS
            && (attempt < MAX_RETRY_ATTEMPTS ==> attempt < r.checks)
            && (forall a :: attempt <= a < r.checks - 1 ==>
                  !IsRedisConnected(probes(a).ping) && !probes(a).sleepInterrupted)
            && (r.warmedUp ==> !r.interrupted && IsRedisConnected(probes(r.checks - 1).ping)
                               && IsRedisCacheEmpty(probes(r.checks - 1).dbSize))
            && (r.interrupted ==> !IsRedisConnected(probes(r.checks - 1).ping)
                                  && probes(r.checks - 1).sleepInterrupted)
            && (r.checks < MAX_RETRY_ATTEMPTS && !r.interrupted ==> IsRedisConnected(probes(r.checks - 1).ping))
    decreases MAX_RETRY_ATTEMPTS - attempt
  {
    if attempt < MAX_RETRY_ATTEMPTS {
      var p := probes(attempt);
      if !IsRedisConnected(p.ping) && !p.sleepInterrupted {
        RunFromShape(probes, attempt + 1);
      }
    }
  }

  /** A run makes at least one and at most three connection checks, and warms the
      cache at most once, only when the attempt connected and the size was 0. */
  lemma StartupBounds(probes: nat -> Probe)
    ensures 1 <= StartupRun(probes).checks <= MAX_RETRY_ATTEMPTS
    ensures StartupRun(probes).warmedUp ==>
              exists a :: 0 <= a < MAX_RETRY_ATTEMPTS && IsRedisConnected(probes(a).ping)
                          && probes(a).dbSize == Ok(Some(0))
  {
    RunFromShape(probes, 0);
    if StartupRun(probes).warmedUp {
      var a := StartupRun(probes).checks - 1;
      assert IsRedisConnected(probes(a).ping);
    }
  }

  /** Connected on the first attempt with a non-empty (or unreadable) cache: one
      check and no warm-up. */
  lemma ConnectedNonEmptyCacheIsLeftAlone(probes: nat -> Probe)
    requires IsRedisConnected(probes(0).ping) && probes(0).dbSize != Ok(Some(0))
    ensures StartupRun(probes) == StartupReport(1, false, false)
  {
  }

  /** If no attempt connects, there is no warm-up: either all three checks are
      made, or an interrupted sleep ends the run early. */
  lemma NeverConnectedNeverWarms(probes: nat -> Probe)
    requires forall a :: 0 <= a < MAX_RETRY_ATTEMPTS ==> !IsRedisConnected(probes(a).ping)
    ensures !StartupRun(probes).warmedUp
    ensures StartupRun(probes).checks == MAX_RETRY_ATTEMPTS || StartupRun(probes).interrupted
  {
    RunFromShape(probes, 0);
  }

  /** The cache warmer, as far as the listener sees it: the number of warm-ups it
      was asked for. */
  class CacheWarmer {
    var warmUps: nat

    constructor()
      ensures warmUps == 0
    {
      warmUps := 0;
    }

    /** `warmUpCache`. */
    method WarmUpCache()
      modifies this
      ensures warmUps == old(warmUps) + 1
    {
      warmUps := warmUps + 1;
    }
  }

  /** `checkRedisAndWarmUp`: the attempt loop. It asks the warmer for one warm-up
      exactly when the run says so. */
  method CheckRedisAndWarmUp(probes: nat -> Probe, warmer: CacheWarmer) returns (report: StartupReport)
    modifies warmer
    ensures report == StartupRun(probes)
    ensures warmer.warmUps == old(warmer.warmUps) + (if report.warmedUp then 1 else 0)
  {
    var attempts := 0;
    while attempts < MAX_RETRY_ATTEMPTS
      invariant 0 <= attempts <= MAX_RETRY_ATTEMPTS
      invariant RunFrom(probes, attempts) == StartupRun(probes)
      invariant warmer.warmUps == old(warmer.warmUps)
    {
      var p := probes(attempts);
      if !IsRedisConnected(p.ping) {
        if p.sleepInterrupted {
          return StartupReport(attempts + 1, false, true);
        }
        attempts := attempts + 1;
        continue;
      }
      var empty := IsRedisCacheEmpty(p.dbSize);
      if empty {
        warmer.WarmUpCache();
      }
      return StartupReport(attempts + 1, empty, false);
    }
    return StartupReport(attempts, false, false);
  }
}

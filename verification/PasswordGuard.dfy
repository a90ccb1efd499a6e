/** The password guard's failure map, which prunes itself, against the unbounded history of
    attempts it summarises. */
module PasswordGuard {
  import opened Bytes

  type Host = Bytes

  const MAX_CONCURRENT_PASSWORD_CHECKS: nat := 2
  const PASSWORD_LOCKOUT_FAILURES: nat := 5
  const PASSWORD_LOCKOUT: int := 60_000_000_000

  /** One address's run of failed passwords. */
  datatype AddressFailures = AddressFailures(count: nat, last: int)

  type Failures = map<Host, AddressFailures>

  /** `failures` wrong passwords, each within `lockout` of the last, lock a host out. */
  datatype Limits = Limits(failures: int, lockout: int)

  predicate Sensible(limits: Limits) {
    limits.failures >= 1 && limits.lockout > 0
  }

  const DEFAULT_LIMITS: Limits := Limits(PASSWORD_LOCKOUT_FAILURES, PASSWORD_LOCKOUT)

  // ----- the map -----

  predicate LockedOut(f: Failures, host: Host, limits: Limits, now: int) {
    host in f && f[host].count >= limits.failures && now - f[host].last < limits.lockout
  }

  function Pruned(f: Failures, limits: Limits, now: int): (r: Failures) {
    map h | h in f && now - f[h].last < limits.lockout :: f[h]
  }

  function Recorded(f: Failures, host: Host, limits: Limits, now: int): (r: (Failures, bool)) {
    var kept := Pruned(f, limits, now);
    var count := if host in kept then kept[host].count + 1 else 1;
    (kept[host := AddressFailures(count, now)], count == limits.failures)
  }

  function Forgotten(f: Failures, host: Host): (r: Failures) {
    f - {host}
  }

  /** A failure is announced exactly when it starts a lockout: not while one is already running, and
      not for a failure that leaves the host free. */
  lemma AnnouncedExactlyWhenLockoutStarts(f: Failures, host: Host, limits: Limits, now: int)
    requires Sensible(limits)
    ensures var (after, announced) := Recorded(f, host, limits, now);
            announced <==> !LockedOut(f, host, limits, now) && LockedOut(after, host, limits, now)
  {
  }

  /** Pruning and recording leave every other host's answer as it was, now and later. */
  lemma RecordingLeavesOthers(f: Failures, host: Host, other: Host, limits: Limits, now: int, later: int)
    requires other != host && now <= later
    ensures LockedOut(Recorded(f, host, limits, now).0, other, limits, later) == LockedOut(f, other, limits, later)
    ensures LockedOut(Forgotten(f, host), other, limits, later) == LockedOut(f, other, limits, later)
  {
  }

  // ----- the history -----

  datatype Event = Failed(host: Host, at: int) | Succeeded(host: Host)

  /** The times of a host's failures since it last succeeded. */
  function Since(history: seq<Event>, host: Host): (ts: seq<int>) {
    if history == [] then []
    else
      var before := Since(history[..|history| - 1], host);
      match history[|history| - 1]
      case Failed(h, at) => if h == host then before + [at] else before
      case Succeeded(h) => if h == host then [] else before
  }

  /** The last k failures follow one another within the lockout. */
  ghost predicate IsRun(ts: seq<int>, k: nat, lockout: int) {
    k <= |ts| && forall i, j :: |ts| - k <= i && j == i + 1 && j < |ts| ==> ts[j] - ts[i] < lockout
  }

  /** The length of the longest such run, as RunLengthIsLongest shows. */
  function RunLength(ts: seq<int>, lockout: int): (k: nat) {
    if |ts| <= 1 then |ts|
    else if ts[|ts| - 1] - ts[|ts| - 2] < lockout then RunLength(ts[..|ts| - 1], lockout) + 1
    else 1
  }

  lemma {:induction false} RunLengthIsLongest(ts: seq<int>, lockout: int)
    ensures IsRun(ts, RunLength(ts, lockout), lockout)
    ensures forall j: nat :: IsRun(ts, j, lockout) ==> j <= RunLength(ts, lockout)
  {
    if |ts| <= 1 {
    } else {
      if ts[|ts| - 1] - ts[|ts| - 2] < lockout {
        RunLengthIsLongest(ts[..|ts| - 1], lockout);
        RunExtends(ts, lockout);
      } else {
        RunStops(ts, lockout);
      }
    }
  }

  lemma LongerIsNoRun(ts: seq<int>, j: nat, lockout: int)
    requires j > RunLength(ts, lockout)
    ensures !IsRun(ts, j, lockout)
  {
    RunLengthIsLongest(ts, lockout);
  }

  lemma RunStops(ts: seq<int>, lockout: int)
    requires |ts| > 1 && ts[|ts| - 1] - ts[|ts| - 2] >= lockout
    ensures forall j: nat :: IsRun(ts, j, lockout) ==> j <= 1
  {
    forall j: nat | j > 1
      ensures !IsRun(ts, j, lockout)
    {
      var i := |ts| - 2;
      assert |ts| - j <= i && ts[i + 1] - ts[i] >= lockout;
    }
  }

  lemma RunExtends(ts: seq<int>, lockout: int)
    requires |ts| > 1 && ts[|ts| - 1] - ts[|ts| - 2] < lockout
    ensures forall j: nat :: j > 0 ==> (IsRun(ts, j, lockout) <==> IsRun(ts[..|ts| - 1], j - 1, lockout))
  {
    var front := ts[..|ts| - 1];
    forall j: nat | j > 0
      ensures IsRun(ts, j, lockout) <==> IsRun(front, j - 1, lockout)
    {
      if IsRun(front, j - 1, lockout) && j <= |ts| {
        forall i, n | |ts| - j <= i && n == i + 1 && n < |ts|
          ensures ts[n] - ts[i] < lockout
        {
          if n < |ts| - 1 { assert front[n] - front[i] < lockout; }
        }
      }
      if IsRun(ts, j, lockout) {
        forall i, n | |front| - (j - 1) <= i && n == i + 1 && n < |front|
          ensures front[n] - front[i] < lockout
        {
          assert ts[n] - ts[i] < lockout;
        }
      }
    }
  }

  /** A failure extends the run if it comes within the lockout of the last one, else starts afresh. */
  lemma RunLengthAfter(ts: seq<int>, at: int, lockout: int)
    ensures RunLength(ts + [at], lockout) ==
            if ts != [] && at - ts[|ts| - 1] < lockout then RunLength(ts, lockout) + 1 else 1
  {
    assert (ts + [at])[..|ts|] == ts;
  }

  function MapAfter(history: seq<Event>, limits: Limits): (f: Failures) {
    if history == [] then map[]
    else
      var before := MapAfter(history[..|history| - 1], limits);
      match history[|history| - 1]
      case Failed(host, at) => Recorded(before, host, limits, at).0
      case Succeeded(host) => Forgotten(before, host)
  }

  lemma MapAfterAppend(history: seq<Event>, e: Event, limits: Limits)
    ensures MapAfter(history + [e], limits) ==
            if e.Failed? then Recorded(MapAfter(history, limits), e.host, limits, e.at).0
            else Forgotten(MapAfter(history, limits), e.host)
  {
    assert (history + [e])[..|history|] == history;
  }

  /** Failures are recorded in the order of a clock that never goes back and now reads `clock`. */
  ghost predicate Timed(history: seq<Event>, clock: int) {
    && (forall i :: 0 <= i < |history| && history[i].Failed? ==> history[i].at <= clock)
    && (forall i, j :: 0 <= i < j < |history| && history[i].Failed? && history[j].Failed? ==>
        history[i].at <= history[j].at)
  }

  /** The map holds a host's current run, or the host has been quiet for a whole lockout. */
  ghost predicate Summarises(f: Failures, history: seq<Event>, host: Host, limits: Limits, clock: int) {
    var ts := Since(history, host);
    && (host in f ==> ts != [] && f[host] == AddressFailures(RunLength(ts, limits.lockout), ts[|ts| - 1]))
    && (host !in f && ts != [] ==> clock - ts[|ts| - 1] >= limits.lockout)
    && (ts != [] ==> ts[|ts| - 1] <= clock)
  }

  lemma RecordedSummarises(f: Failures, history: seq<Event>, failed: Host, host: Host, limits: Limits, clock: int,
      now: int)
    requires Sensible(limits) && clock <= now
    requires Summarises(f, history, failed, limits, clock) && Summarises(f, history, host, limits, clock)
    ensures Summarises(Recorded(f, failed, limits, now).0, history + [Failed(failed, now)], host, limits, now)
    ensures Recorded(f, failed, limits, now).1 <==>
            RunLength(Since(history + [Failed(failed, now)], failed), limits.lockout) == limits.failures
  {
    var next := history + [Failed(failed, now)];
    assert next[..|history|] == history;
    RunLengthAfter(Since(history, failed), now, limits.lockout);
  }

  lemma ForgottenSummarises(f: Failures, history: seq<Event>, succeeded: Host, host: Host, limits: Limits, clock: int)
    requires Summarises(f, history, host, limits, clock)
    ensures Summarises(Forgotten(f, succeeded), history + [Succeeded(succeeded)], host, limits, clock)
  {
    var next := history + [Succeeded(succeeded)];
    assert next[..|history|] == history;
  }

  lemma LaterSummarises(f: Failures, history: seq<Event>, host: Host, limits: Limits, clock: int, later: int)
    requires Summarises(f, history, host, limits, clock) && clock <= later
    ensures Summarises(f, history, host, limits, later)
  {
  }

  lemma {:induction false} MapSummarisesHistory(history: seq<Event>, host: Host, limits: Limits, clock: int)
    requires Sensible(limits) && Timed(history, clock)
    ensures Summarises(MapAfter(history, limits), history, host, limits, clock)
  {
    if history == [] {
    } else {
      var front, last := history[..|history| - 1], history[|history| - 1];
      assert history == front + [last];
      match last {
        case Failed(h, at) =>
          MapSummarisesHistory(front, h, limits, at);
          MapSummarisesHistory(front, host, limits, at);
          RecordedSummarises(MapAfter(front, limits), front, h, host, limits, at, at);
          LaterSummarises(MapAfter(history, limits), history, host, limits, at, clock);
        case Succeeded(h) =>
          MapSummarisesHistory(front, host, limits, clock);
          ForgottenSummarises(MapAfter(front, limits), front, h, host, limits, clock);
      }
    }
  }

  /** For any hosts and any clock that never goes back, the pruned map answers as the whole history
      does: locked out exactly when the run has reached the limit and its last failure is recent,
      and a further failure is announced exactly when it brings the run to the limit. */
  lemma PrunedMapAnswersAsHistory(history: seq<Event>, host: Host, limits: Limits, clock: int, now: int)
    requires Sensible(limits) && Timed(history, clock) && clock <= now
    ensures var f, ts := MapAfter(history, limits), Since(history, host);
            && (LockedOut(f, host, limits, now) <==>
                  ts != [] && RunLength(ts, limits.lockout) >= limits.failures && now - ts[|ts| - 1] < limits.lockout)
            && (Recorded(f, host, limits, now).1 <==>
                  RunLength(Since(history + [Failed(host, now)], host), limits.lockout) == limits.failures)
  {
    MapSummarisesHistory(history, host, limits, clock);
    LaterSummarises(MapAfter(history, limits), history, host, limits, clock, now);
    RecordedSummarises(MapAfter(history, limits), history, host, host, limits, now, now);
  }

  // ----- the guard -----

  class PasswordGuard {
    const limits: Limits
    var failures: Failures

    constructor (limits: Limits)
      ensures this.limits == limits && failures == map[]
    {
      this.limits := limits;
      failures := map[];
    }

    method IsLockedOut(host: Host, now: int) returns (locked: bool)
      ensures locked == LockedOut(failures, host, limits, now)
    {
      if host !in failures { return false; }
      var f := failures[host];
      return f.count >= limits.failures && now - f.last < limits.lockout;
    }

    /** Walks the map in whatever order it comes, deleting quiet runs, then counts the failure. */
    method RecordFailure(host: Host, now: int) returns (nowLockedOut: bool)
      modifies this
      ensures (failures, nowLockedOut) == Recorded(old(failures), host, limits, now)
    {
      var todo := failures.Keys;
      while todo != {}
        invariant todo <= old(failures).Keys
        invariant failures == map h | h in old(failures)
            && (h in todo || now - old(failures)[h].last < limits.lockout) :: old(failures)[h]
        decreases todo
      {
        var h :| h in todo;
        todo := todo - {h};
        if now - failures[h].last >= limits.lockout {
          failures := failures - {h};
        }
      }
      assert failures == Pruned(old(failures), limits, now);
      var f := if host in failures then failures[host] else AddressFailures(0, 0);
      f := AddressFailures(f.count + 1, now);
      failures := failures[host := f];
      nowLockedOut := f.count == limits.failures;
    }

    method Forget(host: Host)
      modifies this
      ensures failures == Forgotten(old(failures), host)
    {
      failures := failures - {host};
    }
  }
}

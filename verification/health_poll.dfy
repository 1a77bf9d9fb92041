/**
 * `_wait_for_app_healthy` (cloud-builder/build.py) as a bounded state
 * machine. The clock and the container runtime are replaced by an injected
 * sequence of observations: the seconds elapsed when the loop condition is
 * evaluated, and what the container lookup of that pass returned.
 */
module HealthPoll {
  import opened Wrappers

  /** The caller's default budget in seconds. */
  const DefaultTimeout: int := 180
  /** Seconds slept after every pass that decides nothing. */
  const PollInterval: int := 2
  /** Lines of container log attached to a terminal failure. */
  const LogTailLines: nat := 50

  /** The inspected container: `State.Status`, `State.Health.Status` (either may be absent) and its log lines. */
  datatype Container = Container(stateStatus: Option<string>, healthStatus: Option<string>, logs: seq<string>)

  datatype Lookup =
    | LookupRaised       // `docker compose ps` or `containers.get` raised
    | NoContainerId      // `ps -q` printed nothing
    | Found(container: Container)

  datatype Observation = Observation(elapsed: int, lookup: Lookup)

  datatype PollResult =
    | Healthy                                    // returns True
    | Terminal(status: string, logTail: seq<string>)  // raises RuntimeError with the log tail
    | TimedOut                                   // returns False
    | TraceEnded                                 // the injected observations ran out first

  /** The result and how many observations the loop consumed. */
  datatype PollRun = PollRun(result: PollResult, polls: nat)

  /** `health.get("Status") or state.get("Status")`: an empty or absent health status falls back. */
  function Status(c: Container): (s: Option<string>)
    ensures c.healthStatus.Some? && c.healthStatus.value != "" ==> s == c.healthStatus
    ensures c.healthStatus.None? || c.healthStatus.value == "" ==> s == c.stateStatus
  {
    if c.healthStatus.Some? && c.healthStatus.value != "" then c.healthStatus else c.stateStatus
  }

  /** `logs(tail=n)`: the last `n` lines, or all of them when there are fewer. */
  function Tail(lines: seq<string>, n: nat): (r: seq<string>)
    ensures |r| == if |lines| <= n then |lines| else n
    ensures r == lines[|lines| - |r|..]
  {
    if |lines| <= n then lines else lines[|lines| - n..]
  }

  predicate IsTerminalStatus(s: string) {
    s == "exited" || s == "dead"
  }

  /** A pass that decides nothing: within the budget, and no container, a failed lookup, or a non-final status. */
  predicate Pending(o: Observation, timeout: int) {
    && o.elapsed < timeout
    && (o.lookup.Found? ==>
          var s := Status(o.lookup.container);
          s != Some("healthy") && !(s.Some? && IsTerminalStatus(s.value)))
  }

  /** The pass `o` ends the loop with `result`. */
  predicate Decides(o: Observation, timeout: int, result: PollResult) {
    match result
    case Healthy =>
      o.elapsed < timeout && o.lookup.Found? && Status(o.lookup.container) == Some("healthy")
    case Terminal(status, tail) =>
      && o.elapsed < timeout && o.lookup.Found?
      && Status(o.lookup.container) == Some(status) && IsTerminalStatus(status)
      && tail == Tail(o.lookup.container.logs, LogTailLines)
    case TimedOut => o.elapsed >= timeout
    case TraceEnded => false
  }

  /** One pass of the loop body: None to sleep and go round again. */
  function Step(o: Observation, timeout: int): (v: Option<PollResult>)
    ensures v.None? <==> Pending(o, timeout)
    ensures v.Some? ==> Decides(o, timeout, v.value)
  {
    if o.elapsed >= timeout then Some(TimedOut)
    else match o.lookup
      case LookupRaised => None
      case NoContainerId => None
      case Found(c) =>
        var s := Status(c);
        if s == Some("healthy") then Some(Healthy)
        else if s.Some? && IsTerminalStatus(s.value) then Some(Terminal(s.value, Tail(c.logs, LogTailLines)))
        else None
  }

  /** The loop from pass `i` on. */
  function PollFrom(obs: seq<Observation>, timeout: int, i: nat): (r: PollRun)
    requires i <= |obs|
    ensures i <= r.polls <= |obs|
    ensures r.result == TraceEnded ==>
              r.polls == |obs| && forall j :: i <= j < |obs| ==> Pending(obs[j], timeout)
    ensures r.result != TraceEnded ==>
              && r.polls > i
              && (forall j :: i <= j < r.polls - 1 ==> Pending(obs[j], timeout))
              && Decides(obs[r.polls - 1], timeout, r.result)
    decreases |obs| - i
  {
    if i == |obs| then PollRun(TraceEnded, i)
    else match Step(obs[i], timeout)
      case None => PollFrom(obs, timeout, i + 1)
      case Some(result) => PollRun(result, i + 1)
  }

  function Poll(obs: seq<Observation>, timeout: int): PollRun {
    PollFrom(obs, timeout, 0)
  }

  /** The `while` loop itself; it consumes observations until one decides, and agrees with `Poll`. */
  method WaitForAppHealthy(obs: seq<Observation>, timeout: int) returns (result: PollResult, polls: nat)
    ensures PollRun(result, polls) == Poll(obs, timeout)
  {
    var i := 0;
    while i < |obs|
      invariant 0 <= i <= |obs|
      invariant PollFrom(obs, timeout, i) == Poll(obs, timeout)
      decreases |obs| - i
    {
      var v := Step(obs[i], timeout);
      if v.Some? {
        return v.value, i + 1;
      }
      i := i + 1;
    }
    return TraceEnded, |obs|;
  }

  /** Once some pass reaches the budget the loop has ended by then, with a verdict. */
  lemma {:induction false} TimeoutEndsPoll(obs: seq<Observation>, timeout: int, k: nat)
    requires k < |obs| && obs[k].elapsed >= timeout
    ensures Poll(obs, timeout).result != TraceEnded
    ensures Poll(obs, timeout).polls <= k + 1
  {
    assert !Pending(obs[k], timeout);
  }

  /** Between passes the clock advances by at least `tick` seconds, starting at zero or later. */
  predicate ClockTicks(obs: seq<Observation>, tick: int) {
    && (|obs| > 0 ==> obs[0].elapsed >= 0)
    && forall j :: 0 <= j < |obs| - 1 ==> obs[j + 1].elapsed >= obs[j].elapsed + tick
  }

  lemma {:induction false} ElapsedLowerBound(obs: seq<Observation>, tick: int, j: nat)
    requires tick > 0 && ClockTicks(obs, tick) && j < |obs|
    ensures obs[j].elapsed >= j * tick
  {
    if j > 0 {
      ElapsedLowerBound(obs, tick, j - 1);
    }
  }

  /** With a ticking clock every look but the last happened before the budget ran out, so looks are bounded whatever the container does. */
  lemma PollsBounded(obs: seq<Observation>, timeout: int, tick: int)
    requires tick > 0 && ClockTicks(obs, tick)
    ensures Poll(obs, timeout).polls >= 2 ==> (Poll(obs, timeout).polls - 2) * tick < timeout
  {
    var r := Poll(obs, timeout);
    if r.polls >= 2 {
      var k := r.polls - 2;
      assert Pending(obs[k], timeout);
      ElapsedLowerBound(obs, tick, k);
    }
  }

  /** How many passes looked at the container: a pass that finds the budget spent looks at nothing. */
  function Looks(r: PollRun): nat {
    if r.result == TimedOut && r.polls > 0 then r.polls - 1 else r.polls
  }

  /**
   * The default budget with the two-second tick: the loop condition is
   * evaluated at most 91 times, and the container is looked at at most 90 times.
   */
  lemma DefaultBudgetBound(obs: seq<Observation>)
    requires ClockTicks(obs, PollInterval)
    ensures Poll(obs, DefaultTimeout).polls <= 91
    ensures Looks(Poll(obs, DefaultTimeout)) <= 90
  {
    var r := Poll(obs, DefaultTimeout);
    PollsBounded(obs, DefaultTimeout, PollInterval);
    if r.result != TimedOut && r.polls > 0 {
      var k := r.polls - 1;
      assert obs[k].elapsed < DefaultTimeout;
      ElapsedLowerBound(obs, PollInterval, k);
    }
  }

  /** Five passes without a container, then a healthy one: healthy after six looks. */
  lemma FivePendingThenHealthy()
    ensures
      var waiting := Observation(0, NoContainerId);
      var healthy := Container(Some("running"), Some("healthy"), []);
      var obs := [waiting.(elapsed := 0), waiting.(elapsed := 2), waiting.(elapsed := 4),
                  waiting.(elapsed := 6), waiting.(elapsed := 8), Observation(10, Found(healthy))];
      Poll(obs, DefaultTimeout) == PollRun(Healthy, 6)
  {
    var waiting := Observation(0, NoContainerId);
    var healthy := Container(Some("running"), Some("healthy"), []);
    var obs := [waiting.(elapsed := 0), waiting.(elapsed := 2), waiting.(elapsed := 4),
                waiting.(elapsed := 6), waiting.(elapsed := 8), Observation(10, Found(healthy))];
    assert PollFrom(obs, DefaultTimeout, 5) == PollRun(Healthy, 6);
    assert PollFrom(obs, DefaultTimeout, 3) == PollRun(Healthy, 6);
    assert PollFrom(obs, DefaultTimeout, 1) == PollRun(Healthy, 6);
  }

  /** An exited container fails the wait with the last fifty log lines attached. */
  lemma ExitedCarriesLogTail(logs: seq<string>)
    ensures
      var c := Container(Some("exited"), None, logs);
      var r := Poll([Observation(0, LookupRaised), Observation(2, Found(c))], DefaultTimeout);
      r.result.Terminal? && r.result.status == "exited" && |r.result.logTail| <= 50
      && r.result.logTail == logs[|logs| - |r.result.logTail|..]
  {
    var c := Container(Some("exited"), None, logs);
    var obs := [Observation(0, LookupRaised), Observation(2, Found(c))];
    assert Status(c) == Some("exited");
    assert PollFrom(obs, DefaultTimeout, 1) == PollRun(Terminal("exited", Tail(logs, LogTailLines)), 2);
  }
}

/** The lease on the lock session: the server ends a session that stays idle, and the leader must have stopped before the
    lock is free (packages/eventstore/src/Leader.ts:39-116, 363-375). Times are milliseconds. */
module Lease {
  import opened Options
  import opened Leadership

  type Duration = d: real | d >= 0.0 witness 0.0

  datatype IdleTimeout = Off | After(time: Duration)

  datatype LeaderOptions = LeaderOptions(
    heartbeat: Option<Duration>,
    verifyTimeout: Option<Duration>,
    failuresBeforeLost: Option<real>,
    serverIdleTimeout: Option<IdleTimeout>)
  {
    function Heartbeat(): Duration {
      match heartbeat case Some(d) => d case None => 1000.0
    }

    function VerifyTimeout(): Duration {
      match verifyTimeout case Some(d) => d case None => 2000.0
    }

    /** A plain number: nothing makes it whole. */
    function FailuresBeforeLost(): (f: real)
      ensures f >= 1.0
    {
      match failuresBeforeLost case Some(f) => (if f >= 1.0 then f else 1.0) case None => 2.0
    }

    /** What one check on a silent session takes at most. */
    function Each(): Duration {
      Heartbeat() + VerifyTimeout()
    }
  }

  /** The least whole number that is not below `f`. */
  function Ceil(f: real): (n: nat)
    requires f >= 0.0
    ensures f <= (n as real) < f + 1.0 && ((n as real) == f <==> IsWhole(f))
  {
    if IsWhole(f) then f.Floor else f.Floor + 1
  }

  predicate IsWhole(f: real) {
    f.Floor as real == f
  }

  /** `n` times a duration. */
  function Times(d: Duration, n: nat): (r: Duration)
  {
    if n == 0 then 0.0 else Times(d, n - 1) + d
  }

  lemma {:induction false} TimesIsProduct(d: Duration, n: nat)
    ensures Times(d, n) == d * (n as real)
  {
    if n > 0 {
      TimesIsProduct(d, n - 1);
    }
  }

  /** The code's own bound, which multiplies by the option as it is. */
  function LossDetectionBound(options: LeaderOptions): Duration {
    options.Each() * options.FailuresBeforeLost()
  }

  /** How long a silent session can go on leading: checks are whole. */
  function LongestSilence(options: LeaderOptions): Duration {
    Times(options.Each(), Ceil(options.FailuresBeforeLost()))
  }

  datatype Choice = Lasts(idle: Option<Duration>) | Refused

  function ServerIdleTimeoutOf(options: LeaderOptions): Choice {
    var asked := match options.serverIdleTimeout case Some(t) => t case None => After(15000.0);
    if asked.Off? then Lasts(None)
    else if asked.time > LossDetectionBound(options) then Lasts(Some(asked.time))
    else Refused
  }

  // ---- A session that goes silent ----

  /** One turn of the heartbeat on a silent connection: the failed checks on demand that came back in it, and how long its
      own check waited. */
  datatype Turn = Turn(verifies: nat, waited: Duration)

  function FailedChecks(s: LeaderState, n: nat, failuresBeforeLost: real): LeaderState {
    if n == 0 then s else AfterCheck(FailedChecks(s, n - 1, failuresBeforeLost), false, failuresBeforeLost)
  }

  function AfterTurn(s: LeaderState, turn: Turn, failuresBeforeLost: real): LeaderState {
    FailedChecks(s, turn.verifies + 1, failuresBeforeLost)
  }

  /** When the leader stopped, at the latest: the end of the first turn after which it does not lead. */
  function StoppedAt(s: LeaderState, now: Duration, turns: seq<Turn>, options: LeaderOptions): Duration
    decreases turns
  {
    if turns == [] || !s.status.Leading? then now
    else StoppedAt(AfterTurn(s, turns[0], options.FailuresBeforeLost()), now + options.Heartbeat() + turns[0].waited, turns[1..], options)
  }

  /** The leader was lost within these turns. */
  predicate Stops(s: LeaderState, turns: seq<Turn>, failuresBeforeLost: real)
    decreases turns
  {
    !s.status.Leading? || (turns != [] && Stops(AfterTurn(s, turns[0], failuresBeforeLost), turns[1..], failuresBeforeLost))
  }

  predicate Silent(turns: seq<Turn>, options: LeaderOptions) {
    |turns| >= Ceil(options.FailuresBeforeLost()) && forall k :: 0 <= k < |turns| ==> turns[k].waited <= options.VerifyTimeout()
  }

  lemma {:induction false} FailedChecksCount(s: LeaderState, n: nat, f: real)
    requires s.status.Leading? && (s.failures as real) < f
    ensures var s' := FailedChecks(s, n, f);
            !s'.status.Closed? && (s'.status.Leading? ==> s'.failures == s.failures + n && (s'.failures as real) < f)
  {
    if n > 0 {
      FailedChecksCount(s, n - 1, f);
    }
  }

  lemma {:induction false} StopsInTime(s: LeaderState, now: Duration, turns: seq<Turn>, options: LeaderOptions)
    requires s.status.Leading? && s.failures < Ceil(options.FailuresBeforeLost()) <= s.failures + |turns|
    requires forall k :: 0 <= k < |turns| ==> turns[k].waited <= options.VerifyTimeout()
    ensures Stops(s, turns, options.FailuresBeforeLost())
    ensures StoppedAt(s, now, turns, options) <= now + Times(options.Each(), Ceil(options.FailuresBeforeLost()) - s.failures)
    decreases turns
  {
    var f := options.FailuresBeforeLost();
    var c := Ceil(f);
    var s' := AfterTurn(s, turns[0], f);
    var later: Duration := now + options.Heartbeat() + turns[0].waited;
    FailedChecksCount(s, turns[0].verifies + 1, f);
    if s'.status.Leading? {
      StopsInTime(s', later, turns[1..], options);
      TimesGrows(options.Each(), c - s'.failures, c - s.failures - 1);
    } else {
      TimesGrows(options.Each(), 0, c - s.failures - 1);
    }
  }

  lemma {:induction false} TimesGrows(d: Duration, m: nat, n: nat)
    requires m <= n
    ensures Times(d, m) <= Times(d, n)
  {
    if m < n {
      TimesGrows(d, m, n - 1);
    }
  }

  /** The slowest silence: no check on demand, and every check waits its whole timeout. */
  function Slowest(options: LeaderOptions, n: nat): (turns: seq<Turn>)
    ensures |turns| == n && forall k :: 0 <= k < n ==> turns[k] == Turn(0, options.VerifyTimeout())
  {
    if n == 0 then [] else [Turn(0, options.VerifyTimeout())] + Slowest(options, n - 1)
  }

  lemma {:induction false} SlowestTakesTheLongest(s: LeaderState, now: Duration, options: LeaderOptions, n: nat)
    requires s.status.Leading? && s.failures + n == Ceil(options.FailuresBeforeLost()) && n >= 1
    ensures StoppedAt(s, now, Slowest(options, n), options) == now + Times(options.Each(), n)
    decreases n
  {
    var f := options.FailuresBeforeLost();
    var turns := Slowest(options, n);
    var s' := AfterTurn(s, turns[0], f);
    var later: Duration := now + options.Heartbeat() + options.VerifyTimeout();
    assert s' == AfterCheck(FailedChecks(s, 0, f), false, f);
    assert turns[1..] == Slowest(options, n - 1);
    assert StoppedAt(s, now, turns, options) == StoppedAt(s', later, turns[1..], options);
    if n > 1 {
      SlowestTakesTheLongest(s', later, options, n - 1);
    }
  }

  /** Whatever the silence is like, the leader has stopped strictly before the server frees the lock. The last check was
      taken by the server at `renewed` and its answer came `delay` later, just before the silence. */
  ghost predicate StopsBeforeTheServer(options: LeaderOptions, idle: Duration, renewed: Duration, delay: Duration) {
    forall turns :: Silent(turns, options) ==>
      Stops(LEADING, turns, options.FailuresBeforeLost()) && StoppedAt(LEADING, renewed + delay, turns, options) < renewed + idle
  }

  /** Exactly when the lease is safe: the timeout exceeds the whole checks of the loss detection by the delay of the last
      answer. */
  lemma LeaseIsSafe(options: LeaderOptions, idle: Duration, renewed: Duration, delay: Duration)
    ensures StopsBeforeTheServer(options, idle, renewed, delay) <==> idle > LongestSilence(options) + delay
  {
    var c := Ceil(options.FailuresBeforeLost());
    var answered: Duration := renewed + delay;
    forall turns | Silent(turns, options)
      ensures Stops(LEADING, turns, options.FailuresBeforeLost())
      ensures StoppedAt(LEADING, answered, turns, options) <= answered + LongestSilence(options)
    {
      StopsInTime(LEADING, answered, turns, options);
    }
    SlowestTakesTheLongest(LEADING, answered, options, c);
    assert Silent(Slowest(options, c), options);
  }

  lemma BoundIsBelow(options: LeaderOptions)
    ensures LossDetectionBound(options) <= LongestSilence(options)
    ensures LossDetectionBound(options) == LongestSilence(options) <==> IsWhole(options.FailuresBeforeLost()) || options.Each() == 0.0
  {
    WholeTimesAreLonger(options.Each(), options.FailuresBeforeLost());
  }

  lemma WholeTimesAreLonger(d: Duration, f: real)
    requires f >= 1.0
    ensures d * f <= Times(d, Ceil(f)) && (d * f == Times(d, Ceil(f)) <==> IsWhole(f) || d == 0.0)
  {
    TimesIsProduct(d, Ceil(f));
    var c: real := Ceil(f) as real;
    var all: real := Times(d, Ceil(f));
    assert all == d * c;
    Products(d, f, c, d * f, all);
  }

  lemma Products(d: real, f: real, c: real, bound: real, all: real)
    requires d >= 0.0 && f <= c && bound == d * f && all == d * c
    ensures bound <= all && (bound == all <==> f == c || d == 0.0)
  {
    assert all - bound == d * (c - f);
    if d > 0.0 && f < c {
      assert d * (c - f) > 0.0;
    }
  }

  /** A safe timeout is accepted; one that is accepted is safe, after an answer without delay, except between the code's
      bound and the whole checks. */
  lemma AcceptedLeasesAreSafe(options: LeaderOptions, idle: Duration, renewed: Duration)
    requires options.serverIdleTimeout == Some(After(idle)) || (options.serverIdleTimeout == None && idle == 15000.0)
    ensures ServerIdleTimeoutOf(options) == if idle > LossDetectionBound(options) then Lasts(Some(idle)) else Refused
    ensures StopsBeforeTheServer(options, idle, renewed, 0.0) ==> ServerIdleTimeoutOf(options) == Lasts(Some(idle))
    ensures ServerIdleTimeoutOf(options) == Lasts(Some(idle)) && !StopsBeforeTheServer(options, idle, renewed, 0.0)
            <==> LossDetectionBound(options) < idle <= LongestSilence(options)
  {
    LeaseIsSafe(options, idle, renewed, 0.0);
    BoundIsBelow(options);
  }

  ghost predicate AcceptsOnlySafe(options: LeaderOptions, renewed: Duration) {
    forall idle: Duration ::
      ServerIdleTimeoutOf(options.(serverIdleTimeout := Some(After(idle)))) == Lasts(Some(idle)) ==> StopsBeforeTheServer(options, idle, renewed, 0.0)
  }

  /** What is accepted is safe, whatever the timeout asked for, exactly when the number of failures is whole (or checks take
      no time at all). */
  lemma WholeFailuresAreSafe(options: LeaderOptions, renewed: Duration)
    ensures AcceptsOnlySafe(options, renewed) <==> IsWhole(options.FailuresBeforeLost()) || options.Each() == 0.0
  {
    BoundIsBelow(options);
    forall idle: Duration
      ensures StopsBeforeTheServer(options, idle, renewed, 0.0) <==> idle > LongestSilence(options)
      ensures ServerIdleTimeoutOf(options.(serverIdleTimeout := Some(After(idle)))) == Lasts(Some(idle)) <==> idle > LossDetectionBound(options)
    {
      LeaseIsSafe(options, idle, renewed, 0.0);
      AcceptedAbove(options, idle);
    }
    AllAreSafeAbove(options, renewed, LongestSilence(options));
  }

  lemma AcceptedAbove(options: LeaderOptions, idle: Duration)
    ensures ServerIdleTimeoutOf(options.(serverIdleTimeout := Some(After(idle)))) == Lasts(Some(idle)) <==> idle > LossDetectionBound(options)
  {
  }

  lemma AllAreSafeAbove(options: LeaderOptions, renewed: Duration, longest: Duration)
    requires longest == LongestSilence(options)
    requires forall idle: Duration :: StopsBeforeTheServer(options, idle, renewed, 0.0) <==> idle > longest
    requires forall idle: Duration ::
               ServerIdleTimeoutOf(options.(serverIdleTimeout := Some(After(idle)))) == Lasts(Some(idle)) <==> idle > LossDetectionBound(options)
    ensures AcceptsOnlySafe(options, renewed) <==> longest <= LossDetectionBound(options)
  {
    assert ServerIdleTimeoutOf(options.(serverIdleTimeout := Some(After(longest)))) == Lasts(Some(longest)) <==> longest > LossDetectionBound(options);
  }

  /** Without options: two failed checks of three seconds each, below a timeout of fifteen seconds. */
  lemma DefaultsAreSafe(renewed: Duration, delay: Duration)
    ensures var options := LeaderOptions(None, None, None, None);
            && ServerIdleTimeoutOf(options) == Lasts(Some(15000.0)) && LongestSilence(options) == 6000.0
            && (StopsBeforeTheServer(options, 15000.0, renewed, delay) <==> delay < 9000.0)
            && ServerIdleTimeoutOf(options.(serverIdleTimeout := Some(Off))) == Lasts(None)
  {
    var options := LeaderOptions(None, None, None, None);
    assert Ceil(2.0) == 2;
    TimesIsProduct(options.Each(), 2);
    LeaseIsSafe(options, 15000.0, renewed, delay);
  }

  /** One and a half failures: a timeout of 5 s is accepted, above 4.5 s, but the second check can end at 6 s. */
  lemma OneAndAHalfFailures(renewed: Duration)
    ensures var options := LeaderOptions(Some(1000.0), Some(2000.0), Some(1.5), Some(After(5000.0)));
            ServerIdleTimeoutOf(options) == Lasts(Some(5000.0)) && !StopsBeforeTheServer(options, 5000.0, renewed, 0.0)
  {
    var options := LeaderOptions(Some(1000.0), Some(2000.0), Some(1.5), Some(After(5000.0)));
    assert Ceil(1.5) == 2;
    TimesIsProduct(options.Each(), 2);
    AcceptedLeasesAreSafe(options, 5000.0, renewed);
  }

  /** The heartbeat of a session with one leader, on a connection that answers nothing any more: it sleeps, checks, and ends
      with the leader. */
  method Monitor(options: LeaderOptions, answered: Duration, turns: seq<Turn>) returns (state: LeaderState, now: Duration)
    requires Silent(turns, options)
    ensures state.status.Lost?
    ensures now == StoppedAt(LEADING, answered, turns, options)
    ensures now <= answered + LongestSilence(options)
  {
    var f := options.FailuresBeforeLost();
    state, now := LEADING, answered;
    var k := 0;
    StopsInTime(LEADING, answered, turns, options);
    while k < |turns| && state.status.Leading?
      invariant 0 <= k <= |turns|
      invariant state.status.Leading? ==> (state.failures as real) < f
      invariant state.status.Lost? || state.status.Leading?
      invariant Stops(state, turns[k..], f)
      invariant StoppedAt(state, now, turns[k..], options) == StoppedAt(LEADING, answered, turns, options)
    {
      var turn := turns[k];
      assert turns[k..][0] == turn && turns[k..][1..] == turns[k + 1..];
      FailedChecksCount(state, turn.verifies + 1, f);
      now := now + options.Heartbeat() + turn.waited;
      state := AfterTurn(state, turn, f);
      k := k + 1;
    }
  }

  // ---- The machine on a silent connection ----

  /** The state after the first `k` turns. */
  function AfterTurns(s: LeaderState, turns: seq<Turn>, k: nat, failuresBeforeLost: real): LeaderState
    requires k <= |turns|
  {
    if k == 0 then s else AfterTurn(AfterTurns(s, turns, k - 1, failuresBeforeLost), turns[k - 1], failuresBeforeLost)
  }

  /** The failed checks of the first `k` turns: those on demand, and the turn's own. */
  function ChecksIn(turns: seq<Turn>, k: nat): nat
    requires k <= |turns|
  {
    if k == 0 then 0 else ChecksIn(turns, k - 1) + turns[k - 1].verifies + 1
  }

  /** When the first `k` turns are over. */
  function EndOf(now: Duration, turns: seq<Turn>, k: nat, options: LeaderOptions): Duration
    requires k <= |turns|
  {
    if k == 0 then now else EndOf(now, turns, k - 1, options) + options.Heartbeat() + turns[k - 1].waited
  }

  lemma {:induction false} LostStaysLost(s: LeaderState, n: nat, f: real)
    requires !s.status.Leading?
    ensures FailedChecks(s, n, f) == s
  {
    if n > 0 {
      LostStaysLost(s, n - 1, f);
    }
  }

  lemma {:induction false} FailedChecksExactly(s: LeaderState, n: nat, f: real)
    requires s.status.Leading? && (s.failures as real) < f
    ensures FailedChecks(s, n, f).status.Leading? <==> ((s.failures + n) as real) < f
    ensures FailedChecks(s, n, f).status.Leading? ==> FailedChecks(s, n, f).failures == s.failures + n
  {
    if n > 0 {
      FailedChecksExactly(s, n - 1, f);
    }
  }

  lemma {:induction false} TurnsCount(turns: seq<Turn>, k: nat, f: real)
    requires k <= |turns| && f >= 1.0
    ensures AfterTurns(LEADING, turns, k, f).status.Leading? <==> (ChecksIn(turns, k) as real) < f
    ensures AfterTurns(LEADING, turns, k, f).status.Leading? ==> AfterTurns(LEADING, turns, k, f).failures == ChecksIn(turns, k)
  {
    if k > 0 {
      TurnsCount(turns, k - 1, f);
      var s := AfterTurns(LEADING, turns, k - 1, f);
      if s.status.Leading? {
        FailedChecksExactly(s, turns[k - 1].verifies + 1, f);
      } else {
        LostStaysLost(s, turns[k - 1].verifies + 1, f);
      }
    }
  }

  /** The leader stopped at the end of some turn, after which it does not lead. */
  lemma {:induction false} StoppedAtATurn(s: LeaderState, now: Duration, turns: seq<Turn>, k: nat, options: LeaderOptions) returns (n: nat)
    requires k <= |turns| && s == AfterTurns(LEADING, turns, k, options.FailuresBeforeLost())
    requires Stops(s, turns[k..], options.FailuresBeforeLost())
    ensures k <= n <= |turns| && !AfterTurns(LEADING, turns, n, options.FailuresBeforeLost()).status.Leading?
    ensures StoppedAt(s, EndOf(now, turns, k, options), turns[k..], options) == EndOf(now, turns, n, options)
    decreases |turns| - k
  {
    n := k;
    if s.status.Leading? {
      var rest := turns[k..];
      assert rest[0] == turns[k] && rest[1..] == turns[k + 1..];
      n := StoppedAtATurn(AfterTurn(s, turns[k], options.FailuresBeforeLost()), now, turns, k + 1, options);
    }
  }

  /** Part of a run on a silent connection: turn by turn, exactly the turn's checks asked for the member, and all failed. */
  ghost predicate IsSilence(run: seq<Leaders>, acts: seq<Act>, ends: seq<nat>, turns: seq<Turn>, m: nat, f: real) {
    && IsRun(run, acts) && |ends| == |turns| + 1 && ends[0] <= ends[|turns|] < |run|
    && (forall k :: 0 <= k < |turns| ==> ends[k] <= ends[k + 1])
    && (forall j :: ends[0] <= j < ends[|turns|] ==> IsSilentFor(run[j], acts[j], m, f))
    && forall k :: 0 <= k < |turns| ==> HasTurn(acts, ends[k], ends[k + 1], m, turns[k])
  }

  ghost predicate HasTurn(acts: seq<Act>, i: nat, j: nat, m: nat, turn: Turn) {
    i <= j <= |acts| && ChecksOf(acts, i, j, m) == turn.verifies + 1
  }

  lemma {:induction false} ChecksAddUp(acts: seq<Act>, i: nat, j: nat, k: nat, m: nat)
    requires i <= j <= k <= |acts|
    ensures ChecksOf(acts, i, k, m) == ChecksOf(acts, i, j, m) + ChecksOf(acts, j, k, m)
    decreases k
  {
    if j < k {
      ChecksAddUp(acts, i, j, k - 1, m);
    }
  }

  lemma {:induction false} SilenceHasItsChecks(run: seq<Leaders>, acts: seq<Act>, ends: seq<nat>, turns: seq<Turn>, m: nat, f: real, k: nat)
    requires IsSilence(run, acts, ends, turns, m, f) && k <= |turns|
    ensures ends[0] <= ends[k] <= ends[|turns|] && ChecksOf(acts, ends[0], ends[k], m) == ChecksIn(turns, k)
  {
    EndsIncrease(ends, turns, k);
    if k > 0 {
      SilenceHasItsChecks(run, acts, ends, turns, m, f, k - 1);
      ChecksAddUp(acts, ends[0], ends[k - 1], ends[k], m);
    }
  }

  lemma {:induction false} EndsIncrease(ends: seq<nat>, turns: seq<Turn>, k: nat)
    requires |ends| == |turns| + 1 && k <= |turns| && forall h :: 0 <= h < |turns| ==> ends[h] <= ends[h + 1]
    ensures ends[0] <= ends[k] <= ends[|turns|]
    decreases |turns| - k
  {
    if k < |turns| {
      EndsIncrease(ends, turns, k + 1);
    }
    EndsFromTheStart(ends, turns, k);
  }

  lemma {:induction false} EndsFromTheStart(ends: seq<nat>, turns: seq<Turn>, k: nat)
    requires |ends| == |turns| + 1 && k <= |turns| && forall h :: 0 <= h < |turns| ==> ends[h] <= ends[h + 1]
    ensures ends[0] <= ends[k]
  {
    if k > 0 {
      EndsFromTheStart(ends, turns, k - 1);
    }
  }

  /** In every run of the machine: a member whose connection goes silent when it counts no failure does not lead at the end of
      some turn, the time the lease says it has stopped at. */
  lemma TheMachineStops(run: seq<Leaders>, acts: seq<Act>, ends: seq<nat>, turns: seq<Turn>, m: nat, options: LeaderOptions, answered: Duration) returns (n: nat)
    requires Silent(turns, options) && IsSilence(run, acts, ends, turns, m, options.FailuresBeforeLost())
    requires m in run[ends[0]].members && (Leads(run[ends[0]], m) ==> run[ends[0]].members[m].state == LEADING)
    ensures n <= |turns| && ends[n] < |run| && !Leads(run[ends[n]], m)
    ensures EndOf(answered, turns, n, options) == StoppedAt(LEADING, answered, turns, options) <= answered + LongestSilence(options)
  {
    var f := options.FailuresBeforeLost();
    assert turns[0..] == turns;
    StopsInTime(LEADING, answered, turns, options);
    n := StoppedAtATurn(LEADING, answered, turns, 0, options);
    TurnsCount(turns, n, f);
    SilenceHasItsChecks(run, acts, ends, turns, m, f, n);
    SilenceEndsLeadership(run, acts, ends[0], ends[n], m, f);
  }
}

/** What a failed probe does to a half-open circuit, and which successes close it (nth_dao/fault_isolation.py),
    against what the module's header and the docstring of `record_success` say. */
module HalfOpenProbes {
  import opened Prelude
  import opened CircuitBreaker
  import opened BreakerReplay

  // ---------------------------------------------------------------- runs, call by call

  function StateOf(c: Config, agent: string, run: seq<Input>): Circuit {
    Run(c, agent, run).breaker.health.circuit
  }

  /** One more call, in time order, that is neither a reset nor a replay. */
  predicate Comes(run: seq<Input>, last: Input) {
    && TimeOrdered(run) && ResetFree(run) && !last.Reset? && !last.Replay?
    && Clock(run) <= (if last.Fail? then last.x.stamp else last.now) <= last.now
  }

  lemma ComesThen(run: seq<Input>, last: Input)
    requires Comes(run, last)
    ensures TimeOrdered(run + [last]) && ResetFree(run + [last]) && Clock(run + [last]) == last.now
    ensures SinceReset(run + [last]) == if last.Fail? then SinceReset(run) + [last.x] else SinceReset(run)
  {
    assert (run + [last])[..|run|] == run;
  }

  lemma Then(c: Config, agent: string, run: seq<Input>, last: Input)
    requires Comes(run, last)
    ensures TimeOrdered(run + [last]) && ResetFree(run + [last]) && Clock(run + [last]) == last.now
    ensures SinceReset(run + [last]) == if last.Fail? then SinceReset(run) + [last.x] else SinceReset(run)
    ensures Run(c, agent, run + [last]).breaker == Step(c, agent, Run(c, agent, run).breaker, last).breaker
  {
    ComesThen(run, last);
    RunAppend(c, agent, run, last);
  }

  function Fails(x: Failure, n: nat): seq<Input> {
    if n == 0 then [] else Fails(x, n - 1) + [Fail(x, x.stamp)]
  }

  lemma BufferCopies(c: Config, x: Failure, n: nat)
    requires Sound(c) && n < c.cap
    ensures Buffered(c, Copies(x, n), x, x.stamp) == Copies(x, n + 1) && |Copies(x, n + 1)| == n + 1
  {
    CopiesAre(x, n + 1);
    NothingExpires(Copies(x, n + 1), x.stamp - c.window);
  }

  /** The breaker after `n` failures at one moment: the last of a threshold's worth opens the circuit. */
  predicate Failed(c: Config, b: Breaker, x: Failure, n: nat) {
    && b.buffer == Copies(x, n) && b.health.circuit == (if n < c.threshold then Closed else Open)
    && (n == c.threshold ==> b.health.openedAt == Some(x.stamp))
  }

  lemma FailsOnce(c: Config, agent: string, b: Breaker, x: Failure, n: nat)
    requires Sound(c) && n < c.threshold && Failed(c, b, x, n)
    ensures Failed(c, Step(c, agent, b, Fail(x, x.stamp)).breaker, x, n + 1)
    ensures n + 1 == c.threshold ==>
              Step(c, agent, b, Fail(x, x.stamp)).audits == [FailureObserved(agent, x), CircuitOpened(agent, Closed, Some(n + 1))]
  {
    BufferCopies(c, x, n);
  }

  predicate AfterFails(c: Config, agent: string, run: seq<Input>, x: Failure, n: nat) {
    && TimeOrdered(run) && ResetFree(run) && Clock(run) <= x.stamp && SinceReset(run) == Copies(x, n)
    && Failed(c, Run(c, agent, run).breaker, x, n)
  }

  lemma OneMoreFails(c: Config, agent: string, run: seq<Input>, x: Failure, n: nat)
    requires Sound(c) && n < c.threshold && AfterFails(c, agent, run, x, n)
    ensures AfterFails(c, agent, run + [Fail(x, x.stamp)], x, n + 1)
  {
    Then(c, agent, run, Fail(x, x.stamp));
    FailsOnce(c, agent, Run(c, agent, run).breaker, x, n);
  }

  lemma {:induction false} FailsOpen(c: Config, agent: string, x: Failure, n: nat)
    requires Sound(c) && x.stamp >= 0.0 && n <= c.threshold
    ensures AfterFails(c, agent, Fails(x, n), x, n)
  {
    if n > 0 {
      FailsOpen(c, agent, x, n - 1);
      OneMoreFails(c, agent, Fails(x, n - 1), x, n - 1);
    }
  }

  // ---------------------------------------------------------------- probing long after the failures

  /** The circuit is half-open after `n` successes, and what opened it has left the window. */
  predicate Trial(c: Config, agent: string, run: seq<Input>, t: real, n: nat) {
    && TimeOrdered(run) && ResetFree(run) && Clock(run) == t && AllBefore(SinceReset(run), t - c.window)
    && StateOf(c, agent, run) == HalfOpen && Run(c, agent, run).breaker.health.halfOpenSuccesses == n
  }

  lemma TrialBegins(c: Config, agent: string) returns (run: seq<Input>, t: real)
    requires Sound(c)
    ensures Trial(c, agent, run, t, 0)
  {
    var x := Failure("", "", 0.0);
    t := c.cooldown + c.window;
    FailsOpen(c, agent, x, c.threshold);
    CopiesAre(x, c.threshold);
    run := Fails(x, c.threshold) + [Query(t)];
    Then(c, agent, Fails(x, c.threshold), Query(t));
  }

  lemma {:induction false} TrialGoesOn(c: Config, agent: string, n: nat) returns (run: seq<Input>, t: real)
    requires Sound(c) && n < c.successThreshold
    ensures Trial(c, agent, run, t, n) && (n > 0 ==> run[|run| - 1].Success?) && run != []
  {
    if n == 0 {
      run, t := TrialBegins(c, agent);
    } else {
      run, t := TrialGoesOn(c, agent, n - 1);
      Then(c, agent, run, Success(t));
      run := run + [Success(t)];
    }
  }

  /** The failure counts alone, so with a threshold above one it changes nothing. */
  lemma TrialSurvives(c: Config, agent: string, run: seq<Input>, t: real, n: nat, x: Failure)
    requires Sound(c) && c.threshold >= 2 && Trial(c, agent, run, t, n) && x.stamp == t
    ensures var more := run + [Fail(x, t)];
            && TimeOrdered(more) && ResetFree(more) && Clock(more) == t
            && StateOf(c, agent, more) == HalfOpen && Run(c, agent, more).breaker.health.halfOpenSuccesses == n
  {
    var more := run + [Fail(x, t)];
    Then(c, agent, run, Fail(x, t));
    ResetFreeIsInOrder(c, more);
    CountsAlone(SinceReset(run), x, t - c.window);
    FailureOpensIff(c, agent, run, x, t);
  }

  lemma CountsAlone(hist: seq<Failure>, x: Failure, cutoff: real)
    requires AllBefore(hist, cutoff) && x.stamp >= cutoff
    ensures |InWindow(hist + [x], cutoff)| == 1
  {
    InWindowConcat(hist, [x], cutoff);
    InWindowKeepsNone(hist, cutoff);
    InWindowOne(x, cutoff);
  }

  // ---------------------------------------------------------------- a failed probe

  /** The next failure of a half-open circuit, still in the window when it is counted. */
  ghost predicate FailedProbe(c: Config, agent: string, run: seq<Input>, x: Failure, now: real) {
    && TimeOrdered(run + [Fail(x, now)]) && ReplaysInOrder(c, run + [Fail(x, now)])
    && StateOf(c, agent, run) == HalfOpen && x.stamp >= now - c.window
  }

  /** What the header says: a failed probe reopens the circuit. */
  ghost predicate ProbesReopen(c: Config) {
    forall agent, run, x, now :: FailedProbe(c, agent, run, x, now) ==> StateOf(c, agent, run + [Fail(x, now)]) == Open
  }

  lemma LastIsHeld(c: Config, buffer: seq<Failure>, x: Failure, now: real)
    requires c.cap >= 1 && x.stamp >= now - c.window
    ensures Buffered(c, buffer, x, now) != []
  {
    var s := LastN(c.cap, buffer + [x]);
    var k := Cut(s, now - c.window);
    DropExpiredIs(s, now - c.window, k);
    assert s[|s| - 1] == x;
  }

  lemma OneIsEnough(c: Config, agent: string, run: seq<Input>, x: Failure, now: real)
    requires Sound(c) && c.threshold == 1 && StateOf(c, agent, run) == HalfOpen && x.stamp >= now - c.window
    ensures StateOf(c, agent, run + [Fail(x, now)]) == Open
  {
    LastIsHeld(c, Run(c, agent, run).breaker.buffer, x, now);
    RunAppend(c, agent, run, Fail(x, now));
  }

  /** The header holds exactly for a threshold of one. */
  lemma ProbesReopenIff(c: Config)
    requires Sound(c)
    ensures ProbesReopen(c) <==> c.threshold == 1
  {
    if c.threshold == 1 {
      forall agent, run, x, now | FailedProbe(c, agent, run, x, now) ensures StateOf(c, agent, run + [Fail(x, now)]) == Open {
        OneIsEnough(c, agent, run, x, now);
      }
    } else {
      var run, t := TrialBegins(c, "");
      var x := Failure("", "", t);
      TrialSurvives(c, "", run, t, 0, x);
      ResetFreeIsInOrder(c, run + [Fail(x, t)]);
      assert FailedProbe(c, "", run, x, t);
    }
  }

  // ---------------------------------------------------------------- the successes that close a circuit

  /** After success `a` the circuit stayed half-open, through the failed probe `b`, until the last call closed it. */
  ghost predicate Interrupted(c: Config, agent: string, run: seq<Input>, a: nat, b: nat) {
    && TimeOrdered(run) && ReplaysInOrder(c, run) && a < b < |run| - 1
    && run[a].Success? && run[b].Fail? && run[b].x.stamp >= run[b].now - c.window
    && (forall i :: a < i < |run| ==> StateOf(c, agent, run[..i]) == HalfOpen)
    && run[|run| - 1].Success? && StateOf(c, agent, run) == Closed
  }

  /** What the docstring of `record_success` says: consecutive successes close a circuit. */
  ghost predicate SuccessesConsecutive(c: Config) {
    forall agent, run, a, b :: !Interrupted(c, agent, run, a, b)
  }

  lemma NeverInterrupted(c: Config, agent: string, run: seq<Input>, a: nat, b: nat)
    requires Sound(c) && Interrupted(c, agent, run, a, b)
    ensures c.threshold >= 2 && c.successThreshold >= 2
  {
    assert StateOf(c, agent, run[..b]) == HalfOpen && StateOf(c, agent, run[..b + 1]) == HalfOpen;
    assert run[..b + 1] == run[..b] + [run[b]] && run[b] == Fail(run[b].x, run[b].now);
    if c.threshold == 1 { OneIsEnough(c, agent, run[..b], run[b].x, run[b].now); }
    assert StateOf(c, agent, run[..a + 1]) == HalfOpen;
    assert run[..a + 1] == run[..a] + [run[a]];
    RunAppend(c, agent, run[..a], run[a]);
    HalfOpenBelowThreshold(c, agent, run[..a + 1]);
  }

  lemma LastSuccessCloses(c: Config, agent: string, run: seq<Input>, t: real)
    requires Sound(c) && TimeOrdered(run) && ResetFree(run) && Clock(run) == t && StateOf(c, agent, run) == HalfOpen
    requires Run(c, agent, run).breaker.health.halfOpenSuccesses == c.successThreshold - 1
    ensures TimeOrdered(run + [Success(t)]) && ReplaysInOrder(c, run + [Success(t)])
    ensures StateOf(c, agent, run + [Success(t)]) == Closed
  {
    Then(c, agent, run, Success(t));
    ResetFreeIsInOrder(c, run + [Success(t)]);
  }

  lemma SuccessFailureSuccess(c: Config, agent: string, trial: seq<Input>, x: Failure, t: real)
    requires trial != [] && trial[|trial| - 1].Success? && x.stamp >= t - c.window
    requires StateOf(c, agent, trial) == HalfOpen && StateOf(c, agent, trial + [Fail(x, t)]) == HalfOpen
    requires var run := trial + [Fail(x, t)] + [Success(t)];
             TimeOrdered(run) && ReplaysInOrder(c, run) && StateOf(c, agent, run) == Closed
    ensures Interrupted(c, agent, trial + [Fail(x, t)] + [Success(t)], |trial| - 1, |trial|)
  {
    var run := trial + [Fail(x, t)] + [Success(t)];
    assert run[..|trial|] == trial && run[..|trial| + 1] == trial + [Fail(x, t)];
  }

  lemma InterruptionCloses(c: Config, agent: string) returns (run: seq<Input>, a: nat)
    requires Sound(c) && c.threshold >= 2 && c.successThreshold >= 2
    ensures Interrupted(c, agent, run, a, a + 1)
  {
    var trial, t := TrialGoesOn(c, agent, c.successThreshold - 1);
    var x := Failure("", "", t);
    TrialSurvives(c, agent, trial, t, c.successThreshold - 1, x);
    LastSuccessCloses(c, agent, trial + [Fail(x, t)], t);
    SuccessFailureSuccess(c, agent, trial, x, t);
    run, a := trial + [Fail(x, t)] + [Success(t)], |trial| - 1;
  }

  /** Success, failure, success closes a circuit in some run exactly when both thresholds are above one. */
  lemma SuccessesConsecutiveIff(c: Config)
    requires Sound(c)
    ensures SuccessesConsecutive(c) <==> c.threshold == 1 || c.successThreshold == 1
  {
    if c.threshold == 1 || c.successThreshold == 1 {
      forall agent, run, a, b ensures !Interrupted(c, agent, run, a, b) {
        if Interrupted(c, agent, run, a, b) { NeverInterrupted(c, agent, run, a, b); }
      }
    } else {
      var run, a := InterruptionCloses(c, "");
    }
  }
}

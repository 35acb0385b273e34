/** The process-local circuit breaker (app/http/circuit_breaker.py): a timed
    three-state machine, the class that updates it in place, and the proof that its
    three fields are a summary of the whole operation history. */
module CircuitBreaking {
  import opened Prelude

  datatype Phase = Closed | Open | HalfOpen

  datatype Config = Config(threshold: int, cooldown: real) {
    /** The threshold the constructor stores. */
    function Limit(): int { Max(1, threshold) }
  }

  datatype Snapshot = Snapshot(failures: nat, phase: Phase, openedAt: real)

  /** The three operations, with the clock reading each may take. */
  datatype Op = Allow(now: real) | Success | Failure(now: real)

  const FRESH := Snapshot(0, Closed, 0.0)

  /** The answer `allow` gives at clock reading `now`. */
  predicate Granted(c: Config, s: Snapshot, now: real) {
    s.phase.Open? ==> now - s.openedAt >= c.cooldown
  }

  function Apply(c: Config, s: Snapshot, op: Op): Snapshot {
    match op
    case Allow(now) =>
      if s.phase.Open? && now - s.openedAt >= c.cooldown then s.(phase := HalfOpen) else s
    case Success => s.(failures := 0, phase := Closed)
    case Failure(now) =>
      if s.phase.HalfOpen? || s.failures + 1 >= c.Limit()
      then Snapshot(s.failures + 1, Open, now)
      else s.(failures := s.failures + 1)
  }

  function Run(c: Config, s: Snapshot, ops: seq<Op>): Snapshot {
    if ops == [] then s else Apply(c, Run(c, s, ops[..|ops| - 1]), ops[|ops| - 1])
  }

  lemma {:induction false} RunAppend(c: Config, s: Snapshot, ops: seq<Op>, op: Op)
    ensures Run(c, s, ops + [op]) == Apply(c, Run(c, s, ops), op)
  {
    assert (ops + [op])[..|ops|] == ops;
  }

  lemma {:induction false} RunConcat(c: Config, s: Snapshot, first: seq<Op>, second: seq<Op>)
    ensures Run(c, s, first + second) == Run(c, Run(c, s, first), second)
    decreases |second|
  {
    if second == [] {
      assert first + second == first;
    } else {
      var init := second[..|second| - 1];
      assert (first + second)[..|first + second| - 1] == first + init;
      RunConcat(c, s, first, init);
    }
  }

  class CircuitBreaker {
    const config: Config
    var failures: nat
    var phase: Phase
    var openedAt: real
    /** Every operation performed so far, oldest first. */
    ghost var history: seq<Op>

    function State(): Snapshot
      reads this
    {
      Snapshot(failures, phase, openedAt)
    }

    ghost predicate Valid()
      reads this
    {
      State() == Run(config, FRESH, history)
    }

    constructor (threshold: int, cooldown: real)
      ensures Valid() && history == []
      ensures config == Config(threshold, cooldown) && State() == FRESH
    {
      config := Config(threshold, cooldown);
      failures, phase, openedAt := 0, Closed, 0.0;
      history := [];
    }

    method Allow(now: real) returns (granted: bool)
      requires Valid()
      modifies this
      ensures Valid() && history == old(history) + [Op.Allow(now)]
      ensures State() == Apply(config, old(State()), Op.Allow(now))
      ensures granted <==> Granted(config, old(State()), now)
    {
      RunAppend(config, FRESH, history, Op.Allow(now));
      history := history + [Op.Allow(now)];
      if phase == Open {
        if now - openedAt >= config.cooldown {
          phase := HalfOpen;
          return true;
        }
        return false;
      }
      return true;
    }

    method RecordSuccess()
      requires Valid()
      modifies this
      ensures Valid() && history == old(history) + [Success]
      ensures State() == Apply(config, old(State()), Success)
    {
      RunAppend(config, FRESH, history, Success);
      history := history + [Success];
      failures := 0;
      phase := Closed;
    }

    method RecordFailure(now: real)
      requires Valid()
      modifies this
      ensures Valid() && history == old(history) + [Failure(now)]
      ensures State() == Apply(config, old(State()), Failure(now))
    {
      RunAppend(config, FRESH, history, Failure(now));
      history := history + [Failure(now)];
      failures := failures + 1;
      if phase == HalfOpen || failures >= config.Limit() {
        phase := Open;
        openedAt := now;
      }
    }
  }

  // ---- What the fields mean, read off the history alone ----

  /** The operations after the last success. */
  function SinceSuccess(h: seq<Op>): seq<Op> {
    if h == [] || h[|h| - 1].Success? then []
    else SinceSuccess(h[..|h| - 1]) + [h[|h| - 1]]
  }

  /** The clock readings of the failures in a history, in order. */
  function FailureTimes(h: seq<Op>): seq<real> {
    if h == [] then []
    else FailureTimes(h[..|h| - 1]) + if h[|h| - 1].Failure? then [h[|h| - 1].now] else []
  }

  /** The operations after the last failure. */
  function SinceFailure(h: seq<Op>): seq<Op> {
    if h == [] || h[|h| - 1].Failure? then []
    else SinceFailure(h[..|h| - 1]) + [h[|h| - 1]]
  }

  /** The failures since the last success. */
  function TrailingFailures(h: seq<Op>): seq<real> { FailureTimes(SinceSuccess(h)) }

  /** Some `allow` since the last failure came at least a cooldown after it. */
  ghost predicate Probed(c: Config, h: seq<Op>)
    requires TrailingFailures(h) != []
  {
    var last := TrailingFailures(h)[|TrailingFailures(h)| - 1];
    var tail := SinceFailure(SinceSuccess(h));
    exists i :: 0 <= i < |tail| && tail[i].Allow? && tail[i].now - last >= c.cooldown
  }

  /** The three fields hold exactly what the history says. */
  ghost predicate Summarises(c: Config, s: Snapshot, h: seq<Op>) {
    var run := TrailingFailures(h);
    && s.failures == |run|
    && (s.phase.Closed? <==> |run| < 1 || |run| < c.threshold)
    && (!s.phase.Closed? ==>
          && s.openedAt == run[|run| - 1]
          && (s.phase.HalfOpen? <==> Probed(c, h)))
  }

  /** Every reachable state is the summary of its history. */
  lemma {:induction false} HistorySummary(c: Config, h: seq<Op>)
    ensures Summarises(c, Run(c, FRESH, h), h)
  {
    if h == [] {
    } else {
      var init, op := h[..|h| - 1], h[|h| - 1];
      HistorySummary(c, init);
      var before, after := SinceSuccess(init), SinceSuccess(h);
      if !op.Success? {
        assert after == before + [op] && after[..|after| - 1] == before;
        if op.Failure? {
          assert SinceFailure(after) == [];
        } else {
          assert SinceFailure(after) == SinceFailure(before) + [op];
          assert FailureTimes(after) == FailureTimes(before);
          ProbeExtends(c, init, op, h);
        }
      }
    }
  }

  lemma {:induction false} ProbeExtends(c: Config, init: seq<Op>, op: Op, h: seq<Op>)
    requires op.Allow?
    requires TrailingFailures(h) == TrailingFailures(init)
    requires SinceFailure(SinceSuccess(h)) == SinceFailure(SinceSuccess(init)) + [op]
    ensures TrailingFailures(h) != [] ==>
              var run := TrailingFailures(h);
              (Probed(c, h) <==> Probed(c, init) || op.now - run[|run| - 1] >= c.cooldown)
  {
    var older, newer := SinceFailure(SinceSuccess(init)), SinceFailure(SinceSuccess(h));
    if TrailingFailures(h) != [] {
      var last := TrailingFailures(h)[|TrailingFailures(h)| - 1];
      if Probed(c, init) {
        var i :| 0 <= i < |older| && older[i].Allow? && older[i].now - last >= c.cooldown;
        assert newer[i] == older[i];
      }
      if op.now - last >= c.cooldown {
        assert newer[|older|] == op;
      }
    }
  }

  /** When `allow` refuses, in terms of the history: the run of failures has reached the
      threshold, nothing has probed since the last failure, and the cooldown has not passed. */
  lemma {:induction false} RefusalByHistory(c: Config, h: seq<Op>, now: real)
    ensures var run := TrailingFailures(h);
            !Granted(c, Run(c, FRESH, h), now) <==>
            |run| >= 1 && |run| >= c.threshold && !Probed(c, h) && now - run[|run| - 1] < c.cooldown
  {
    HistorySummary(c, h);
  }

  /** The HALF_OPEN test in `record_failure` decides nothing: the machine without it is the
      same machine on every reachable state. */
  lemma {:induction false} HalfOpenTestIsRedundant(c: Config, h: seq<Op>, now: real)
    ensures var s := Run(c, FRESH, h);
            Apply(c, s, Failure(now)) ==
            if s.failures + 1 >= c.threshold then Snapshot(s.failures + 1, Open, now)
            else s.(failures := s.failures + 1)
  {
    HistorySummary(c, h);
  }
}

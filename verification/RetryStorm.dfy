/** What the breaker and the retry loop guarantee together over whole runs of requests. */
module RetryStorm {
  import opened Prelude
  import opened CircuitBreaking
  import opened CoreClient

  /** A run being measured: the breaker, the sends so far, the latest clock reading, and the
      reading at which the breaker first opened. */
  datatype Meter = Meter(state: Snapshot, sends: nat, clock: real, firstOpen: Option<real>)

  /** Follows one breaker operation, reading off its time and whether it opened the breaker. */
  function Observe(c: Config, m: Meter, op: Op): Meter {
    var after := Apply(c, m.state, op);
    var clock := if op.Success? then m.clock else op.now;
    m.(state := after, clock := clock,
       firstOpen := if m.firstOpen.None? && after.phase.Open? then Some(clock) else m.firstOpen)
  }

  function ObserveAll(c: Config, m: Meter, ops: seq<Op>): Meter {
    if ops == [] then m else Observe(c, ObserveAll(c, m, ops[..|ops| - 1]), ops[|ops| - 1])
  }

  function AfterCall<T>(c: Config, cfg: Settings, m: Meter, call: Call<T>): Meter {
    ObserveAll(c, m, RequestOps(Granted(c, m.state, call.now), call.now, cfg, call.env))
      .(sends := m.sends + Perform(c, cfg, m.state, call).sends)
  }

  /** The meter's breaker after a call is the one `_request` leaves. */
  lemma MeterFollowsRequest<T>(c: Config, cfg: Settings, m: Meter, call: Call<T>)
    ensures AfterCall(c, cfg, m, call).state == Perform(c, cfg, m.state, call).state
  {
    MeterFollowsBreaker(c, m, RequestOps(Granted(c, m.state, call.now), call.now, cfg, call.env));
  }

  function AfterCalls<T>(c: Config, cfg: Settings, m: Meter, calls: seq<Call<T>>): Meter {
    if calls == [] then m
    else AfterCall(c, cfg, AfterCalls(c, cfg, m, calls[..|calls| - 1]), calls[|calls| - 1])
  }

  /** The meter watches the very breaker `_request` drives. */
  lemma {:induction false} MeterFollowsBreaker(c: Config, m: Meter, ops: seq<Op>)
    ensures ObserveAll(c, m, ops).state == Run(c, m.state, ops)
    ensures ObserveAll(c, m, ops).sends == m.sends
  {
    if ops == [] {
    } else {
      MeterFollowsBreaker(c, m, ops[..|ops| - 1]);
    }
  }

  const START := Meter(FRESH, 0, 0.0, None)

  /** A network failure, a 429, or a status from 500 on. */
  predicate Down<T>(r: Reply<T>) { r.NetworkFailure? || (r.Response? && (r.code == 429 || r.code >= 500)) }

  /** Every send of the call meets core down, at non-decreasing times from its start. */
  ghost predicate Outage<T>(cfg: Settings, call: Call<T>) {
    && (forall i: nat :: i < cfg.MaxAttempts() ==> Down(call.env.At(i).reply))
    && call.env.At(0).at >= call.now
    && (forall i: nat, j: nat :: i <= j < cfg.MaxAttempts() ==> call.env.At(i).at <= call.env.At(j).at)
  }

  /** Sequential calls: each starts no earlier than the clock the previous ones reached. */
  ghost predicate Sequential<T>(c: Config, cfg: Settings, calls: seq<Call<T>>) {
    forall i :: 0 <= i < |calls| ==>
      Outage(cfg, calls[i]) && AfterCalls(c, cfg, START, calls[..i]).clock <= calls[i].now
  }

  // ---- One call during an outage ----

  lemma {:induction false} OutageSends<T>(cfg: Settings, call: Call<T>, from: nat)
    requires Outage(cfg, call) && from < cfg.MaxAttempts()
    ensures SendCount(call.env, cfg.MaxAttempts(), from) == cfg.MaxAttempts()
    decreases cfg.MaxAttempts() - from
  {
    if from + 1 < cfg.MaxAttempts() { OutageSends(cfg, call, from + 1); }
  }

  /** The meter after `n` failed sends of a permitted call, in closed form: the first send that
      finds the breaker half open, or that reaches the threshold, opens it, and it stays open. */
  function Burst<T>(c: Config, m: Meter, call: Call<T>, n: nat): Meter {
    var f := m.state.failures;
    if n == 0 then m
    else
      var at := call.env.At(n - 1).at;
      if !m.state.phase.Closed? then
        Meter(Snapshot(f + n, Open, at), m.sends, at,
              if m.firstOpen.None? then Some(call.env.At(0).at) else m.firstOpen)
      else if f + n < c.Limit() then
        Meter(Snapshot(f + n, Closed, m.state.openedAt), m.sends, at, m.firstOpen)
      else
        var first := if f + 1 >= c.Limit() then 0 else c.Limit() - 1 - f;
        Meter(Snapshot(f + n, Open, at), m.sends, at,
              if m.firstOpen.None? then Some(call.env.At(first).at) else m.firstOpen)
  }

  lemma {:induction false} BurstCorrect<T>(c: Config, cfg: Settings, m: Meter, call: Call<T>, n: nat)
    requires Outage(cfg, call) && n <= cfg.MaxAttempts()
    requires Granted(c, m.state, call.now) && (m.state.phase.Closed? ==> m.state.failures < c.Limit())
    requires !m.state.phase.Closed? ==> m.state.failures >= c.Limit() && m.firstOpen.Some?
    ensures var asked := Observe(c, m, Op.Allow(call.now));
            ObserveAll(c, m, [Op.Allow(call.now)] + AllSendOps(call.env, n)) == Burst(c, asked, call, n)
  {
    var ask, asked := [Op.Allow(call.now)], Observe(c, m, Op.Allow(call.now));
    if n == 0 {
      assert ask + AllSendOps(call.env, 0) == ask;
      ObserveOne(c, m, Op.Allow(call.now));
    } else {
      BurstCorrect(c, cfg, m, call, n - 1);
      assert Transient(call.env.At(n - 1).reply);
      Regrouped(ask, AllSendOps(call.env, n - 1), SendOps(call.env.At(n - 1)));
      ObserveAppend(c, m, ask + AllSendOps(call.env, n - 1), Failure(call.env.At(n - 1).at));
      BurstStep(c, asked, call, n);
    }
  }

  lemma {:induction false} ObserveAppend(c: Config, m: Meter, ops: seq<Op>, op: Op)
    ensures ObserveAll(c, m, ops + [op]) == Observe(c, ObserveAll(c, m, ops), op)
  {
    assert (ops + [op])[..|ops|] == ops;
  }

  lemma BurstStep<T>(c: Config, asked: Meter, call: Call<T>, n: nat)
    requires n > 0 && !asked.state.phase.Open?
    requires if asked.state.phase.Closed? then asked.state.failures < c.Limit()
             else asked.state.failures >= c.Limit() && asked.firstOpen.Some?
    ensures Observe(c, Burst(c, asked, call, n - 1), Failure(call.env.At(n - 1).at)) == Burst(c, asked, call, n)
  {
  }

  // ---- The bound ----

  /** The sends allowed once the breaker has opened and `k` cooldowns have passed. */
  function Budget(c: Config, cfg: Settings, k: nat): int {
    (if k == 0 then c.Limit() - 1 else Budget(c, cfg, k - 1)) + cfg.MaxAttempts()
  }

  function Cooldowns(c: Config, k: nat): real {
    if k == 0 then 0.0 else Cooldowns(c, k - 1) + c.cooldown
  }

  /** Between calls of an outage: every send was a failure, and once the breaker has opened it
      is open, with `k` cooldowns behind it and the sends within the budget for them. */
  ghost predicate Contained(c: Config, cfg: Settings, m: Meter, k: nat) {
    && m.sends == m.state.failures
    && match m.firstOpen
       case None => m.state.phase.Closed? && m.sends < c.Limit() && k == 0
       case Some(first) =>
         && m.state.phase.Open?
         && c.Limit() <= m.sends <= Budget(c, cfg, k)
         && first + Cooldowns(c, k) <= m.state.openedAt <= m.clock
  }

  lemma CallContained<T>(c: Config, cfg: Settings, m: Meter, call: Call<T>, k: nat) returns (k': nat)
    requires c.cooldown > 0.0
    requires Contained(c, cfg, m, k) && Outage(cfg, call) && m.clock <= call.now
    ensures Contained(c, cfg, AfterCall(c, cfg, m, call), k')
  {
    if Granted(c, m.state, call.now) {
      k' := if m.firstOpen.Some? then k + 1 else k;
      GrantedContained(c, cfg, m, call, k, k');
    } else {
      k' := k;
      assert RequestOps(false, call.now, cfg, call.env) == [Op.Allow(call.now)];
      ObserveOne(c, m, Op.Allow(call.now));
    }
  }

  lemma {:induction false} ObserveOne(c: Config, m: Meter, op: Op)
    ensures ObserveAll(c, m, [op]) == Observe(c, m, op)
  {
    assert [op][..0] == [];
    assert ObserveAll(c, m, []) == m;
  }

  lemma GrantedContained<T>(c: Config, cfg: Settings, m: Meter, call: Call<T>, k: nat, k': nat)
    requires c.cooldown > 0.0 && Granted(c, m.state, call.now)
    requires Contained(c, cfg, m, k) && Outage(cfg, call) && m.clock <= call.now
    requires k' == if m.firstOpen.Some? then k + 1 else k
    ensures Contained(c, cfg, AfterCall(c, cfg, m, call), k')
  {
    var A := cfg.MaxAttempts();
    OutageSends(cfg, call, 0);
    BurstCorrect(c, cfg, m, call, A);
    var asked := Observe(c, m, Op.Allow(call.now));
    assert AfterCall(c, cfg, m, call) == Burst(c, asked, call, A).(sends := m.sends + A);
    assert call.env.At(0).at <= call.env.At(A - 1).at;
  }

  lemma {:induction false} CallsContained<T>(c: Config, cfg: Settings, calls: seq<Call<T>>) returns (k: nat)
    requires c.cooldown > 0.0 && Sequential(c, cfg, calls)
    ensures Contained(c, cfg, AfterCalls(c, cfg, START, calls), k)
  {
    if calls == [] {
      k := 0;
    } else {
      var init, last := calls[..|calls| - 1], calls[|calls| - 1];
      assert forall i :: 0 <= i < |init| ==> init[..i] == calls[..i];
      var before := CallsContained(c, cfg, init);
      k := CallContained(c, cfg, AfterCalls(c, cfg, START, init), last, before);
    }
  }

  /** The budget and the cooldowns, multiplied out. */
  lemma {:induction false} ClosedForms(c: Config, cfg: Settings, k: nat)
    ensures Budget(c, cfg, k) == (c.Limit() - 1) + cfg.MaxAttempts() * (1 + k)
    ensures Cooldowns(c, k) == k as real * c.cooldown
  {
    if k == 0 {
    } else {
      ClosedForms(c, cfg, k - 1);
      Distribute(cfg.MaxAttempts(), k, c.cooldown);
    }
  }

  lemma Distribute(a: int, k: int, r: real)
    ensures a * (1 + k) == a * k + a
    ensures k as real * r == (k - 1) as real * r + r
  {
  }

  lemma CooldownsElapsed(k: nat, cooldown: real, span: real)
    requires cooldown > 0.0 && k as real * cooldown <= span
    ensures k <= (span / cooldown).Floor
  {
    var ratio := span / cooldown;
    if ratio < k as real {
      PositiveProduct(k as real - ratio, cooldown);
    }
  }

  lemma PositiveProduct(x: real, y: real)
    requires x > 0.0 && y > 0.0
    ensures x * y > 0.0
  {
  }

  lemma MoreCooldowns(a: int, k: int, q: int)
    requires a >= 0 && k <= q
    ensures a * (1 + k) <= a * (1 + q)
  {
  }

  lemma {:induction false} BudgetWithin(c: Config, cfg: Settings, k: nat, span: real)
    requires c.cooldown > 0.0 && Cooldowns(c, k) <= span
    ensures Budget(c, cfg, k) <= StormBound(c, cfg, span)
  {
    ClosedForms(c, cfg, k);
    CooldownsElapsed(k, c.cooldown, span);
    MoreCooldowns(cfg.MaxAttempts(), k, (span / c.cooldown).Floor);
  }

  /** The most sends within `span` of the breaker first opening. */
  function StormBound(c: Config, cfg: Settings, span: real): int
    requires c.cooldown > 0.0
  {
    (c.Limit() - 1) + cfg.MaxAttempts() * (1 + (span / c.cooldown).Floor)
  }

  predicate WithinBound(c: Config, cfg: Settings, m: Meter, now: real)
    requires c.cooldown > 0.0
  {
    match m.firstOpen
    case None => m.sends <= c.Limit() - 1
    case Some(first) => m.sends <= StormBound(c, cfg, now - first)
  }

  /** No retry storm. In every run of sequential calls from a fresh breaker in which every send
      fails transiently, fewer than the threshold are sent before the breaker opens, and by
      `now` at most A more per cooldown elapsed since, counting the one that opened it. */
  lemma {:induction false} RetryStormBound<T>(c: Config, cfg: Settings, calls: seq<Call<T>>, now: real)
    requires c.cooldown > 0.0 && Sequential(c, cfg, calls)
    requires AfterCalls(c, cfg, START, calls).clock <= now
    ensures var m := AfterCalls(c, cfg, START, calls);
            var threshold := if c.threshold > 1 then c.threshold else 1;
            var attempts := 1 + if cfg.maxRetries > 0 then cfg.maxRetries else 0;
            m.sends <= threshold - 1 +
                       if m.firstOpen.None? then 0
                       else attempts * (1 + ((now - m.firstOpen.value) / c.cooldown).Floor)
  {
    var k := CallsContained(c, cfg, calls);
    ContainedIsBounded(c, cfg, AfterCalls(c, cfg, START, calls), k, now);
  }

  lemma ContainedIsBounded(c: Config, cfg: Settings, m: Meter, k: nat, now: real)
    requires c.cooldown > 0.0 && Contained(c, cfg, m, k) && m.clock <= now
    ensures WithinBound(c, cfg, m, now)
  {
    if m.firstOpen.Some? { BudgetWithin(c, cfg, k, now - m.firstOpen.value); }
  }

  // ---- The bound is attained ----

  /** A call all of whose sends fail the moment it is made. */
  function Refused(now: real): Call<int> { Call(now, Script([], Answer(NetworkFailure, now))) }

  /** So many calls at time 0. */
  function Opening(n: nat): seq<Call<int>> { if n == 0 then [] else Opening(n - 1) + [Refused(0.0)] }

  /** The opening calls, and one more call each time a cooldown has passed. */
  function Persistent(c: Config, n: nat, k: nat): seq<Call<int>> {
    if k == 0 then Opening(n) + [Refused(0.0)] else Persistent(c, n, k - 1) + [Refused(Cooldowns(c, k))]
  }

  /** The meter after a permitted call that fails at once. */
  lemma AfterRefused(c: Config, cfg: Settings, m: Meter, now: real)
    requires Granted(c, m.state, now) && (m.state.phase.Closed? ==> m.state.failures < c.Limit())
    requires !m.state.phase.Closed? ==> m.state.failures >= c.Limit() && m.firstOpen.Some?
    ensures var A := cfg.MaxAttempts();
            AfterCall(c, cfg, m, Refused(now)) ==
            Burst(c, Observe(c, m, Op.Allow(now)), Refused(now), A).(sends := m.sends + A)
  {
    OutageSends(cfg, Refused(now), 0);
    BurstCorrect(c, cfg, m, Refused(now), cfg.MaxAttempts());
  }

  /** The calls are sequential and take the meter to `m`. */
  ghost predicate Reaches(c: Config, cfg: Settings, calls: seq<Call<int>>, m: Meter) {
    Sequential(c, cfg, calls) && AfterCalls(c, cfg, START, calls) == m
  }

  lemma OneMoreCall(c: Config, cfg: Settings, calls: seq<Call<int>>, m: Meter, now: real)
    requires Reaches(c, cfg, calls, m) && m.clock <= now
    ensures Reaches(c, cfg, calls + [Refused(now)], AfterCall(c, cfg, m, Refused(now)))
  {
    var all := calls + [Refused(now)];
    assert all[..|calls|] == calls;
    assert Outage(cfg, all[|calls|]);
    assert forall i :: 0 <= i < |calls| ==> all[i] == calls[i] && all[..i] == calls[..i];
  }

  function Counting(sends: nat): Meter { Meter(Snapshot(sends, Closed, 0.0), sends, 0.0, None) }

  function Opened(sends: nat, at: real): Meter { Meter(Snapshot(sends, Open, at), sends, at, Some(0.0)) }

  /** One more such call short of the threshold, at it, and as a probe. */
  lemma RefusedWhileClosed(c: Config, cfg: Settings, calls: seq<Call<int>>, f: nat)
    requires f + cfg.MaxAttempts() < c.Limit() && Reaches(c, cfg, calls, Counting(f))
    ensures Reaches(c, cfg, calls + [Refused(0.0)], Counting(f + cfg.MaxAttempts()))
  {
    AfterRefused(c, cfg, Counting(f), 0.0);
    OneMoreCall(c, cfg, calls, Counting(f), 0.0);
  }

  lemma RefusedAtThreshold(c: Config, cfg: Settings, calls: seq<Call<int>>, f: nat)
    requires f == c.Limit() - 1 && Reaches(c, cfg, calls, Counting(f))
    ensures Reaches(c, cfg, calls + [Refused(0.0)], Opened(f + cfg.MaxAttempts(), 0.0))
  {
    AfterRefused(c, cfg, Counting(f), 0.0);
    OneMoreCall(c, cfg, calls, Counting(f), 0.0);
  }

  lemma RefusedAsProbe(c: Config, cfg: Settings, calls: seq<Call<int>>, f: nat, at: real, now: real)
    requires c.cooldown > 0.0 && now == at + c.cooldown && f >= c.Limit() && Reaches(c, cfg, calls, Opened(f, at))
    ensures Reaches(c, cfg, calls + [Refused(now)], Opened(f + cfg.MaxAttempts(), now))
  {
    ProbeMeter(c, cfg, f, at, now);
    OneMoreCall(c, cfg, calls, Opened(f, at), now);
  }

  lemma ProbeMeter(c: Config, cfg: Settings, f: nat, at: real, now: real)
    requires now - at >= c.cooldown && f >= c.Limit()
    ensures AfterCall(c, cfg, Opened(f, at), Refused(now)) == Opened(f + cfg.MaxAttempts(), now)
  {
    AfterRefused(c, cfg, Opened(f, at), now);
  }

  lemma NoCalls(c: Config, cfg: Settings)
    ensures Reaches(c, cfg, [], Counting(0))
  {
  }

  lemma {:induction false} AfterOpening(c: Config, cfg: Settings, n: nat, f: nat)
    requires f == n * cfg.MaxAttempts() < c.Limit()
    ensures Reaches(c, cfg, Opening(n), Counting(f))
  {
    if n == 0 {
      NoCalls(c, cfg);
    } else {
      Distribute(cfg.MaxAttempts(), n - 1, 0.0);
      AfterOpening(c, cfg, n - 1, f - cfg.MaxAttempts());
      RefusedWhileClosed(c, cfg, Opening(n - 1), f - cfg.MaxAttempts());
    }
  }

  ghost predicate Persists(c: Config, cfg: Settings, n: nat, k: nat) {
    Budget(c, cfg, k) >= c.Limit() && Reaches(c, cfg, Persistent(c, n, k), Opened(Budget(c, cfg, k), Cooldowns(c, k)))
  }

  lemma {:induction false} PersistsOnce(c: Config, cfg: Settings, n: nat)
    requires Reaches(c, cfg, Opening(n), Counting(c.Limit() - 1))
    ensures Persists(c, cfg, n, 0)
  {
    RefusedAtThreshold(c, cfg, Opening(n), c.Limit() - 1);
  }

  lemma PersistsOn(c: Config, cfg: Settings, n: nat, k: nat)
    requires c.cooldown > 0.0 && k > 0 && Persists(c, cfg, n, k - 1)
    ensures Persists(c, cfg, n, k)
  {
    RefusedAsProbe(c, cfg, Persistent(c, n, k - 1), Budget(c, cfg, k - 1), Cooldowns(c, k - 1), Cooldowns(c, k));
  }

  lemma {:induction false} AfterPersistent(c: Config, cfg: Settings, n: nat, k: nat)
    requires c.cooldown > 0.0 && Persists(c, cfg, n, 0)
    ensures Persists(c, cfg, n, k)
  {
    if k == 0 {
    } else {
      AfterPersistent(c, cfg, n, k - 1);
      PersistsOn(c, cfg, n, k);
    }
  }

  /** No smaller bound would do: whenever the failures short of the threshold come in whole calls,
      a caller that keeps calling sends exactly the bound, for every number of cooldowns. */
  lemma {:induction false} RetryStormBoundIsTight(c: Config, cfg: Settings, n: nat, k: nat)
    requires c.cooldown > 0.0
    requires var threshold := if c.threshold > 1 then c.threshold else 1;
             n * (1 + if cfg.maxRetries > 0 then cfg.maxRetries else 0) == threshold - 1
    ensures var calls := Persistent(c, n, k);
            var m := AfterCalls(c, cfg, START, calls);
            var threshold := if c.threshold > 1 then c.threshold else 1;
            var attempts := 1 + if cfg.maxRetries > 0 then cfg.maxRetries else 0;
            && Sequential(c, cfg, calls)
            && m.clock == k as real * c.cooldown && m.firstOpen == Some(0.0)
            && m.sends == threshold - 1 + attempts * (1 + k)
  {
    ClosedForms(c, cfg, k);
    AfterOpening(c, cfg, n, c.Limit() - 1);
    PersistsOnce(c, cfg, n);
    AfterPersistent(c, cfg, n, k);
    BudgetIsBound(c, cfg, k);
  }

  lemma {:induction false} BudgetIsBound(c: Config, cfg: Settings, k: nat)
    requires c.cooldown > 0.0
    ensures Cooldowns(c, k) == k as real * c.cooldown
    ensures Budget(c, cfg, k) == StormBound(c, cfg, k as real * c.cooldown)
  {
    ClosedForms(c, cfg, k);
    WholeCooldowns(k, c.cooldown);
  }

  lemma WholeCooldowns(k: nat, cooldown: real)
    requires cooldown > 0.0
    ensures (k as real * cooldown / cooldown).Floor == k
  {
    assert k as real * cooldown / cooldown == k as real;
  }

  // ---- Probing: what "exactly one probe" really means ----

  /** The breaker's promise of a single probe fails: with one retry, a granted half-open call
      sends twice. */
  lemma ProbeMaySendTwice()
    ensures var c, cfg := Config(1, 30.0), Settings(1, 0.0, 0.0);
            var env: Script<int> := Script([], Answer(NetworkFailure, 31.0));
            var s := Run(c, FRESH, [Failure(0.0)]);
            s.phase.Open? && Granted(c, s, 30.0) && SendCount(env, cfg.MaxAttempts()) == 2
  {
    var c := Config(1, 30.0);
    RunAppend(c, FRESH, [], Failure(0.0));
    assert [] + [Failure(0.0)] == [Failure(0.0)];
  }

  /** A granted call is a single probe exactly when no retry is configured or the first reply
      is not a transient failure. */
  lemma {:induction false} SingleProbe<T>(cfg: Settings, env: Script<T>)
    ensures SendCount(env, cfg.MaxAttempts()) == 1 <==>
            cfg.maxRetries <= 0 || !Down(env.At(0).reply)
  {
    SendCountCorrect(env, cfg.MaxAttempts(), 0);
  }

  /** After a call granted in OPEN or HALF_OPEN, further calls within the cooldown are refused
      exactly when its first reply was a transient failure, which re-opens the breaker, and its
      last reply was not a success, which closes it even though the same call had re-opened it.
      A first reply that is a non-transient error leaves the breaker half open. */
  lemma {:induction false} RefusedAfterProbe<T>(c: Config, s: Snapshot, now: real, cfg: Settings, env: Script<T>,
                                                later: real)
    requires c.cooldown > 0.0 && !s.phase.Closed? && Granted(c, s, now)
    requires s.failures >= 1 && s.failures >= c.threshold
    requires var n := SendCount(env, cfg.MaxAttempts());
             forall i: nat :: i < n ==> later - env.At(i).at < c.cooldown
    ensures var n := SendCount(env, cfg.MaxAttempts());
            !Granted(c, Run(c, s, RequestOps(true, now, cfg, env)), later) <==>
            var last := env.At(n - 1).reply;
            Down(env.At(0).reply) && !(last.Response? && 200 <= last.code <= 299)
  {
    SendCountCorrect(env, cfg.MaxAttempts(), 0);
    StateAfterProbe(c, s, now, cfg, env);
  }

  /** The breaker after a call granted in OPEN or HALF_OPEN. */
  lemma {:induction false} StateAfterProbe<T>(c: Config, s: Snapshot, now: real, cfg: Settings, env: Script<T>)
    requires !s.phase.Closed? && Granted(c, s, now) && s.failures >= 1 && s.failures >= c.threshold
    ensures var n := SendCount(env, cfg.MaxAttempts());
            LeftBy(env, n, Run(c, s, RequestOps(true, now, cfg, env)))
  {
    var n := SendCount(env, cfg.MaxAttempts());
    SendCountCorrect(env, cfg.MaxAttempts(), 0);
    ProbeFailures(c, s, now, env, n - 1);
    Regrouped([Op.Allow(now)], AllSendOps(env, n - 1), SendOps(env.At(n - 1)));
    LastSend(c, s, [Op.Allow(now)] + AllSendOps(env, n - 1), env, n);
  }

  /** The breaker as the last of `n` sends of a probe leaves it. */
  ghost predicate LeftBy<T>(env: Script<T>, n: nat, after: Snapshot)
    requires n > 0
  {
    var last := env.At(n - 1);
    if last.reply.Response? && 200 <= last.reply.code <= 299 then after.phase == Closed
    else if Down(last.reply) then after.phase == Open && after.openedAt == last.at
    else if n > 1 then after.phase == Open && after.openedAt == env.At(n - 2).at
    else after.phase == HalfOpen
  }

  lemma {:induction false} LastSend<T>(c: Config, s: Snapshot, ops: seq<Op>, env: Script<T>, n: nat)
    requires n > 0 && s.failures >= c.Limit() && Run(c, s, ops) == AfterSends(s, env, n - 1)
    ensures LeftBy(env, n, Run(c, s, ops + SendOps(env.At(n - 1))))
  {
    RunOneSend(c, s, ops, env.At(n - 1));
  }

  /** What one more answer does to the breaker. */
  lemma {:induction false} RunOneSend<T>(c: Config, s: Snapshot, ops: seq<Op>, a: Answer<T>)
    ensures var before, after := Run(c, s, ops), Run(c, s, ops + SendOps(a));
            if Accepted(a.reply) then after == Apply(c, before, Success)
            else if Transient(a.reply) then after == Apply(c, before, Failure(a.at))
            else after == before
  {
    if |SendOps(a)| == 0 {
      assert ops + [] == ops;
    } else {
      RunAppend(c, s, ops, SendOps(a)[0]);
      assert SendOps(a) == [SendOps(a)[0]];
    }
  }

  lemma {:induction false} ProbeFailures<T>(c: Config, s: Snapshot, now: real, env: Script<T>, n: nat)
    requires !s.phase.Closed? && Granted(c, s, now) && s.failures >= c.Limit()
    requires forall i: nat :: i < n ==> Transient(env.At(i).reply)
    ensures Run(c, s, [Op.Allow(now)] + AllSendOps(env, n)) == AfterSends(s, env, n)
  {
    if n == 0 {
      assert [Op.Allow(now)] + AllSendOps(env, 0) == [] + [Op.Allow(now)];
      RunAppend(c, s, [], Op.Allow(now));
    } else {
      ProbeFailures(c, s, now, env, n - 1);
      assert Transient(env.At(n - 1).reply);
      OneMoreFailure(c, s, now, env, n);
    }
  }

  /** The breaker after a granted probe and `n` failed sends. */
  function AfterSends<T>(s: Snapshot, env: Script<T>, n: nat): Snapshot {
    if n == 0 then s.(phase := HalfOpen) else Snapshot(s.failures + n, Open, env.At(n - 1).at)
  }

  lemma OneMoreFailure<T>(c: Config, s: Snapshot, now: real, env: Script<T>, n: nat)
    requires n > 0 && Transient(env.At(n - 1).reply) && s.failures >= c.Limit()
    requires Run(c, s, [Op.Allow(now)] + AllSendOps(env, n - 1)) == AfterSends(s, env, n - 1)
    ensures Run(c, s, [Op.Allow(now)] + AllSendOps(env, n)) == AfterSends(s, env, n)
  {
    Regrouped([Op.Allow(now)], AllSendOps(env, n - 1), SendOps(env.At(n - 1)));
    RunOneSend(c, s, [Op.Allow(now)] + AllSendOps(env, n - 1), env.At(n - 1));
  }
}

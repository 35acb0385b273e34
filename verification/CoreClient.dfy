/** The callback client's bounded retry loop (app/http/lingo_core_client.py). */
module CoreClient {
  import opened Prelude
  import opened CircuitBreaking

  /** What one send meets: an HTTP response whose body may or may not be JSON, a network
      failure, or any other exception raised by `send`. */
  datatype Reply<+T> = Response(code: int, json: Option<T>) | NetworkFailure | OtherFailure

  /** A reply, and the clock reading when it had been received. */
  datatype Answer<+T> = Answer(reply: Reply<T>, at: real)

  /** What the sends of one request meet, in order: the listed answers, then `rest` for ever. */
  datatype Script<+T> = Script(answers: seq<Answer<T>>, rest: Answer<T>) {
    function At(i: nat): Answer<T> { if i < |answers| then answers[i] else rest }
  }

  datatype Error = HttpStatus(code: int) | Transport | BadJson | Unexpected | CircuitOpen

  datatype Settings = Settings(maxRetries: int, backoffBase: real, backoffMax: real) {
    function MaxAttempts(): (n: nat)
      ensures n >= 1
    {
      1 + Max(0, maxRetries)
    }
  }

  predicate IsTransient(e: Error) {
    match e
    case HttpStatus(code) => code >= 500 || code == 429
    case Transport => true
    case _ => false
  }

  function Power2(n: nat): nat {
    if n == 0 then 1 else 2 * Power2(n - 1)
  }

  /** `base * 2**n`, by doubling. */
  function Doubled(base: real, n: nat): real {
    if n == 0 then base else 2.0 * Doubled(base, n - 1)
  }

  lemma {:induction false} DoubledIsProduct(base: real, n: nat)
    ensures Doubled(base, n) == base * Power2(n) as real
  {
    if n == 0 {
    } else {
      DoubledIsProduct(base, n - 1);
      var p := Power2(n - 1) as real;
      assert base * (2.0 * p) == 2.0 * (base * p);
    }
  }

  function BackoffDelay(cfg: Settings, attempt: nat): real {
    var base := Doubled(cfg.backoffBase, attempt);
    if base <= cfg.backoffMax then base else cfg.backoffMax
  }

  /** `raise_for_status` lets 2xx through. */
  predicate Accepted<T>(r: Reply<T>) { r.Response? && 200 <= r.code < 300 }

  /** What the body of the `try` returns or raises for a reply. */
  function Settle<T>(r: Reply<T>): Result<T, Error> {
    match r
    case Response(code, json) =>
      if !(200 <= code < 300) then Err(HttpStatus(code))
      else if json.Some? then Ok(json.value) else Err(BadJson)
    case NetworkFailure => Err(Transport)
    case OtherFailure => Err(Unexpected)
  }

  predicate Transient<T>(r: Reply<T>) { Settle(r).Err? && IsTransient(Settle(r).error) }

  /** The number of sends of a permitted request: up to the first reply that is not a
      transient failure, and never more than `limit`. */
  ghost predicate IsSendCount<T>(env: Script<T>, limit: nat, n: nat) {
    && 1 <= n <= limit
    && (forall i: nat :: i < n - 1 ==> Transient(env.At(i).reply))
    && (n < limit ==> !Transient(env.At(n - 1).reply))
  }

  function SendCount<T>(env: Script<T>, limit: nat, from: nat := 0): (n: nat)
    requires from < limit
    ensures from < n <= limit
    decreases limit - from
  {
    if from + 1 < limit && Transient(env.At(from).reply) then SendCount(env, limit, from + 1)
    else from + 1
  }

  lemma {:induction false} SendCountCorrect<T>(env: Script<T>, limit: nat, from: nat)
    requires from < limit
    requires forall i: nat :: i < from ==> Transient(env.At(i).reply)
    ensures IsSendCount(env, limit, SendCount(env, limit, from))
    decreases limit - from
  {
    if from + 1 < limit && Transient(env.At(from).reply) {
      SendCountCorrect(env, limit, from + 1);
    }
  }

  /** The count meets its definition, and nothing else does. */
  lemma {:induction false} SendCountExact<T>(env: Script<T>, limit: nat, n: nat)
    requires limit > 0
    ensures IsSendCount(env, limit, n) <==> n == SendCount(env, limit)
  {
    SendCountCorrect(env, limit, 0);
  }

  /** The breaker operations one answer causes. */
  function SendOps<T>(a: Answer<T>): seq<Op> {
    if Accepted(a.reply) then [Success]
    else if Transient(a.reply) then [Failure(a.at)]
    else []
  }

  /** The breaker operations of the first `n` answers. */
  function AllSendOps<T>(env: Script<T>, n: nat): seq<Op> {
    if n == 0 then [] else AllSendOps(env, n - 1) + SendOps(env.At(n - 1))
  }

  /** The backoff slept after the first `n` failed attempts. */
  function TotalDelay(cfg: Settings, n: nat): real {
    if n == 0 then 0.0 else TotalDelay(cfg, n - 1) + BackoffDelay(cfg, n - 1)
  }

  /** The breaker operations of a whole request. */
  function RequestOps<T>(granted: bool, now: real, cfg: Settings, env: Script<T>): seq<Op> {
    [Op.Allow(now)] + if granted then AllSendOps(env, SendCount(env, cfg.MaxAttempts())) else []
  }

  /** What a request returns or raises. */
  function RequestResult<T>(granted: bool, cfg: Settings, env: Script<T>): Result<T, Error> {
    if !granted then Err(CircuitOpen) else Settle(env.At(SendCount(env, cfg.MaxAttempts()) - 1).reply)
  }

  /** One call of `_request`: when it asks the breaker, and what its sends would meet. */
  datatype Call<+T> = Call(now: real, env: Script<T>)

  /** What a call does to the breaker, what it returns or raises, and how often it sends. */
  datatype Performed<+T> = Performed(state: Snapshot, result: Result<T, Error>, sends: nat)

  function Perform<T>(c: Config, cfg: Settings, s: Snapshot, call: Call<T>): Performed<T> {
    var granted := Granted(c, s, call.now);
    Performed(Run(c, s, RequestOps(granted, call.now, cfg, call.env)),
              RequestResult(granted, cfg, call.env),
              if granted then SendCount(call.env, cfg.MaxAttempts()) else 0)
  }

  /** `_request`: asks the breaker once, then sends until a reply settles the matter. */
  method Request<T>(breaker: CircuitBreaker, cfg: Settings, now: real, env: Script<T>)
    returns (result: Result<T, Error>, sends: nat, slept: real)
    requires breaker.Valid()
    modifies breaker
    ensures breaker.Valid()
    ensures var granted := Granted(breaker.config, old(breaker.State()), now);
            && sends == (if granted then SendCount(env, cfg.MaxAttempts()) else 0)
            && result == RequestResult(granted, cfg, env)
            && breaker.history == old(breaker.history) + RequestOps(granted, now, cfg, env)
            && slept == if granted then TotalDelay(cfg, sends - 1) else 0.0
  {
    var granted := breaker.Allow(now);
    if !granted {
      return Err(CircuitOpen), 0, 0.0;
    }
    result, sends, slept := Attempts(breaker, cfg, env);
  }

  /** The attempts of a permitted request. */
  method Attempts<T>(breaker: CircuitBreaker, cfg: Settings, env: Script<T>)
    returns (result: Result<T, Error>, sends: nat, slept: real)
    requires breaker.Valid()
    modifies breaker
    ensures breaker.Valid()
    ensures sends == SendCount(env, cfg.MaxAttempts()) && result == Settle(env.At(sends - 1).reply)
    ensures breaker.history == old(breaker.history) + AllSendOps(env, sends)
    ensures slept == TotalDelay(cfg, sends - 1)
  {
    var maxAttempts := cfg.MaxAttempts();
    result, sends, slept := Err(CircuitOpen), 0, 0.0;
    while sends < maxAttempts
      invariant sends <= maxAttempts && breaker.Valid()
      invariant sends < maxAttempts ==>
                  SendCount(env, maxAttempts, sends) == SendCount(env, maxAttempts) && slept == TotalDelay(cfg, sends)
      invariant sends == maxAttempts ==>
                  && SendCount(env, maxAttempts) == sends && result == Settle(env.At(sends - 1).reply)
                  && slept == TotalDelay(cfg, sends - 1)
      invariant breaker.history == old(breaker.history) + AllSendOps(env, sends)
    {
      OneMoreSend(env, maxAttempts, sends);
      Regrouped(old(breaker.history), AllSendOps(env, sends), SendOps(env.At(sends)));
      result := SendOnce(breaker, env.At(sends));
      sends := sends + 1;
      if result.Ok? || !IsTransient(result.error) {
        return;
      }
      if sends < maxAttempts {
        slept := slept + BackoffDelay(cfg, sends - 1);
      }
    }
  }

  /** What one more send tells about the number of sends. */
  lemma OneMoreSend<T>(env: Script<T>, limit: nat, n: nat)
    requires n < limit && SendCount(env, limit, n) == SendCount(env, limit)
    ensures if n + 1 < limit && Transient(env.At(n).reply) then SendCount(env, limit, n + 1) == SendCount(env, limit)
            else SendCount(env, limit) == n + 1
    ensures AllSendOps(env, n + 1) == AllSendOps(env, n) + SendOps(env.At(n))
  {
  }

  lemma Regrouped(a: seq<Op>, b: seq<Op>, d: seq<Op>)
    ensures a + (b + d) == (a + b) + d
  {
  }

  /** One turn of the loop: the send, and what the breaker is told about it. */
  method SendOnce<T>(breaker: CircuitBreaker, answer: Answer<T>) returns (result: Result<T, Error>)
    requires breaker.Valid()
    modifies breaker
    ensures breaker.Valid()
    ensures result == Settle(answer.reply) && breaker.history == old(breaker.history) + SendOps(answer)
  {
    result := Settle(answer.reply);
    if Accepted(answer.reply) {
      breaker.RecordSuccess();
    }
    if result.Err? && IsTransient(result.error) {
      breaker.RecordFailure(answer.at);
    }
  }

  /** `list_quests`, `bump_progress` and `add_xp`: each one `_request` on the shared breaker. */
  method Callback<T>(breaker: CircuitBreaker, cfg: Settings, call: Call<T>)
    returns (result: Result<T, Error>, sends: nat)
    requires breaker.Valid()
    modifies breaker
    ensures breaker.Valid()
    ensures Performed(breaker.State(), result, sends) == Perform(breaker.config, cfg, old(breaker.State()), call)
  {
    ghost var granted := Granted(breaker.config, breaker.State(), call.now);
    RunConcat(breaker.config, FRESH, breaker.history, RequestOps(granted, call.now, cfg, call.env));
    var slept;
    result, sends, slept := Request(breaker, cfg, call.now, call.env);
  }

  /** How a permitted request ends: with a payload, with the one non-transient error that
      stopped it, or with a transient error after exactly the maximum number of sends. */
  lemma {:induction false} RequestEndings<T>(cfg: Settings, env: Script<T>)
    ensures var n, r := SendCount(env, cfg.MaxAttempts()), RequestResult(true, cfg, env);
            var last, most := env.At(n - 1).reply, 1 + if cfg.maxRetries > 0 then cfg.maxRetries else 0;
            && 1 <= n <= most
            && (r.Ok? ==> last.Response? && 200 <= last.code <= 299 && last.json == Some(r.value))
            && (r == Err(Transport) ==> n == most)
            && (r.Err? && r.error.HttpStatus? && (r.error.code == 429 || r.error.code >= 500) ==> n == most)
            && (r == Err(BadJson) <==> last.Response? && 200 <= last.code <= 299 && last.json.None?)
            && r != Err(CircuitOpen)
  {
    SendCountCorrect(env, cfg.MaxAttempts(), 0);
  }

  /** A request that raises because a 2xx body is not JSON has closed the breaker. */
  lemma {:induction false} BadJsonClosesBreaker<T>(c: Config, s: Snapshot, now: real, cfg: Settings, env: Script<T>)
    requires Granted(c, s, now)
    requires RequestResult(true, cfg, env) == Err(BadJson)
    ensures var after := Run(c, s, RequestOps(true, now, cfg, env));
            after.phase == Closed && after.failures == 0
  {
    var n := SendCount(env, cfg.MaxAttempts());
    RequestEndings(cfg, env);
    var ops := AllSendOps(env, n - 1);
    assert RequestOps(true, now, cfg, env) == ([Op.Allow(now)] + ops) + [Success];
    RunAppend(c, s, [Op.Allow(now)] + ops, Success);
  }

  /** The sleep of `n` retries is at most `n` caps, and at most the geometric sum of the
      uncapped delays, which is base * (2**n - 1). */
  lemma {:induction false} SleepBound(cfg: Settings, n: nat)
    requires cfg.backoffBase >= 0.0 && cfg.backoffMax >= 0.0
    ensures 0.0 <= TotalDelay(cfg, n) <= n as real * cfg.backoffMax
    ensures TotalDelay(cfg, n) <= Doubled(cfg.backoffBase, n) - cfg.backoffBase
    ensures Doubled(cfg.backoffBase, n) >= 0.0
  {
    if n == 0 {
    } else {
      SleepBound(cfg, n - 1);
      OneMoreCap(cfg.backoffMax, n);
    }
  }

  lemma OneMoreCap(cap: real, n: nat)
    requires n > 0
    ensures n as real * cap == (n - 1) as real * cap + cap
  {
    var y := (n - 1) as real;
    assert (y + 1.0) * cap == y * cap + cap;
  }

  // ---- By status code and setting ----

  /** What the breaker is told of the first `n` answers, by status code. */
  function ToldByCode<T>(env: Script<T>, n: nat): seq<Op> {
    if n == 0 then []
    else
      var r, at := env.At(n - 1).reply, env.At(n - 1).at;
      ToldByCode(env, n - 1) +
      if r.Response? && 200 <= r.code <= 299 then [Success]
      else if r.NetworkFailure? || (r.Response? && (r.code == 429 || r.code >= 500)) then [Failure(at)] else []
  }

  lemma {:induction false} ToldIsSaid<T>(env: Script<T>, n: nat)
    ensures AllSendOps(env, n) == ToldByCode(env, n)
  {
    if n == 0 {
    } else {
      ToldIsSaid(env, n - 1);
    }
  }

  /** A callback, by status code and number of retries. It is refused only in an open breaker within the
      cooldown, and then sends nothing. Otherwise every reply but the last is a network failure, a 429
      or a status from 500 on; if retries are left the last is none of these; and it returns or raises
      what the last reply says. The breaker is told a failure of exactly these replies and a success of
      exactly those with a status from 200 to 299. */
  lemma {:induction false} CallByCode<T>(c: Config, cfg: Settings, s: Snapshot, call: Call<T>)
    ensures var p, most := Perform(c, cfg, s, call), 1 + if cfg.maxRetries > 0 then cfg.maxRetries else 0;
            if s.phase.Open? && call.now - s.openedAt < c.cooldown then
              p == Performed(s, Err(CircuitOpen), 0)
            else
              var last := call.env.At(p.sends - 1).reply;
              && 1 <= p.sends <= most
              && (forall i: nat :: i < p.sends - 1 ==>
                    var r := call.env.At(i).reply;
                    r.NetworkFailure? || (r.Response? && (r.code == 429 || r.code >= 500)))
              && (p.sends < most ==>
                    !last.NetworkFailure? && !(last.Response? && (last.code == 429 || last.code >= 500)))
              && p.state == Run(c, s, [Op.Allow(call.now)] + ToldByCode(call.env, p.sends))
              && p.result == match last
                             case NetworkFailure => Err(Transport)
                             case OtherFailure => Err(Unexpected)
                             case Response(code, json) =>
                               if code < 200 || code > 299 then Err(HttpStatus(code))
                               else if json.Some? then Ok(json.value) else Err(BadJson)
  {
    if Granted(c, s, call.now) {
      SendCountCorrect(call.env, cfg.MaxAttempts(), 0);
      ToldIsSaid(call.env, SendCount(call.env, cfg.MaxAttempts()));
    } else {
      RunAppend(c, s, [], Op.Allow(call.now));
      assert [] + [Op.Allow(call.now)] == [Op.Allow(call.now)] + [];
    }
  }

  /** The delay before the retry after attempt `i` is the smaller of base * 2**i and the cap. */
  lemma {:induction false} DelayExactly(cfg: Settings, i: nat)
    ensures var uncapped := cfg.backoffBase * Power2(i) as real;
            BackoffDelay(cfg, i) == if uncapped < cfg.backoffMax then uncapped else cfg.backoffMax
  {
    DoubledIsProduct(cfg.backoffBase, i);
  }

  /** The sleep of `n` retries, exactly: nothing for none, and for one more the smaller of the doubled
      base and the cap. */
  lemma SleepExactly(cfg: Settings, n: nat)
    ensures TotalDelay(cfg, 0) == 0.0
    ensures var uncapped := cfg.backoffBase * Power2(n) as real;
            TotalDelay(cfg, n + 1) ==
            TotalDelay(cfg, n) + if uncapped < cfg.backoffMax then uncapped else cfg.backoffMax
  {
    DelayExactly(cfg, n);
  }
}

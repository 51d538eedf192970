/** The per-role fixed-window rate limiter over a counter store with expiring keys. Times are in milliseconds;
    the store and the gateway read one clock. */
module RateLimit {
  import opened SharedTypes

  datatype Role = Viewer | Analyst | Operator | SuperAdmin

  type Seconds = n: int | n >= 1 witness 1

  datatype RateLimitRule = RateLimitRule(limit: nat, windowSec: Seconds)

  type Config = Role -> RateLimitRule

  datatype Decision = Decision(allowed: bool, limit: nat, remaining: nat, retryAfterSec: nat)

  function Ceil1000(ms: nat): nat {
    (ms + 999) / 1000
  }

  function DecideRateLimit(countAfterIncrement: nat, rule: RateLimitRule, ttlMs: int): Decision {
    if countAfterIncrement <= rule.limit then
      Decision(true, rule.limit, rule.limit - countAfterIncrement, 0)
    else
      var ttlSec := if ttlMs > 0 then Ceil1000(ttlMs) else rule.windowSec;
      Decision(false, rule.limit, 0, if ttlSec >= 1 then ttlSec else 1)
  }

  function RoleName(role: Role): string {
    match role
    case Viewer => "viewer"
    case Analyst => "analyst"
    case Operator => "operator"
    case SuperAdmin => "super_admin"
  }

  function WindowIndex(windowSec: Seconds, nowSec: nat): nat {
    nowSec / windowSec
  }

  function RateLimitKey(role: Role, windowSec: Seconds, nowSec: nat): string {
    "ratelimit:" + RoleName(role) + ":" + Decimal(WindowIndex(windowSec, nowSec))
  }

  // ----- the counter store -----

  type Positive = n: int | n >= 1 witness 1

  datatype Counter = Counter(count: Positive, expiresAt: int)

  type Counters = map<string, Counter>

  /** The atomic script: increment, arm the expiry on first use, report count and remaining time. An expired
      key counts as absent. */
  function AfterScript(counters: Counters, key: string, windowMs: int, now: int): Counters {
    var live := key in counters && now < counters[key].expiresAt;
    counters[key :=
      if live then Counter(counters[key].count + 1, counters[key].expiresAt) else Counter(1, now + windowMs)]
  }

  class CounterStore {
    var counters: Counters

    constructor ()
      ensures counters == map[]
    {
      counters := map[];
    }

    method Eval(key: string, windowMs: int, now: int) returns (current: nat, ttl: int)
      modifies this
      ensures counters == AfterScript(old(counters), key, windowMs, now)
      ensures key in counters && current == counters[key].count && ttl == counters[key].expiresAt - now
    {
      if key in counters && now < counters[key].expiresAt {
        counters := counters[key := Counter(counters[key].count + 1, counters[key].expiresAt)];
      } else {
        counters := counters[key := Counter(1, now)];
      }
      if counters[key].count == 1 {
        counters := counters[key := Counter(1, now + windowMs)];
      }
      current, ttl := counters[key].count, counters[key].expiresAt - now;
    }
  }

  function KeyAt(config: Config, role: Role, now: nat): string {
    RateLimitKey(role, config(role).windowSec, now / 1000)
  }

  function AfterConsume(config: Config, counters: Counters, role: Role, now: nat): Counters {
    AfterScript(counters, KeyAt(config, role, now), config(role).windowSec * 1000, now)
  }

  function DecisionAt(config: Config, counters: Counters, role: Role, now: nat): Decision {
    var key := KeyAt(config, role, now);
    var after := AfterConsume(config, counters, role, now);
    DecideRateLimit(after[key].count, config(role), after[key].expiresAt - now)
  }

  class RateLimiterService {
    const store: CounterStore
    const config: Config

    constructor (config: Config)
      ensures this.config == config && fresh(store) && store.counters == map[]
    {
      this.config := config;
      store := new CounterStore();
    }

    method Consume(role: Role, now: nat) returns (decision: Decision)
      modifies store
      ensures store.counters == AfterConsume(config, old(store.counters), role, now)
      ensures decision == DecisionAt(config, old(store.counters), role, now)
    {
      var rule := config(role);
      var nowSec := now / 1000;
      var key := RateLimitKey(role, rule.windowSec, nowSec);
      var count, ttlMs := store.Eval(key, rule.windowSec * 1000, now);
      decision := DecideRateLimit(count, rule, ttlMs);
    }
  }
}

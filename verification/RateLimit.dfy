/**
  The per-client token bucket, over exact reals; times are in seconds.
 */
module RateLimit {

  /** A bucket's level and the time it was last refilled. */
  datatype Level = Level(tokens: real, lastRefill: real)

  datatype Limits = Limits(rate: real, burst: real)

  function LimitsOf(perMinute: int, burst: int): (l: Limits)
    ensures l.rate > 0.0 && l.burst >= 1.0
    ensures l.rate * 60.0 == (if perMinute > 0 then perMinute else 120) as real
    ensures l.burst == (if burst > 0 then burst else 20) as real
  {
    Limits((if perMinute <= 0 then 120 else perMinute) as real / 60.0,
           (if burst <= 0 then 20 else burst) as real)
  }

  /** Tokens earned between two times. */
  function Accrued(l: Limits, from: real, to: real): real {
    (to - from) * l.rate
  }

  function Refilled(l: Limits, b: Level, now: real): real {
    var t := b.tokens + Accrued(l, b.lastRefill, now);
    if t > l.burst then l.burst else t
  }

  function Next(l: Limits, b: Level, now: real): Level {
    var t := Refilled(l, b, now);
    Level(if t < 1.0 then t else t - 1.0, now)
  }

  /** The bucket the last of these requests finds: full for a client never seen. */
  function Before(l: Limits, times: seq<real>): Level
    requires times != []
    decreases |times|, 0
  {
    if |times| == 1 then Level(l.burst, times[0]) else After(l, times[..|times| - 1])
  }

  /** The bucket of a client after the requests it made at the given times. */
  function After(l: Limits, times: seq<real>): Level
    requires times != []
    decreases |times|, 1
  {
    Next(l, Before(l, times), times[|times| - 1])
  }

  /** Whether the last of these requests is let through. */
  predicate Admits(l: Limits, times: seq<real>)
    requires times != []
  {
    Refilled(l, Before(l, times), times[|times| - 1]) >= 1.0
  }

  class ClientBucket {
    var tokens: real
    var lastRefill: real
    ghost const owner: string

    constructor (tokens: real, lastRefill: real, ghost owner: string)
      ensures Value() == Level(tokens, lastRefill) && this.owner == owner
    {
      this.tokens, this.lastRefill, this.owner := tokens, lastRefill, owner;
    }

    function Value(): Level
      reads this
    {
      Level(tokens, lastRefill)
    }

    method Take(limits: Limits, now: real) returns (admitted: bool)
      modifies this
      ensures Value() == Next(limits, old(Value()), now)
      ensures admitted <==> Refilled(limits, old(Value()), now) >= 1.0
    {
      var elapsed := Accrued(limits, lastRefill, now);
      tokens := tokens + elapsed;
      if tokens > limits.burst {
        tokens := limits.burst;
      }
      lastRefill := now;
      if tokens < 1.0 {
        return false;
      }
      tokens := tokens - 1.0;
      return true;
    }
  }

  class RateLimiter {
    const limits: Limits
    var clients: map<string, ClientBucket>
    ghost var arrivals: map<string, seq<real>>

    /** Each client has a bucket of its own, holding what its own arrivals left. */
    ghost predicate Valid()
      reads this, clients.Values
    {
      && clients.Keys == arrivals.Keys
      && (forall ip :: ip in clients ==> clients[ip].owner == ip && arrivals[ip] != [] && clients[ip].Value() == After(limits, arrivals[ip]))
    }

    constructor (perMinute: int, burst: int)
      ensures Valid() && limits == LimitsOf(perMinute, burst) && arrivals == map[]
    {
      limits := LimitsOf(perMinute, burst);
      clients, arrivals := map[], map[];
    }

    ghost function ArrivalsOf(ip: string): seq<real>
      reads this
    {
      if ip in arrivals then arrivals[ip] else []
    }

    /** The client's bucket, created full on first sight. */
    method BucketOf(ip: string, now: real) returns (bucket: ClientBucket)
      requires Valid()
      modifies this`clients
      ensures clients == old(clients)[ip := bucket]
      ensures bucket.owner == ip
      ensures if ip in old(clients) then bucket == old(clients[ip]) else fresh(bucket)
      ensures bucket.Value() == Before(limits, ArrivalsOf(ip) + [now])
    {
      hide After;
      if ip in clients {
        bucket := clients[ip];
        assert (arrivals[ip] + [now])[..|arrivals[ip]|] == arrivals[ip];
      } else {
        bucket := new ClientBucket(limits.burst, now, ip);
        clients := clients[ip := bucket];
      }
    }

    /** The decision is a function of this client's arrivals alone. */
    method Handle(ip: string, now: real) returns (admitted: bool)
      requires Valid()
      modifies this, clients.Values
      ensures Valid()
      ensures arrivals == old(arrivals)[ip := old(ArrivalsOf(ip)) + [now]]
      ensures admitted <==> Admits(limits, old(ArrivalsOf(ip)) + [now])
    {
      ghost var times := ArrivalsOf(ip) + [now];
      AfterStep(limits, times);
      hide After, Before, Next, Refilled, Admits;
      var bucket := BucketOf(ip, now);
      admitted := bucket.Take(limits, now);
      arrivals := arrivals[ip := times];
      forall ip' | ip' in clients
        ensures clients[ip'].owner == ip' && arrivals[ip'] != [] && clients[ip'].Value() == After(limits, arrivals[ip'])
      {
        if ip' != ip {
          assert clients[ip'].Value() == old(clients[ip'].Value());
        }
      }
    }
  }

  lemma AfterStep(l: Limits, times: seq<real>)
    requires times != []
    ensures After(l, times) == Next(l, Before(l, times), times[|times| - 1])
    ensures Admits(l, times) <==> Refilled(l, Before(l, times), times[|times| - 1]) >= 1.0
  {
  }
}

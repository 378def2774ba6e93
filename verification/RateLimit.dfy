/** The fixed-window rate limiter (pkg/dns/ratelimiter.go). */
module RateLimit {
  import opened Bytes

  /** Request counts of one address; times are integers, in any unit. */
  datatype Bucket = Bucket(count: int, resetTime: int)
  type Buckets = map<bytes, Bucket>
  datatype Limits = Limits(maxRequests: int, window: nat, maxTrackedIps: nat)

  predicate Expired(b: Buckets, ip: bytes, now: int) {
    ip in b && now > b[ip].resetTime
  }

  predicate SomeExpired(b: Buckets, now: int) {
    exists ip :: ip in b && Expired(b, ip, now)
  }

  predicate Oldest(b: Buckets, ip: bytes) {
    ip in b && forall k :: k in b ==> b[ip].resetTime <= b[k].resetTime
  }

  /** What `evictExpiredOrOldest` may delete, in whatever order the map is walked: an expired bucket
      if there is one, else one with the least reset time -- unless its key is the empty string. */
  ghost predicate Evictable(b: Buckets, now: int, victim: Option<bytes>) {
    if SomeExpired(b, now) then victim.Some? && Expired(b, victim.value, now)
    else if victim.Some? then Oldest(b, victim.value) && victim.value != []
    else b == map[] || Oldest(b, [])
  }

  function Without(b: Buckets, victim: Option<bytes>): Buckets {
    if victim.Some? then b - {victim.value} else b
  }

  /** A request of `ip` finds no bucket that still counts. */
  predicate Creates(b: Buckets, ip: bytes, now: int) {
    ip !in b || Expired(b, ip, now)
  }

  function Request(c: Limits, b: Buckets, ip: bytes, now: int, victim: Option<bytes>): (Buckets, bool) {
    if Creates(b, ip, now) then
      ((if |b| >= c.maxTrackedIps then Without(b, victim) else b)[ip := Bucket(1, now + c.window)], true)
    else if b[ip].count >= c.maxRequests then (b, false)
    else (b[ip := b[ip].(count := b[ip].count + 1)], true)
  }

  function Collect(b: Buckets, now: int): Buckets {
    map ip | ip in b && !Expired(b, ip, now) :: b[ip]
  }

  class RateLimiter {
    var buckets: Buckets
    const limits: Limits

    constructor (maxRequests: int, window: nat, maxTrackedIps: int)
      ensures buckets == map[]
      ensures limits.maxRequests == maxRequests && limits.window == window
      ensures limits.maxTrackedIps == if maxTrackedIps <= 0 then 100000 else maxTrackedIps
    {
      buckets := map[];
      limits := Limits(maxRequests, window, if maxTrackedIps <= 0 then 100000 else maxTrackedIps);
    }

    method Allow(ip: bytes, now: int) returns (allowed: bool, ghost victim: Option<bytes>)
      modifies this
      ensures Creates(old(buckets), ip, now) && |old(buckets)| >= limits.maxTrackedIps ==>
              Evictable(old(buckets), now, victim)
      ensures (buckets, allowed) == Request(limits, old(buckets), ip, now, victim)
    {
      victim := None;
      if ip !in buckets || now > buckets[ip].resetTime {
        if |buckets| >= limits.maxTrackedIps {
          victim := EvictExpiredOrOldest(now);
        }
        buckets := buckets[ip := Bucket(1, now + limits.window)];
        return true, victim;
      }
      if buckets[ip].count >= limits.maxRequests {
        return false, victim;
      }
      buckets := buckets[ip := buckets[ip].(count := buckets[ip].count + 1)];
      allowed := true;
    }

    method EvictExpiredOrOldest(now: int) returns (ghost victim: Option<bytes>)
      modifies this
      ensures Evictable(old(buckets), now, victim) && buckets == Without(old(buckets), victim)
    {
      var oldestKey: bytes, oldestTime, first := [], 0, true;
      var rest := buckets.Keys;
      while rest != {}
        invariant rest <= buckets.Keys && buckets == old(buckets)
        invariant forall k :: k in buckets && k !in rest ==> !Expired(buckets, k, now)
        invariant first ==> rest == buckets.Keys && oldestKey == []
        invariant !first ==> oldestKey in buckets && buckets[oldestKey].resetTime == oldestTime
        invariant !first ==> forall k :: k in buckets && k !in rest ==> oldestTime <= buckets[k].resetTime
      {
        var k :| k in rest;
        rest := rest - {k};
        if now > buckets[k].resetTime {
          assert Expired(buckets, k, now);
          victim := Some(k);
          buckets := buckets - {k};
          return;
        }
        if first || buckets[k].resetTime < oldestTime {
          oldestTime, oldestKey, first := buckets[k].resetTime, k, false;
        }
      }
      if oldestKey != [] {
        victim := Some(oldestKey);
        buckets := buckets - {oldestKey};
      } else {
        victim := None;
        assert first ==> buckets == map[];
      }
    }

    method GarbageCollect(now: int)
      modifies this
      ensures buckets == Collect(old(buckets), now)
      ensures forall ip :: ip in buckets <==> ip in old(buckets) && now <= old(buckets)[ip].resetTime
    {
      var rest := buckets.Keys;
      while rest != {}
        invariant rest <= buckets.Keys <= old(buckets).Keys
        invariant forall k :: k in old(buckets) ==> (k in buckets <==> k in rest || !Expired(old(buckets), k, now))
        invariant forall k :: k in buckets ==> buckets[k] == old(buckets)[k]
      {
        var ip :| ip in rest;
        rest := rest - {ip};
        if now > buckets[ip].resetTime {
          buckets := buckets - {ip};
        }
      }
    }
  }
}

/** The response cache of pkg/dns/cache.go: a map and a recency list that must stay in step. */
module Cache {
  import opened Bytes
  import opened Questions
  import opened Ttl

  datatype CacheEntry = CacheEntry(response: bytes, insertedAt: int)

  /** The fields of a `DnsCache`; times are in milliseconds. */
  datatype CacheState = CacheState(cacheMap: map<bytes, CacheEntry>, keyList: seq<bytes>, maxSize: int, defaultTtl: int)

  datatype Hit = Hit(response: bytes, remainingMs: int)

  function Empty(maxSize: int, defaultTtl: int): CacheState {
    CacheState(map[], [], if maxSize <= 0 then 1024 else maxSize, defaultTtl)
  }

  ghost predicate NoDuplicates(keys: seq<bytes>) {
    forall i, j :: 0 <= i < j < |keys| ==> keys[i] != keys[j]
  }

  /** Map and list hold the same keys, each once, and no more than the cache may hold. */
  ghost predicate InStep(c: CacheState) {
    && NoDuplicates(c.keyList)
    && (set k | k in c.keyList) == c.cacheMap.Keys
    && |c.keyList| <= c.maxSize && 1 <= c.maxSize
  }

  /** The list without the first occurrence of a key. */
  function Without(keys: seq<bytes>, key: bytes): seq<bytes> {
    if keys == [] then []
    else if keys[0] == key then keys[1..]
    else [keys[0]] + Without(keys[1..], key)
  }

  function Touch(keys: seq<bytes>, key: bytes): seq<bytes> {
    Without(keys, key) + [key]
  }

  function Delete(c: CacheState, key: bytes): CacheState {
    c.(cacheMap := c.cacheMap - {key}, keyList := Without(c.keyList, key))
  }

  /** Whole seconds of a remaining lifetime, at least one, as a 32-bit TTL. */
  function Seconds(ms: int): (r: uint32)
    ensures 0 < ms < 0x1_0000_0000 * 1000 ==> 1 <= r && ms < (r + 1) * 1000 && (r == 1 || r * 1000 <= ms)
  {
    var s := if ms < 1000 then 1 else ms / 1000;
    s % 0x1_0000_0000
  }

  function Get(c: CacheState, key: bytes, now: int): (CacheState, Option<Hit>) {
    if c.defaultTtl <= 0 || key !in c.cacheMap then (c, None)
    else
      var entry := c.cacheMap[key];
      var elapsed := now - entry.insertedAt;
      if elapsed >= c.defaultTtl then (Delete(c, key), None)
      else
        var remaining := c.defaultTtl - elapsed;
        (c.(keyList := Touch(c.keyList, key)), Some(Hit(RewriteTtl(entry.response, Seconds(remaining)), remaining)))
  }

  /** Room for one more entry: when full, the head of the list goes. */
  function Evict(c: CacheState): CacheState {
    if |c.keyList| >= c.maxSize && c.keyList != [] then Delete(c, c.keyList[0]) else c
  }

  function Put(c: CacheState, key: bytes, response: bytes, now: int): CacheState {
    if c.defaultTtl <= 0 || |response| < HEADER then c
    else if key in c.cacheMap then
      c.(cacheMap := c.cacheMap[key := CacheEntry(response, now)], keyList := Touch(c.keyList, key))
    else
      var room := Evict(c);
      var stored := CacheEntry(RewriteTtl(response, Seconds(c.defaultTtl)), now);
      room.(cacheMap := room.cacheMap[key := stored], keyList := room.keyList + [key])
  }

  /** Whether a store replaced an entry or made one, a later lookup answers the same: the stored response with the
      remaining lifetime. */
  lemma GetAfterPut(c: CacheState, key: bytes, response: bytes, stored: int, now: int)
    requires c.defaultTtl > 0 && |response| >= HEADER
    ensures var remaining := c.defaultTtl - (now - stored);
            Get(Put(c, key, response, stored), key, now).1
            == if remaining <= 0 then None else Some(Hit(RewriteTtl(response, Seconds(remaining)), remaining))
  {
    hide RewriteTtl, Seconds, Touch, Delete;
    var remaining := c.defaultTtl - (now - stored);
    RewriteTwice(response, Seconds(c.defaultTtl), Seconds(remaining));
    EvictKeepsTtl(c);
  }

  lemma EvictKeepsTtl(c: CacheState)
    ensures Evict(c).defaultTtl == c.defaultTtl
  {
  }

  lemma {:induction false} WithoutKeeps(keys: seq<bytes>, key: bytes)
    requires NoDuplicates(keys)
    ensures NoDuplicates(Without(keys, key))
    ensures forall k :: k in Without(keys, key) <==> k in keys && k != key
    ensures |Without(keys, key)| == if key in keys then |keys| - 1 else |keys|
  {
    if keys != [] {
      var rest := Without(keys[1..], key);
      WithoutKeeps(keys[1..], key);
      assert forall k :: k in keys <==> k == keys[0] || k in keys[1..];
      assert keys[0] !in keys[1..];
      if keys[0] != key {
        assert forall i :: 0 <= i < |rest| ==> rest[i] in rest && rest[i] != keys[0];
      }
    }
  }

  lemma KeyCount(c: CacheState)
    requires InStep(c)
    ensures |c.cacheMap| == |c.keyList|
  {
    CountDistinct(c.keyList);
  }

  lemma {:induction false} CountDistinct(keys: seq<bytes>)
    requires NoDuplicates(keys)
    ensures |set k | k in keys| == |keys|
  {
    if keys != [] {
      CountDistinct(keys[1..]);
      assert (set k | k in keys) == (set k | k in keys[1..]) + {keys[0]};
    }
  }

  lemma DeleteInStep(c: CacheState, key: bytes)
    requires InStep(c)
    ensures InStep(Delete(c, key))
    ensures key in c.keyList ==> |Delete(c, key).keyList| == |c.keyList| - 1
  {
    WithoutKeeps(c.keyList, key);
  }

  lemma TouchInStep(c: CacheState, key: bytes)
    requires InStep(c) && key in c.cacheMap
    ensures InStep(c.(keyList := Touch(c.keyList, key)))
  {
    WithoutKeeps(c.keyList, key);
    assert key in c.keyList;
  }

  lemma GetInStep(c: CacheState, key: bytes, now: int)
    requires InStep(c)
    ensures InStep(Get(c, key, now).0)
  {
    hide InStep;
    if c.defaultTtl > 0 && key in c.cacheMap {
      DeleteInStep(c, key);
      TouchInStep(c, key);
    }
  }

  lemma AppendInStep(room: CacheState, key: bytes, entry: CacheEntry)
    requires InStep(room) && key !in room.cacheMap && |room.keyList| < room.maxSize
    ensures InStep(room.(cacheMap := room.cacheMap[key := entry], keyList := room.keyList + [key]))
  {
    assert key !in room.keyList;
    assert (set k | k in room.keyList + [key]) == (set k | k in room.keyList) + {key};
  }

  lemma EvictInStep(c: CacheState)
    requires InStep(c)
    ensures InStep(Evict(c)) && |Evict(c).keyList| < c.maxSize == Evict(c).maxSize
    ensures Evict(c).cacheMap.Keys <= c.cacheMap.Keys
  {
    if |c.keyList| >= c.maxSize {
      DeleteInStep(c, c.keyList[0]);
      WithoutKeeps(c.keyList, c.keyList[0]);
    }
  }

  lemma PutInStep(c: CacheState, key: bytes, response: bytes, now: int)
    requires InStep(c)
    ensures InStep(Put(c, key, response, now))
  {
    hide InStep, Evict, RewriteTtl, Seconds;
    if c.defaultTtl > 0 && |response| >= HEADER {
      if key in c.cacheMap {
        TouchInStep(c, key);
        ReplaceInStep(c.(keyList := Touch(c.keyList, key)), key, CacheEntry(response, now));
      } else {
        EvictInStep(c);
        AppendInStep(Evict(c), key, CacheEntry(RewriteTtl(response, Seconds(c.defaultTtl)), now));
      }
    }
  }

  lemma ReplaceInStep(c: CacheState, key: bytes, entry: CacheEntry)
    requires InStep(c) && key in c.cacheMap
    ensures InStep(c.(cacheMap := c.cacheMap[key := entry]))
  {
    assert c.cacheMap[key := entry].Keys == c.cacheMap.Keys;
  }

  class DnsCache {
    var cacheMap: map<bytes, CacheEntry>
    var keyList: seq<bytes>
    const maxSize: int
    const defaultTtl: int

    ghost function State(): CacheState
      reads this
    {
      CacheState(cacheMap, keyList, maxSize, defaultTtl)
    }

    constructor (size: int, ttlMs: int)
      ensures State() == Empty(size, ttlMs) && InStep(State())
    {
      cacheMap := map[];
      keyList := [];
      maxSize := if size <= 0 then 1024 else size;
      defaultTtl := ttlMs;
    }

    method RemoveFromList(key: bytes)
      modifies this`keyList
      ensures keyList == Without(old(keyList), key)
    {
      ghost var keys := keyList;
      for i := 0 to |keyList|
        invariant keyList == keys
        invariant Without(keys, key) == keys[..i] + Without(keys[i..], key)
      {
        Tail(keys, i);
        if keyList[i] == key {
          keyList := keyList[..i] + keyList[i + 1..];
          return;
        }
        assert keys[..i] + [keys[i]] == keys[..i + 1];
        Assoc(keys[..i], [keys[i]], Without(keys[i + 1..], key));
      }
    }

    method TouchKey(key: bytes)
      modifies this`keyList
      ensures keyList == Touch(old(keyList), key)
    {
      RemoveFromList(key);
      keyList := keyList + [key];
    }

    method DeleteKey(key: bytes)
      modifies this
      ensures State() == Delete(old(State()), key)
    {
      cacheMap := cacheMap - {key};
      RemoveFromList(key);
    }

    method EvictOldest()
      modifies this
      ensures State() == if old(keyList) == [] then old(State()) else Delete(old(State()), old(keyList)[0])
    {
      if |keyList| == 0 {
        return;
      }
      DeleteKey(keyList[0]);
    }

    method Lookup(key: bytes, now: int) returns (hit: Option<Hit>)
      requires InStep(State())
      modifies this
      ensures (State(), hit) == Get(old(State()), key, now)
      ensures InStep(State())
    {
      GetInStep(State(), key, now);
      if defaultTtl <= 0 {
        return None;
      }
      if key !in cacheMap {
        return None;
      }
      var entry := cacheMap[key];
      var elapsed := now - entry.insertedAt;
      if elapsed >= defaultTtl {
        DeleteKey(key);
        return None;
      }
      TouchKey(key);
      var remainingTtlMs := defaultTtl - elapsed;
      var remainingSeconds := remainingTtlMs / 1000;
      if remainingSeconds <= 0 {
        remainingSeconds := 1;
      }
      var rewritten := RewriteResponseTtl(entry.response, remainingSeconds % 0x1_0000_0000);
      return Some(Hit(rewritten, remainingTtlMs));
    }

    /** The eviction loop ends because the list and the map stay in step. */
    method Store(key: bytes, response: bytes, now: int)
      requires InStep(State())
      modifies this
      ensures State() == Put(old(State()), key, response, now)
      ensures InStep(State())
    {
      PutInStep(State(), key, response, now);
      if defaultTtl <= 0 || |response| < HEADER {
        return;
      }
      if key in cacheMap {
        cacheMap := cacheMap[key := CacheEntry(response, now)];
        TouchKey(key);
        return;
      }
      KeyCount(State());
      while |cacheMap| >= maxSize
        invariant InStep(State()) && |cacheMap| == |keyList| <= |old(keyList)|
        invariant State() == old(State()) || (State() == Evict(old(State())) && |keyList| < maxSize)
        decreases |keyList|
      {
        DeleteInStep(State(), keyList[0]);
        EvictOldest();
        KeyCount(State());
      }
      var remainingSeconds := defaultTtl / 1000;
      if remainingSeconds <= 0 {
        remainingSeconds := 1;
      }
      var modified := RewriteResponseTtl(response, remainingSeconds % 0x1_0000_0000);
      cacheMap := cacheMap[key := CacheEntry(modified, now)];
      keyList := keyList + [key];
    }
  }

  datatype Op = GetOp(key: bytes, now: int) | PutOp(key: bytes, response: bytes, now: int)

  function Step(c: CacheState, op: Op): CacheState {
    match op
    case GetOp(key, now) => Get(c, key, now).0
    case PutOp(key, response, now) => Put(c, key, response, now)
  }

  /** The state after any number of operations on a new cache. */
  function Run(maxSize: int, defaultTtl: int, ops: seq<Op>): CacheState {
    if ops == [] then Empty(maxSize, defaultTtl)
    else Step(Run(maxSize, defaultTtl, ops[..|ops| - 1]), ops[|ops| - 1])
  }

  /** A lookup that hits, or a store that takes effect. */
  predicate Uses(c: CacheState, op: Op) {
    match op
    case GetOp(key, now) => Get(c, key, now).1.Some?
    case PutOp(key, response, now) => c.defaultTtl > 0 && |response| >= HEADER
  }

  /** For every key, the position in the history of its last successful use; kept by looking at the history only. */
  function LastUse(maxSize: int, defaultTtl: int, ops: seq<Op>): map<bytes, nat> {
    if ops == [] then map[]
    else
      var n := |ops| - 1;
      var before := LastUse(maxSize, defaultTtl, ops[..n]);
      if Uses(Run(maxSize, defaultTtl, ops[..n]), ops[n]) then before[ops[n].key := n] else before
  }

  /** The list orders the keys by their last use, oldest first. */
  ghost predicate ByRecency(keys: seq<bytes>, last: map<bytes, nat>, n: nat) {
    && (forall i :: 0 <= i < |keys| ==> keys[i] in last && last[keys[i]] < n)
    && (forall i, j :: 0 <= i < j < |keys| ==> last[keys[i]] < last[keys[j]])
  }

  lemma RecencyTail(keys: seq<bytes>, last: map<bytes, nat>, n: nat)
    requires keys != [] && ByRecency(keys, last, n)
    ensures ByRecency(keys[1..], last, n) && keys[0] in last && last[keys[0]] < n
    ensures forall k :: k in keys[1..] ==> k in last && last[keys[0]] < last[k]
  {
  }

  lemma RecencyCons(key: bytes, keys: seq<bytes>, last: map<bytes, nat>, n: nat)
    requires ByRecency(keys, last, n) && key in last && last[key] < n
    requires forall k :: k in keys ==> k in last && last[key] < last[k]
    ensures ByRecency([key] + keys, last, n)
  {
  }

  lemma {:induction false} WithoutOrdered(keys: seq<bytes>, key: bytes, last: map<bytes, nat>, n: nat)
    requires ByRecency(keys, last, n)
    ensures ByRecency(Without(keys, key), last, n)
  {
    hide ByRecency;
    if keys != [] {
      RecencyTail(keys, last, n);
      if keys[0] != key {
        var rest := Without(keys[1..], key);
        WithoutOrdered(keys[1..], key, last, n);
        forall k | k in rest
          ensures k in keys[1..]
        {
          WithoutSubset(keys[1..], key, k);
        }
        RecencyCons(keys[0], rest, last, n);
      }
    }
  }

  lemma {:induction false} WithoutSubset(keys: seq<bytes>, key: bytes, k: bytes)
    requires k in Without(keys, key)
    ensures k in keys
  {
    if keys[0] != key && k != keys[0] {
      WithoutSubset(keys[1..], key, k);
    }
  }

  lemma AppendOrdered(keys: seq<bytes>, key: bytes, last: map<bytes, nat>, n: nat)
    requires ByRecency(keys, last, n) && key !in keys
    ensures ByRecency(keys + [key], last[key := n], n + 1)
  {
  }

  lemma KeepsOrdered(c: CacheState, op: Op, last: map<bytes, nat>, n: nat)
    requires InStep(c) && ByRecency(c.keyList, last, n)
    ensures ByRecency(Step(c, op).keyList, if Uses(c, op) then last[op.key := n] else last, n + 1)
  {
    hide ByRecency, RewriteTtl, Seconds;
    var key := op.key;
    WithoutOrdered(c.keyList, key, last, n);
    WithoutKeeps(c.keyList, key);
    AppendOrdered(Without(c.keyList, key), key, last, n);
    LaterOrdered(c.keyList, last, n);
    LaterOrdered(Without(c.keyList, key), last, n);
    if op.PutOp? && key !in c.cacheMap {
      if c.keyList != [] {
        WithoutOrdered(c.keyList, c.keyList[0], last, n);
        WithoutKeeps(c.keyList, c.keyList[0]);
      }
      AppendOrdered(Evict(c).keyList, key, last, n);
    }
  }

  lemma LaterOrdered(keys: seq<bytes>, last: map<bytes, nat>, n: nat)
    requires ByRecency(keys, last, n)
    ensures ByRecency(keys, last, n + 1)
  {
  }

  /** In every reachable state the list has each key of the map once, at most `maxSize` of them, by recency. */
  lemma {:induction false} Reachable(maxSize: int, defaultTtl: int, ops: seq<Op>)
    ensures InStep(Run(maxSize, defaultTtl, ops))
    ensures ByRecency(Run(maxSize, defaultTtl, ops).keyList, LastUse(maxSize, defaultTtl, ops), |ops|)
  {
    hide ByRecency, Step, Uses;
    if ops == [] {
      EmptyOrdered();
    } else {
      var n := |ops| - 1;
      var c := Run(maxSize, defaultTtl, ops[..n]);
      Reachable(maxSize, defaultTtl, ops[..n]);
      StepInStep(c, ops[n]);
      KeepsOrdered(c, ops[n], LastUse(maxSize, defaultTtl, ops[..n]), n);
    }
  }

  lemma StepInStep(c: CacheState, op: Op)
    requires InStep(c)
    ensures InStep(Step(c, op))
  {
    match op {
      case GetOp(key, now) => GetInStep(c, key, now);
      case PutOp(key, response, now) => PutInStep(c, key, response, now);
    }
  }

  lemma EmptyOrdered()
    ensures ByRecency([], map[], 0)
  {
  }

  /**
    Least recently used, over every history: a store evicts only when it brings a new key to a
    full cache, it then evicts one key, and no other cached key was last used longer ago.
   */
  lemma EvictsLeastRecentlyUsed(maxSize: int, defaultTtl: int, ops: seq<Op>, key: bytes, response: bytes, now: int)
    ensures var c := Run(maxSize, defaultTtl, ops);
            var last := LastUse(maxSize, defaultTtl, ops);
            var kept := Put(c, key, response, now).cacheMap.Keys;
            && c.cacheMap.Keys <= last.Keys
            && (c.cacheMap.Keys <= kept || exists evicted ::
                  && evicted in c.cacheMap && key !in c.cacheMap && |c.cacheMap| == c.maxSize
                  && kept == c.cacheMap.Keys - {evicted} + {key}
                  && forall k :: k in c.cacheMap ==> last[evicted] <= last[k])
  {
    hide RewriteTtl, Seconds, Run, LastUse;
    var c := Run(maxSize, defaultTtl, ops);
    var last := LastUse(maxSize, defaultTtl, ops);
    Reachable(maxSize, defaultTtl, ops);
    KeyCount(c);
    assert forall k :: k in c.cacheMap ==> k in c.keyList;
    if c.defaultTtl > 0 && |response| >= HEADER && key !in c.cacheMap && |c.keyList| >= c.maxSize {
      var evicted := c.keyList[0];
      assert evicted in c.cacheMap;
      assert Put(c, key, response, now).cacheMap.Keys == c.cacheMap.Keys - {evicted} + {key};
    }
  }

  /** A lookup changes no entry, except that it drops the one it was for if that has expired. */
  lemma LookupFrame(c: CacheState, key: bytes, now: int, k: bytes)
    ensures var (c', hit) := Get(c, key, now);
            && (k in c'.cacheMap ==> k in c.cacheMap && c'.cacheMap[k] == c.cacheMap[k])
            && (k in c.cacheMap && k != key ==> k in c'.cacheMap)
            && (c.defaultTtl > 0 && key in c.cacheMap ==> (key in c'.cacheMap <==> hit.Some?))
  {
    hide Touch, Without, RewriteTtl, Seconds;
  }

  /** A store changes no other entry it keeps; a cache without lifetime, or a response without header, is not stored. */
  lemma StoreFrame(c: CacheState, key: bytes, response: bytes, now: int, k: bytes)
    ensures var c' := Put(c, key, response, now);
            && (k != key && k in c'.cacheMap ==> k in c.cacheMap && c'.cacheMap[k] == c.cacheMap[k])
            && (c.defaultTtl <= 0 || |response| < HEADER ==> c' == c)
            && (c.defaultTtl <= 0 ==> Get(c, key, now) == (c, None))
  {
    hide Touch, Without, RewriteTtl, Seconds;
  }
}

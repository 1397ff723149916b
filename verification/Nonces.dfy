/** Single-use nonces: the two stores (apps/api/src/auth/redis-nonce-store.ts,
    apps/api/src/auth/nonce-store.ts). Times are milliseconds. */
module Nonces {
  import opened Prelude

  datatype NonceRecord = NonceRecord(pubkey: string, nonce: string, expiresAt: int)

  function KeyOf(pubkey: string, nonce: string): string { pubkey + ":" + nonce }

  function RedisKey(prefix: string, pubkey: string, nonce: string): string {
    prefix + "nonce" + ":" + pubkey + ":" + nonce
  }

  predicate ColonFree(s: string) { ':' !in s }

  /** A colon-free pair shares its key with no other pair, whatever the other holds. */
  lemma KeyDetermines(p: string, n: string, q: string, m: string)
    requires ColonFree(p) && ColonFree(n)
    ensures KeyOf(p, n) == KeyOf(q, m) <==> p == q && n == m
  {
    var key := KeyOf(p, n);
    if key == KeyOf(q, m) {
      assert key[|q|] == ':' && key[|p|] == ':';
      assert |q| >= |p|;
      assert |q| <= |p|;
      assert key[..|p|] == p && key[..|q|] == q && key[|p| + 1..] == n && key[|q| + 1..] == m;
    }
  }

  lemma RedisKeyDetermines(prefix: string, p: string, n: string, q: string, m: string)
    ensures RedisKey(prefix, p, n) == RedisKey(prefix, q, m) <==> KeyOf(p, n) == KeyOf(q, m)
  {
    var head := prefix + "nonce" + ":";
    assert RedisKey(prefix, p, n) == head + KeyOf(p, n);
    assert RedisKey(prefix, q, m) == head + KeyOf(q, m);
    assert (head + KeyOf(p, n))[|head|..] == KeyOf(p, n);
    assert (head + KeyOf(q, m))[|head|..] == KeyOf(q, m);
  }

  // ---------------------------------------------------------------------
  // The two stores
  // ---------------------------------------------------------------------

  /** A Redis string value holding `expiresAt`, and the expiry of its key. */
  datatype RedisValue = RedisValue(expiresAt: int, deadline: int)

  type RedisMap = map<string, RedisValue>

  type RecordMap = map<string, NonceRecord>

  function RedisPut(m: RedisMap, key: string, now: int, ttlSeconds: nat): RedisMap {
    m[key := RedisValue(now + ttlSeconds * 1000, now + ttlSeconds * 1000)]
  }

  function RedisGet(m: RedisMap, key: string, now: int): Option<int> {
    if key in m && now <= m[key].deadline then Some(m[key].expiresAt) else None
  }

  class RedisNonceStore {
    const prefix: string
    var entries: RedisMap

    constructor (prefix: string)
      ensures this.prefix == prefix && entries == map[]
    {
      this.prefix := prefix;
      entries := map[];
    }

    method Put(pubkey: string, nonce: string, ttlSeconds: nat, now: int)
      requires 0 < ttlSeconds
      modifies this
      ensures entries == RedisAfter(prefix, old(entries), Request.Put(pubkey, nonce, ttlSeconds, now, {}))
      ensures var key := RedisKey(prefix, pubkey, nonce);
              key in entries && entries[key].expiresAt == entries[key].deadline == now + ttlSeconds * 1000
    {
      var expiresAt := now + ttlSeconds * 1000;
      entries := entries[RedisKey(prefix, pubkey, nonce) := RedisValue(expiresAt, now + ttlSeconds * 1000)];
    }

    /** GETDEL: one command reads and removes. */
    method Take(pubkey: string, nonce: string, now: int) returns (r: Option<NonceRecord>)
      modifies this
      ensures entries == RedisAfter(prefix, old(entries), Request.Take(pubkey, nonce, now, {}))
      ensures r == RedisReply(prefix, old(entries), Request.Take(pubkey, nonce, now, {}))
      ensures var key := RedisKey(prefix, pubkey, nonce);
              key !in entries && (r.Some? <==> key in old(entries) && now <= old(entries)[key].deadline) &&
              (r.Some? ==> r.value.pubkey == pubkey && r.value.nonce == nonce &&
                           r.value.expiresAt == old(entries)[key].expiresAt)
    {
      var key := RedisKey(prefix, pubkey, nonce);
      var value := RedisGet(entries, key, now);
      entries := entries - {key};
      if value.None? { return None; }
      r := Some(NonceRecord(pubkey, nonce, value.value));
    }
  }

  class InMemoryNonceStore {
    var entries: RecordMap

    constructor ()
      ensures entries == map[]
    {
      entries := map[];
    }

    method Put(pubkey: string, nonce: string, ttlSeconds: nat, now: int)
      modifies this
      ensures entries == RecordsAfter(old(entries), Request.Put(pubkey, nonce, ttlSeconds, now, {}))
      ensures var key := KeyOf(pubkey, nonce);
              key in entries && entries[key].pubkey == pubkey && entries[key].nonce == nonce &&
              entries[key].expiresAt == now + ttlSeconds * 1000
    {
      entries := entries[KeyOf(pubkey, nonce) := NonceRecord(pubkey, nonce, now + ttlSeconds * 1000)];
    }

    method Take(pubkey: string, nonce: string, now: int) returns (r: Option<NonceRecord>)
      modifies this
      ensures entries == RecordsAfter(old(entries), Request.Take(pubkey, nonce, now, {}))
      ensures r == RecordsReply(old(entries), Request.Take(pubkey, nonce, now, {}))
      ensures var key := KeyOf(pubkey, nonce);
              key !in entries && (r.Some? <==> key in old(entries) && now <= old(entries)[key].expiresAt) &&
              (r.Some? ==> r.value == old(entries)[key])
    {
      var key := KeyOf(pubkey, nonce);
      if key !in entries { return None; }
      var record := entries[key];
      entries := entries - {key};
      if record.expiresAt < now { return None; }
      r := Some(record);
    }
  }

  function Kept(m: RecordMap, key: string, now: int): Option<NonceRecord> {
    if key in m && now <= m[key].expiresAt then Some(m[key]) else None
  }

  // ---------------------------------------------------------------------
  // The Redis store refines the in-memory one
  // ---------------------------------------------------------------------

  /** One request at `now`, after Redis has reaped some expired keys. */
  datatype Request = Put(pubkey: string, nonce: string, ttlSeconds: nat, now: int, reaped: set<string>)
                   | Take(pubkey: string, nonce: string, now: int, reaped: set<string>)

  ghost predicate MayReap(m: RedisMap, r: Request) {
    forall key :: key in r.reaped && key in m ==> m[key].deadline < r.now
  }

  function RedisAfter(prefix: string, m: RedisMap, r: Request): RedisMap {
    var live := m - r.reaped;
    match r
    case Put(p, n, ttl, now, _) => RedisPut(live, RedisKey(prefix, p, n), now, ttl)
    case Take(p, n, _, _) => live - {RedisKey(prefix, p, n)}
  }

  function RecordsAfter(m: RecordMap, r: Request): RecordMap {
    match r
    case Put(p, n, ttl, now, _) => m[KeyOf(p, n) := NonceRecord(p, n, now + ttl * 1000)]
    case Take(p, n, _, _) => m - {KeyOf(p, n)}
  }

  function RedisReply(prefix: string, m: RedisMap, r: Request): Option<NonceRecord> {
    if r.Put? then None
    else
      match RedisGet(m - r.reaped, RedisKey(prefix, r.pubkey, r.nonce), r.now)
      case None => None
      case Some(e) => Some(NonceRecord(r.pubkey, r.nonce, e))
  }

  function RecordsReply(m: RecordMap, r: Request): Option<NonceRecord> {
    if r.Put? then None else Kept(m, KeyOf(r.pubkey, r.nonce), r.now)
  }

  /** Time does not run backwards, Redis reaps only what is expired, and puts
      carry base58 keys and hexadecimal nonces. */
  ghost predicate Admissible(prefix: string, m: RedisMap, last: int, rs: seq<Request>)
    decreases |rs|
  {
    rs == [] ||
    (last <= rs[0].now && MayReap(m, rs[0]) && (rs[0].Put? ==> ColonFree(rs[0].pubkey) && ColonFree(rs[0].nonce)) &&
     Admissible(prefix, RedisAfter(prefix, m, rs[0]), rs[0].now, rs[1..]))
  }

  function RedisReplies(prefix: string, m: RedisMap, rs: seq<Request>): seq<Option<NonceRecord>>
    decreases |rs|
  {
    if rs == [] then []
    else [RedisReply(prefix, m, rs[0])] + RedisReplies(prefix, RedisAfter(prefix, m, rs[0]), rs[1..])
  }

  function RecordsReplies(m: RecordMap, rs: seq<Request>): seq<Option<NonceRecord>>
    decreases |rs|
  {
    if rs == [] then [] else [RecordsReply(m, rs[0])] + RecordsReplies(RecordsAfter(m, rs[0]), rs[1..])
  }

  /** Every record was put under its own key, and Redis holds it too unless it
      has expired; Redis holds nothing else. */
  ghost predicate Represents(prefix: string, redis: RedisMap, records: RecordMap, now: int) {
    (forall k :: k in records ==>
      var r := records[k];
      k == KeyOf(r.pubkey, r.nonce) && ColonFree(r.pubkey) && ColonFree(r.nonce) &&
      (RedisKey(prefix, r.pubkey, r.nonce) in redis ==>
        redis[RedisKey(prefix, r.pubkey, r.nonce)] == RedisValue(r.expiresAt, r.expiresAt)) &&
      (RedisKey(prefix, r.pubkey, r.nonce) !in redis ==> r.expiresAt < now)) &&
    (forall p, n :: RedisKey(prefix, p, n) in redis ==> KeyOf(p, n) in records)
  }

  lemma RepresentsReply(prefix: string, redis: RedisMap, records: RecordMap, last: int, r: Request)
    requires Represents(prefix, redis, records, last) && last <= r.now && MayReap(redis, r)
    ensures RedisReply(prefix, redis, r) == RecordsReply(records, r)
  {
    if r.Take? {
      var k := KeyOf(r.pubkey, r.nonce);
      if k in records {
        KeyDetermines(records[k].pubkey, records[k].nonce, r.pubkey, r.nonce);
      }
    }
  }

  lemma RepresentsStep(prefix: string, redis: RedisMap, records: RecordMap, last: int, r: Request)
    requires Represents(prefix, redis, records, last) && last <= r.now && MayReap(redis, r)
    requires r.Put? ==> ColonFree(r.pubkey) && ColonFree(r.nonce)
    ensures Represents(prefix, RedisAfter(prefix, redis, r), RecordsAfter(records, r), r.now)
  {
    var redis', records' := RedisAfter(prefix, redis, r), RecordsAfter(records, r);
    forall k | k in records'
      ensures var x := records'[k];
        k == KeyOf(x.pubkey, x.nonce) && ColonFree(x.pubkey) && ColonFree(x.nonce) &&
        (RedisKey(prefix, x.pubkey, x.nonce) in redis' ==>
          redis'[RedisKey(prefix, x.pubkey, x.nonce)] == RedisValue(x.expiresAt, x.expiresAt)) &&
        (RedisKey(prefix, x.pubkey, x.nonce) !in redis' ==> x.expiresAt < r.now)
    {
      var x := records'[k];
      RedisKeyDetermines(prefix, x.pubkey, x.nonce, r.pubkey, r.nonce);
    }
    forall p, n | RedisKey(prefix, p, n) in redis' ensures KeyOf(p, n) in records' {
      RedisKeyDetermines(prefix, p, n, r.pubkey, r.nonce);
    }
  }

  lemma {:induction false} RefinesFrom(prefix: string, redis: RedisMap, records: RecordMap, last: int, rs: seq<Request>)
    requires Represents(prefix, redis, records, last) && Admissible(prefix, redis, last, rs)
    ensures RedisReplies(prefix, redis, rs) == RecordsReplies(records, rs)
    decreases |rs|
  {
    if rs != [] {
      RepresentsReply(prefix, redis, records, last, rs[0]);
      RepresentsStep(prefix, redis, records, last, rs[0]);
      RefinesFrom(prefix, RedisAfter(prefix, redis, rs[0]), RecordsAfter(records, rs[0]), rs[0].now, rs[1..]);
    }
  }

  /** The Redis store, reaping whenever it likes, answers every sequence of
      requests as the in-memory store does. */
  lemma RedisRefinesInMemory(prefix: string, rs: seq<Request>, start: int)
    requires Admissible(prefix, map[], start, rs)
    ensures RedisReplies(prefix, map[], rs) == RecordsReplies(map[], rs)
  {
    RefinesFrom(prefix, map[], map[], start, rs);
  }
}

/** The rate-limit script of apps/api/src/redis/throttler-increment.lua.ts and
    the expiring Redis key it runs on. Times are whole seconds of Redis's clock. */
module Throttler {
  import opened Prelude

  datatype Bucket = Bucket(hits: int, expiresAt: int, blockExpiresAt: int, isBlocked: bool)

  /** The hash under the bucket key and the expiry Redis keeps for the key. */
  datatype Key = Key(bucket: Option<Bucket>, deadline: Option<int>)

  datatype Reply = Reply(hits: int, timeToExpire: int, isBlocked: bool, timeToBlockExpire: int)

  /** Constant arguments of one throttler; durations in milliseconds, as passed. */
  datatype Config = Config(ttlMs: nat, limit: nat, blockMs: nat) {
    function Ttl(): nat { ttlMs / 1000 }
    function Block(): nat { blockMs / 1000 }
  }

  const EMPTY := Key(None, None)

  // ---------------------------------------------------------------------
  // One call
  // ---------------------------------------------------------------------

  /** One more hit in a window that is not blocked. */
  function Count(cfg: Config, now: nat, hits: int, expiresAt: int, blockExpiresAt: int): Bucket {
    if hits + 1 > cfg.limit then Bucket(hits + 1, expiresAt, now + cfg.Block(), true)
    else Bucket(hits + 1, expiresAt, blockExpiresAt, false)
  }

  /** A live block stands still, a live window counts, anything else starts afresh. */
  function Next(cfg: Config, b: Option<Bucket>, now: nat): Bucket {
    match b
    case None => Count(cfg, now, 0, now + cfg.Ttl(), 0)
    case Some(b) =>
      if b.isBlocked && now < b.blockExpiresAt then b
      else if !b.isBlocked && now < b.expiresAt then Count(cfg, now, b.hits, b.expiresAt, b.blockExpiresAt)
      else Count(cfg, now, 0, now + cfg.Ttl(), b.blockExpiresAt)
  }

  function ReplyOf(b: Bucket, now: nat): Reply {
    Reply(b.hits, b.expiresAt - now, b.isBlocked, Max(b.blockExpiresAt - now, 0))
  }

  /** HMSET keeps the deadline of an existing key; EXPIRE replaces it. */
  function NextKey(cfg: Config, k: Key, now: nat): Key {
    var b := Next(cfg, k.bucket, now);
    var expireAt := Max(b.expiresAt, b.blockExpiresAt);
    Key(Some(b), if expireAt > now then Some(expireAt) else k.deadline)
  }

  class RedisBucket {
    var key: Key

    constructor ()
      ensures key == EMPTY
    {
      key := EMPTY;
    }

    /** The script, statement by statement. */
    method Increment(cfg: Config, now: nat) returns (reply: Reply)
      modifies this
      ensures key == NextKey(cfg, old(key), now)
      ensures reply == ReplyOf(Next(cfg, old(key.bucket), now), now)
    {
      var hits, expiresAt, blockExpiresAt, isBlocked := 0, now + cfg.Ttl(), 0, false;
      if key.bucket.Some? {
        var stored := key.bucket.value;
        hits, expiresAt, blockExpiresAt, isBlocked :=
          stored.hits, stored.expiresAt, stored.blockExpiresAt, stored.isBlocked;
      }
      if isBlocked && blockExpiresAt <= now {
        isBlocked := false;
        hits := 0;
        expiresAt := now + cfg.Ttl();
      }
      if !isBlocked && expiresAt <= now {
        hits := 0;
        expiresAt := now + cfg.Ttl();
      }
      if !isBlocked {
        hits := hits + 1;
      }
      if hits > cfg.limit && !isBlocked {
        isBlocked := true;
        blockExpiresAt := now + cfg.Block();
      }
      key := Key(Some(Bucket(hits, expiresAt, blockExpiresAt, isBlocked)), key.deadline);
      var expireAt := expiresAt;
      if blockExpiresAt > expireAt {
        expireAt := blockExpiresAt;
      }
      var ttlForExpire := expireAt - now;
      if ttlForExpire > 0 {
        key := key.(deadline := Some(now + ttlForExpire));
      }
      var timeToBlockExpire := blockExpiresAt - now;
      if timeToBlockExpire < 0 {
        timeToBlockExpire := 0;
      }
      reply := Reply(hits, expiresAt - now, isBlocked, timeToBlockExpire);
    }
  }

  // ---------------------------------------------------------------------
  // Whole runs
  // ---------------------------------------------------------------------

  /** A call at `now`, just before which Redis may have dropped the key. */
  datatype Call = Call(now: nat, drop: bool)

  predicate CanDrop(k: Key, now: nat) { k.deadline.Some? && k.deadline.value <= now }

  function Before(k: Key, call: Call): Key { if call.drop then EMPTY else k }

  /** The clock does not run backwards and a key is dropped only past its deadline. */
  predicate Lawful(cfg: Config, k: Key, last: nat, calls: seq<Call>)
    decreases |calls|
  {
    calls == [] ||
    (last <= calls[0].now && (calls[0].drop ==> CanDrop(k, calls[0].now)) &&
     Lawful(cfg, NextKey(cfg, Before(k, calls[0]), calls[0].now), calls[0].now, calls[1..]))
  }

  function Replies(cfg: Config, k: Key, calls: seq<Call>): (r: seq<Reply>)
    ensures |r| == |calls|
    decreases |calls|
  {
    if calls == [] then []
    else
      var k0 := Before(k, calls[0]);
      [ReplyOf(Next(cfg, k0.bucket, calls[0].now), calls[0].now)] +
      Replies(cfg, NextKey(cfg, k0, calls[0].now), calls[1..])
  }

  function Undropped(calls: seq<Call>): (r: seq<Call>)
    ensures |r| == |calls|
  {
    if calls == [] then [] else [calls[0].(drop := false)] + Undropped(calls[1..])
  }

  // ---------------------------------------------------------------------
  // Key expiry cannot be observed
  // ---------------------------------------------------------------------

  /** Equal up to an end of block that is already past. */
  predicate Alike(a: Option<Bucket>, b: Option<Bucket>, last: nat) {
    a == b ||
    (a.Some? && b.Some? && !a.value.isBlocked && a.value.blockExpiresAt <= last &&
     b.value.blockExpiresAt <= last && a.value == b.value.(blockExpiresAt := a.value.blockExpiresAt))
  }

  /** Once the deadline has passed, nothing in the bucket is live. */
  predicate DeadlineCovers(k: Key, last: nat) {
    k.deadline.Some? ==>
      k.bucket.Some? &&
      k.bucket.value.expiresAt <= Max(k.deadline.value, last) &&
      k.bucket.value.blockExpiresAt <= Max(k.deadline.value, last)
  }

  /** Buckets alike stay alike and answer alike. */
  lemma AlikeAnswer(cfg: Config, a: Option<Bucket>, b: Option<Bucket>, last: nat, now: nat)
    requires Alike(a, b, last) && last <= now
    ensures Alike(Some(Next(cfg, a, now)), Some(Next(cfg, b, now)), now)
    ensures ReplyOf(Next(cfg, a, now), now) == ReplyOf(Next(cfg, b, now), now)
  {
  }

  /** A dropped bucket is as good as none, a kept one is what it was. */
  lemma BeforeAlike(k: Key, keeping: Option<Bucket>, last: nat, call: Call, cfg: Config)
    requires Alike(k.bucket, keeping, last) && DeadlineCovers(k, last)
    requires last <= call.now && (call.drop ==> CanDrop(k, call.now))
    ensures var a, b := Next(cfg, Before(k, call).bucket, call.now), Next(cfg, keeping, call.now);
            Alike(Some(a), Some(b), call.now) && ReplyOf(a, call.now) == ReplyOf(b, call.now)
  {
    if !call.drop {
      AlikeAnswer(cfg, k.bucket, keeping, last, call.now);
    }
  }

  lemma CoverKept(cfg: Config, k: Key, last: nat, call: Call)
    requires DeadlineCovers(k, last) && last <= call.now
    ensures DeadlineCovers(NextKey(cfg, Before(k, call), call.now), call.now)
  {
  }

  /** A store that drops expired keys at any moment it likes and a store that
      never drops one answer every call alike. */
  lemma {:induction false} ExpiryUnobservableFrom(cfg: Config, dropping: Key, keeping: Key, last: nat, calls: seq<Call>)
    requires Lawful(cfg, dropping, last, calls)
    requires Alike(dropping.bucket, keeping.bucket, last) && DeadlineCovers(dropping, last)
    ensures Replies(cfg, dropping, calls) == Replies(cfg, keeping, Undropped(calls))
    decreases |calls|
  {
    if calls != [] {
      var now := calls[0].now;
      var k := Before(dropping, calls[0]);
      assert Undropped(calls)[0].now == now;
      assert Undropped(calls)[1..] == Undropped(calls[1..]);
      BeforeAlike(dropping, keeping.bucket, last, calls[0], cfg);
      CoverKept(cfg, dropping, last, calls[0]);
      ExpiryUnobservableFrom(cfg, NextKey(cfg, k, now), NextKey(cfg, keeping, now), now, calls[1..]);
    }
  }

  lemma ExpiryUnobservable(cfg: Config, calls: seq<Call>)
    requires Lawful(cfg, EMPTY, 0, calls)
    ensures Replies(cfg, EMPTY, calls) == Replies(cfg, EMPTY, Undropped(calls))
  {
    ExpiryUnobservableFrom(cfg, EMPTY, EMPTY, 0, calls);
  }

  // ---------------------------------------------------------------------
  // The rate bound
  // ---------------------------------------------------------------------

  /** Hits within the limit while open, exactly one above it while blocked. */
  predicate WithinLimit(cfg: Config, b: Option<Bucket>) {
    b.Some? ==>
      if b.value.isBlocked then b.value.hits == cfg.limit + 1 else 1 <= b.value.hits <= cfg.limit
  }

  function Final(cfg: Config, k: Key, calls: seq<Call>): Key
    decreases |calls|
  {
    if calls == [] then k
    else Final(cfg, NextKey(cfg, Before(k, calls[0]), calls[0].now), calls[1..])
  }

  lemma {:induction false} AlwaysWithinLimit(cfg: Config, k: Key, calls: seq<Call>)
    requires WithinLimit(cfg, k.bucket)
    ensures WithinLimit(cfg, Final(cfg, k, calls).bucket)
    decreases |calls|
  {
    if calls != [] {
      AlwaysWithinLimit(cfg, NextKey(cfg, Before(k, calls[0]), calls[0].now), calls[1..]);
    }
  }

  /** Unblocked replies given at a time in [lo, hi). */
  function Allowed(calls: seq<Call>, replies: seq<Reply>, lo: int, hi: int): nat
    requires |calls| == |replies|
  {
    if calls == [] then 0
    else (if lo <= calls[0].now < hi && !replies[0].isBlocked then 1 else 0) +
         Allowed(calls[1..], replies[1..], lo, hi)
  }

  /** x / m rounded up, and 0 for an empty span. */
  function Ceil(x: int, m: nat): (c: nat)
    requires 0 < m
    ensures x <= c * m && (0 < x ==> (c - 1) * m < x)
    decreases Max(x, 0)
  {
    if x <= 0 then 0 else 1 + Ceil(x - m, m)
  }

  lemma {:induction false} CeilMonotonic(x: int, y: int, m: nat)
    requires 0 < m && x <= y
    ensures Ceil(x, m) <= Ceil(y, m)
    decreases Max(y, 0)
  {
    if 0 < x {
      CeilMonotonic(x - m, y - m, m);
    }
  }

  /** The shorter of window and block: no two windows start closer than this. */
  function Spacing(cfg: Config): nat { Min(cfg.Ttl(), cfg.Block()) }

  /** Earliest moment from `now` on at which the next window can start. */
  function NextStart(cfg: Config, b: Option<Bucket>, now: int): int {
    if b.None? then now
    else if b.value.isBlocked then Max(now, b.value.blockExpiresAt)
    else Max(now, b.value.expiresAt - cfg.Ttl() + Spacing(cfg))
  }

  /** What is left of the open window, and a full limit per window that can still start. */
  function Budget(cfg: Config, b: Option<Bucket>, now: int, hi: int): int
    requires 0 < Spacing(cfg)
  {
    (if b.Some? && !b.value.isBlocked then cfg.limit - b.value.hits else 0) +
    cfg.limit * Ceil(hi - NextStart(cfg, b, now), Spacing(cfg))
  }

  lemma MulMonotonic(a: nat, x: int, y: int)
    requires x <= y
    ensures a * x <= a * y
  {
  }

  /** `t` bounds the start of an open window. */
  predicate Sound(cfg: Config, b: Option<Bucket>, t: int) {
    WithinLimit(cfg, b) &&
    (b.Some? && !b.value.isBlocked ==> b.value.expiresAt <= t + cfg.Ttl())
  }

  predicate Live(b: Option<Bucket>, now: int) {
    b.Some? && now < if b.value.isBlocked then b.value.blockExpiresAt else b.value.expiresAt
  }

  lemma BudgetCoversLive(cfg: Config, b: Option<Bucket>, last: int, now: nat, hi: int)
    requires 0 < Spacing(cfg) && Sound(cfg, b, last) && last <= now < hi && Live(b, now)
    ensures Budget(cfg, Some(Next(cfg, b, now)), now, hi) +
            (if Next(cfg, b, now).isBlocked then 0 else 1) <= Budget(cfg, b, last, hi)
  {
    var m := Spacing(cfg);
    var s0, s1 := NextStart(cfg, b, last), NextStart(cfg, Some(Next(cfg, b, now)), now);
    assert s0 <= s1;
    CeilMonotonic(hi - s1, hi - s0, m);
    MulMonotonic(cfg.limit, Ceil(hi - s1, m), Ceil(hi - s0, m));
  }

  lemma FreshWindow(cfg: Config, b: Option<Bucket>, last: int, now: nat)
    requires 0 < Spacing(cfg) && Sound(cfg, b, last) && last <= now && !Live(b, now)
    ensures NextStart(cfg, b, last) <= now
    ensures var n := Next(cfg, b, now);
            now + Spacing(cfg) <= NextStart(cfg, Some(n), now) &&
            n.hits == 1 && (n.isBlocked <==> cfg.limit == 0)
  {
  }

  lemma BudgetCoversFresh(cfg: Config, b: Option<Bucket>, last: int, now: nat, hi: int)
    requires 0 < Spacing(cfg) && Sound(cfg, b, last) && last <= now < hi && !Live(b, now)
    ensures Budget(cfg, Some(Next(cfg, b, now)), now, hi) +
            (if Next(cfg, b, now).isBlocked then 0 else 1) <= Budget(cfg, b, last, hi)
  {
    var m := Spacing(cfg);
    FreshWindow(cfg, b, last, now);
    var s0, s1 := NextStart(cfg, b, last), NextStart(cfg, Some(Next(cfg, b, now)), now);
    CeilMonotonic(hi - s1, hi - now - m, m);
    CeilMonotonic(hi - now, hi - s0, m);
    OneMore(cfg.limit, Ceil(hi - s1, m), Ceil(hi - s0, m));
  }

  lemma OneMore(a: nat, x: nat, y: nat)
    requires x + 1 <= y
    ensures a + a * x <= a * y
  {
    MulMonotonic(a, x + 1, y);
    assert a * (x + 1) == a + a * x;
  }

  lemma {:induction false} NoneAfter(cfg: Config, k: Key, last: nat, calls: seq<Call>, lo: int, hi: int)
    requires Lawful(cfg, k, last, calls) && hi <= last
    ensures Allowed(calls, Replies(cfg, k, calls), lo, hi) == 0
    decreases |calls|
  {
    if calls != [] {
      var next := NextKey(cfg, Before(k, calls[0]), calls[0].now);
      assert Replies(cfg, k, calls)[1..] == Replies(cfg, next, calls[1..]);
      NoneAfter(cfg, next, calls[0].now, calls[1..], lo, hi);
    }
  }

  lemma {:induction false} BudgetCoversRun(cfg: Config, k: Key, last: nat, calls: seq<Call>, lo: int, hi: int)
    requires 0 < Spacing(cfg) && Sound(cfg, k.bucket, last)
    requires Lawful(cfg, k, last, calls) && forall i :: 0 <= i < |calls| ==> !calls[i].drop
    ensures Allowed(calls, Replies(cfg, k, calls), lo, hi) <= Budget(cfg, k.bucket, last, hi)
    decreases |calls|
  {
    MulMonotonic(cfg.limit, 0, Ceil(hi - NextStart(cfg, k.bucket, last), Spacing(cfg)));
    if calls != [] {
      var now := calls[0].now;
      if hi <= now {
        NoneAfter(cfg, k, now, calls, lo, hi);
      } else {
        if Live(k.bucket, now) {
          BudgetCoversLive(cfg, k.bucket, last, now, hi);
        } else {
          BudgetCoversFresh(cfg, k.bucket, last, now, hi);
        }
        var next := NextKey(cfg, k, now);
        assert Replies(cfg, k, calls)[1..] == Replies(cfg, next, calls[1..]);
        BudgetCoversRun(cfg, next, now, calls[1..], lo, hi);
      }
    }
  }

  lemma BudgetWithinBound(cfg: Config, b: Option<Bucket>, now: nat, lo: nat, hi: int)
    requires 0 < Spacing(cfg) && WithinLimit(cfg, b) && lo <= now
    ensures Budget(cfg, b, now, hi) <= cfg.limit * (Ceil(hi - lo, Spacing(cfg)) + 1)
  {
    var c, d := Ceil(hi - NextStart(cfg, b, now), Spacing(cfg)), Ceil(hi - lo, Spacing(cfg));
    CeilMonotonic(hi - NextStart(cfg, b, now), hi - lo, Spacing(cfg));
    OneMore(cfg.limit, c, d + 1);
  }

  lemma {:induction false} BoundedFrom(cfg: Config, k: Key, last: nat, calls: seq<Call>, lo: nat, hi: int)
    requires 0 < Spacing(cfg) && Sound(cfg, k.bucket, last)
    requires Lawful(cfg, k, last, calls) && forall i :: 0 <= i < |calls| ==> !calls[i].drop
    ensures Allowed(calls, Replies(cfg, k, calls), lo, hi) <= cfg.limit * (Ceil(hi - lo, Spacing(cfg)) + 1)
    decreases |calls|
  {
    MulMonotonic(cfg.limit, 0, Ceil(hi - lo, Spacing(cfg)) + 1);
    if calls != [] {
      var now := calls[0].now;
      if now < lo {
        var next := NextKey(cfg, k, now);
        assert Replies(cfg, k, calls)[1..] == Replies(cfg, next, calls[1..]);
        BoundedFrom(cfg, next, now, calls[1..], lo, hi);
      } else {
        BudgetCoversRun(cfg, k, Max(last, lo), calls, lo, hi);
        BudgetWithinBound(cfg, k.bucket, Max(last, lo), lo, hi);
      }
    }
  }

  lemma {:induction false} SameCount(calls: seq<Call>, replies: seq<Reply>, lo: int, hi: int)
    requires |calls| == |replies|
    ensures Allowed(calls, replies, lo, hi) == Allowed(Undropped(calls), replies, lo, hi)
  {
    if calls != [] {
      SameCount(calls[1..], replies[1..], lo, hi);
    }
  }

  lemma {:induction false} UndroppedLawful(cfg: Config, dropping: Key, keeping: Key, last: nat, calls: seq<Call>)
    requires Lawful(cfg, dropping, last, calls)
    ensures Lawful(cfg, keeping, last, Undropped(calls))
    ensures forall i :: 0 <= i < |calls| ==> !Undropped(calls)[i].drop
    decreases |calls|
  {
    if calls != [] {
      var now := calls[0].now;
      UndroppedLawful(cfg, NextKey(cfg, Before(dropping, calls[0]), now), NextKey(cfg, keeping, now), now, calls[1..]);
    }
  }

  /** Over every half-open interval of `length` seconds of every run, expired
      keys dropped or not, at most limit * (ceil(length / m) + 1) replies let
      the caller through, m the shorter of window and block. */
  lemma RateBound(cfg: Config, calls: seq<Call>, lo: nat, length: nat)
    requires 0 < Spacing(cfg) && Lawful(cfg, EMPTY, 0, calls)
    ensures Allowed(calls, Replies(cfg, EMPTY, calls), lo, lo + length) <=
            cfg.limit * (Ceil(length, Spacing(cfg)) + 1)
  {
    ExpiryUnobservable(cfg, calls);
    SameCount(calls, Replies(cfg, EMPTY, calls), lo, lo + length);
    UndroppedLawful(cfg, EMPTY, EMPTY, 0, calls);
    BoundedFrom(cfg, EMPTY, 0, Undropped(calls), lo, lo + length);
  }

  lemma {:induction false} RefusedWhileBlocked(cfg: Config, k: Key, last: nat, calls: seq<Call>, i: nat)
    requires Lawful(cfg, k, last, calls) && k.bucket.Some? && k.bucket.value.isBlocked
    requires k.deadline.Some? && k.bucket.value.blockExpiresAt <= k.deadline.value
    requires i < |calls| && calls[i].now < k.bucket.value.blockExpiresAt
    ensures Replies(cfg, k, calls)[i].isBlocked
    ensures Replies(cfg, k, calls)[i].hits == k.bucket.value.hits
    decreases |calls|
  {
    LaterCalls(cfg, k, last, calls, i);
    if 0 < i {
      RefusedWhileBlocked(cfg, NextKey(cfg, k, calls[0].now), calls[0].now, calls[1..], i - 1);
    }
  }

  lemma {:induction false} LaterCalls(cfg: Config, k: Key, last: nat, calls: seq<Call>, i: nat)
    requires Lawful(cfg, k, last, calls) && i < |calls|
    ensures last <= calls[0].now <= calls[i].now
    decreases |calls|
  {
    if 0 < i {
      var next := NextKey(cfg, Before(k, calls[0]), calls[0].now);
      LaterCalls(cfg, next, calls[0].now, calls[1..], i - 1);
    }
  }

  lemma {:induction false} LawfulSuffix(cfg: Config, k: Key, last: nat, calls: seq<Call>, i: nat)
    requires Lawful(cfg, k, last, calls) && i < |calls|
    ensures var t := calls[i].now;
            var next := NextKey(cfg, Before(Final(cfg, k, calls[..i]), calls[i]), t);
            Lawful(cfg, next, t, calls[i + 1..]) &&
            Replies(cfg, k, calls)[i] == ReplyOf(next.bucket.value, t) &&
            Replies(cfg, k, calls)[i + 1..] == Replies(cfg, next, calls[i + 1..])
    decreases |calls|
  {
    if 0 < i {
      var next := NextKey(cfg, Before(k, calls[0]), calls[0].now);
      LawfulSuffix(cfg, next, calls[0].now, calls[1..], i - 1);
      assert calls[1..][..i - 1] == calls[..i][1..];
      assert calls[1..][i..] == calls[i + 1..];
      assert Replies(cfg, k, calls)[i + 1..] == Replies(cfg, k, calls)[1..][i..];
    }
  }

  /** A block is served in full: once a reply announces a block of `s` seconds,
      every call less than `s` seconds later is refused, and adds no hit. */
  lemma BlockServed(cfg: Config, calls: seq<Call>, i: nat, j: nat)
    requires Lawful(cfg, EMPTY, 0, calls) && i < j < |calls|
    requires Replies(cfg, EMPTY, calls)[i].isBlocked
    requires calls[j].now < calls[i].now + Replies(cfg, EMPTY, calls)[i].timeToBlockExpire
    ensures Replies(cfg, EMPTY, calls)[j].isBlocked
    ensures Replies(cfg, EMPTY, calls)[j].hits == Replies(cfg, EMPTY, calls)[i].hits
  {
    LawfulSuffix(cfg, EMPTY, 0, calls, i);
    var t := calls[i].now;
    var k := NextKey(cfg, Before(Final(cfg, EMPTY, calls[..i]), calls[i]), t);
    var rest := calls[i + 1..];
    assert rest[j - i - 1] == calls[j];
    LaterCalls(cfg, k, t, rest, j - i - 1);
    RefusedWhileBlocked(cfg, k, t, rest, j - i - 1);
    assert Replies(cfg, EMPTY, calls)[j] == Replies(cfg, EMPTY, calls)[i + 1..][j - i - 1];
  }

  // ---------------------------------------------------------------------
  // From one reply to the next
  // ---------------------------------------------------------------------

  /** A window opened by a call of its own: one hit, within the limit unless that is zero. */
  predicate OpensWindow(cfg: Config, s: Reply) {
    s.hits == 1 && s.timeToExpire == cfg.ttlMs / 1000 && (s.isBlocked <==> cfg.limit == 0) &&
    s.timeToBlockExpire == if s.isBlocked then cfg.blockMs / 1000 else 0
  }

  /** `s` answers `dt` seconds after `r`: a live block stands, a live window counts
      one more and blocks exactly when it was full, anything else opens a window. */
  predicate Follows(cfg: Config, r: Reply, s: Reply, dt: int) {
    if r.isBlocked && dt < r.timeToBlockExpire
    then s == Reply(r.hits, r.timeToExpire - dt, true, r.timeToBlockExpire - dt)
    else if !r.isBlocked && dt < r.timeToExpire
    then s.hits == r.hits + 1 && s.timeToExpire == r.timeToExpire - dt && (s.isBlocked <==> r.hits == cfg.limit) &&
         s.timeToBlockExpire == if s.isBlocked then cfg.blockMs / 1000 else 0
    else OpensWindow(cfg, s)
  }

  /** An open window remembers no block still to come. */
  predicate BlockPast(b: Option<Bucket>, last: int) {
    b.Some? && !b.value.isBlocked ==> b.value.blockExpiresAt <= last
  }

  lemma FollowsOne(cfg: Config, b: Bucket, now: nat, later: nat)
    requires WithinLimit(cfg, Some(b)) && BlockPast(Some(b), now) && now <= later
    ensures Follows(cfg, ReplyOf(b, now), ReplyOf(Next(cfg, Some(b), later), later), later - now)
  {
  }

  lemma NextSound(cfg: Config, b: Option<Bucket>, last: int, now: nat)
    requires WithinLimit(cfg, b) && BlockPast(b, last) && last <= now
    ensures WithinLimit(cfg, Some(Next(cfg, b, now))) && BlockPast(Some(Next(cfg, b, now)), now)
  {
  }

  lemma {:induction false} FollowsFrom(cfg: Config, k: Key, last: nat, calls: seq<Call>, i: nat)
    requires Lawful(cfg, k, last, calls) && (forall j :: 0 <= j < |calls| ==> !calls[j].drop)
    requires WithinLimit(cfg, k.bucket) && BlockPast(k.bucket, last) && i + 1 < |calls|
    ensures calls[i].now <= calls[i + 1].now
    ensures Follows(cfg, Replies(cfg, k, calls)[i], Replies(cfg, k, calls)[i + 1], calls[i + 1].now - calls[i].now)
    decreases |calls|
  {
    var now, next := calls[0].now, NextKey(cfg, k, calls[0].now);
    NextSound(cfg, k.bucket, last, now);
    assert Replies(cfg, k, calls)[1..] == Replies(cfg, next, calls[1..]);
    if i == 0 {
      FollowsOne(cfg, next.bucket.value, now, calls[1].now);
    } else {
      FollowsFrom(cfg, next, now, calls[1..], i - 1);
    }
  }

  lemma {:induction false} SameTimes(calls: seq<Call>, i: nat)
    requires i < |calls|
    ensures Undropped(calls)[i].now == calls[i].now
  {
    if 0 < i {
      SameTimes(calls[1..], i - 1);
    }
  }

  /** Expired keys dropped or not, each reply follows from the one before it. */
  lemma EachReplyFollows(cfg: Config, calls: seq<Call>, i: nat)
    requires Lawful(cfg, EMPTY, 0, calls) && i + 1 < |calls|
    ensures calls[i].now <= calls[i + 1].now
    ensures var replies := Replies(cfg, EMPTY, calls);
            Follows(cfg, replies[i], replies[i + 1], calls[i + 1].now - calls[i].now)
  {
    ExpiryUnobservable(cfg, calls);
    UndroppedLawful(cfg, EMPTY, EMPTY, 0, calls);
    SameTimes(calls, i);
    SameTimes(calls, i + 1);
    FollowsFrom(cfg, EMPTY, 0, Undropped(calls), i);
  }

  lemma FirstReplyOpens(cfg: Config, calls: seq<Call>)
    requires Lawful(cfg, EMPTY, 0, calls) && calls != []
    ensures OpensWindow(cfg, Replies(cfg, EMPTY, calls)[0])
  {
  }

  /** Within an open window each call adds one hit, and a block comes exactly at the limit. */
  lemma {:induction false} OpenWindowCounts(cfg: Config, calls: seq<Call>, i: nat)
    requires Lawful(cfg, EMPTY, 0, calls) && i + 1 < |calls|
    requires var r := Replies(cfg, EMPTY, calls)[i]; !r.isBlocked && calls[i + 1].now < calls[i].now + r.timeToExpire
    ensures var replies := Replies(cfg, EMPTY, calls);
            replies[i + 1].hits == replies[i].hits + 1 &&
            (replies[i + 1].isBlocked <==> replies[i].hits == cfg.limit) &&
            calls[i + 1].now + replies[i + 1].timeToExpire == calls[i].now + replies[i].timeToExpire
  {
    EachReplyFollows(cfg, calls, i);
  }

  /** The key is kept exactly as long as the reply says that something is live. */
  lemma KeyExpiresWithReply(cfg: Config, k: Key, now: nat)
    ensures var r := ReplyOf(Next(cfg, k.bucket, now), now);
            0 < r.timeToExpire || 0 < r.timeToBlockExpire ==>
              NextKey(cfg, k, now).deadline == Some(now + Max(r.timeToExpire, r.timeToBlockExpire))
  {
  }

  /** At most `limit` calls in any stretch of the window's length. */
  predicate KeepsToRate(cfg: Config, calls: seq<Call>) {
    forall i :: 0 <= i && i + cfg.limit < |calls| ==> calls[i].now + cfg.ttlMs / 1000 <= calls[i + cfg.limit].now
  }

  /** The hits are the calls since the one that opened the window. */
  predicate CountsCalls(cfg: Config, calls: seq<Call>, r: Reply, i: nat)
    requires i < |calls|
  {
    !r.isBlocked && 1 <= r.hits <= cfg.limit && r.hits <= i + 1 &&
    calls[i + 1 - r.hits].now + cfg.ttlMs / 1000 == calls[i].now + r.timeToExpire
  }

  lemma CountedNext(cfg: Config, calls: seq<Call>, r: Reply, s: Reply, i: nat)
    requires 1 <= cfg.limit && KeepsToRate(cfg, calls) && i + 1 < |calls| && CountsCalls(cfg, calls, r, i)
    requires Follows(cfg, r, s, calls[i + 1].now - calls[i].now)
    ensures CountsCalls(cfg, calls, s, i + 1)
  {
    if r.hits == cfg.limit {
      assert calls[i + 1 - cfg.limit].now + cfg.ttlMs / 1000 <= calls[i + 1 - cfg.limit + cfg.limit].now;
    }
  }

  lemma {:induction false} StaysCounted(cfg: Config, calls: seq<Call>, i: nat)
    requires Lawful(cfg, EMPTY, 0, calls) && 1 <= cfg.limit && KeepsToRate(cfg, calls) && i < |calls|
    ensures CountsCalls(cfg, calls, Replies(cfg, EMPTY, calls)[i], i)
  {
    var replies := Replies(cfg, EMPTY, calls);
    if i == 0 {
      FirstReplyOpens(cfg, calls);
    } else {
      StaysCounted(cfg, calls, i - 1);
      EachReplyFollows(cfg, calls, i - 1);
      CountedNext(cfg, calls, replies[i - 1], replies[i], i - 1);
    }
  }

  /** A caller that keeps to the rate is never refused. */
  lemma NeverRefused(cfg: Config, calls: seq<Call>)
    requires Lawful(cfg, EMPTY, 0, calls) && 1 <= cfg.limit && KeepsToRate(cfg, calls)
    ensures forall i :: 0 <= i < |calls| ==> !Replies(cfg, EMPTY, calls)[i].isBlocked
  {
    forall i | 0 <= i < |calls| ensures !Replies(cfg, EMPTY, calls)[i].isBlocked {
      StaysCounted(cfg, calls, i);
    }
  }
}

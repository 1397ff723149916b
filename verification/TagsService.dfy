/** The API's tag service by itself, over the stored bytes of the cache
    (apps/api/src/tags/tags.service.ts, redis-cache-reader.ts), tied to the
    concurrent machine of Resolve and the statement machine of Interleaving. */
module TagsService {
  import opened Prelude
  import opened TagAccounts
  import opened Mirror
  import I = Interleaving
  import R = Resolve

  /** Columns that a row is created with and that nothing here writes. */
  datatype Fixed = Fixed(verified: bool, merchant: bool, createdAt: int)

  /** JSON, base58 and the profanity check are whatever the libraries compute;
      `fixed` gives a tag's fixed columns. */
  datatype Settings = Settings(prefix: string, cfg: R.Config,
                               stringify: R.Payload -> string, parse: string -> Option<R.Payload>,
                               base58: Address -> string, bad: string -> bool, fixed: string -> Fixed)
  {
    /** Responses are JSON objects: they parse back and are not the sentinel. */
    ghost predicate Lawful() {
      forall p :: parse(stringify(p)) == Some(p) && stringify(p) != NEGATIVE_SENTINEL
    }

    function Raw(a: R.Answer): string { if a.NotFound? then NEGATIVE_SENTINEL else stringify(a.payload) }

    /** The shared key of the API and the indexer. */
    function Key(tag: string): string { prefix + "resolve:" + tag }

    predicate IsResolveKey(key: string) { prefix + "resolve:" <= key }
  }

  const NEGATIVE_SENTINEL := "__TIP_CACHE_NEGATIVE__"

  datatype Stored = Stored(raw: string, expiresAt: nat)

  type Redis = map<string, Stored>

  /** What a read of the key answers at time `t`; an unreadable value is a miss. */
  function Reads(s: Settings, redis: Redis, key: string, t: nat): Option<R.Answer> {
    if !s.IsResolveKey(key) || key !in redis || redis[key].expiresAt < t then None
    else if redis[key].raw == NEGATIVE_SENTINEL then Some(R.NotFound)
    else
      match s.parse(redis[key].raw)
      case None => None
      case Some(p) => Some(R.Found(p))
  }

  /** Two tags never share a cache key. */
  lemma KeyDetermines(s: Settings, tag: string, other: string)
    ensures s.Key(tag) == s.Key(other) <==> tag == other
    ensures s.IsResolveKey(s.Key(tag))
  {
    var head := s.prefix + "resolve:";
    assert s.Key(tag)[|head|..] == tag && s.Key(other)[|head|..] == other;
  }

  class RedisCacheReader {
    const s: Settings
    var redis: Redis

    constructor (s: Settings)
      ensures this.s == s && redis == map[]
    {
      this.s := s;
      redis := map[];
    }

    method Get(key: string, now: nat, up: bool) returns (r: Option<R.Answer>)
      ensures r == if up then Reads(s, redis, key, now) else None
    {
      if !s.IsResolveKey(key) || !up { return None; }
      if key !in redis || redis[key].expiresAt < now { return None; }
      var raw := redis[key].raw;
      if raw == NEGATIVE_SENTINEL { return Some(R.NotFound); }
      var parsed := s.parse(raw);
      if parsed.None? { return None; }
      r := Some(R.Found(parsed.value));
    }

    /** What was set is what later reads answer until it expires. */
    method Set(key: string, value: R.Answer, now: nat, ttl: nat, up: bool)
      requires s.Lawful()
      modifies this
      ensures forall k, t: nat :: k != key || !up ==> Reads(s, redis, k, t) == Reads(s, old(redis), k, t)
      ensures up && s.IsResolveKey(key) ==>
        forall t: nat :: Reads(s, redis, key, t) == if t <= now + ttl then Some(value) else None
    {
      if !s.IsResolveKey(key) || !up { return; }
      redis := redis[key := Stored(s.Raw(value), now + ttl)];
    }

    method Delete(key: string, up: bool)
      modifies this
      ensures forall k, t: nat :: k != key || !up ==> Reads(s, redis, k, t) == Reads(s, old(redis), k, t)
      ensures up ==> forall t: nat :: Reads(s, redis, key, t) == None
    {
      if !s.IsResolveKey(key) || !up { return; }
      redis := redis - {key};
    }
  }

  // ---------------------------------------------------------------------
  // The service
  // ---------------------------------------------------------------------

  function PayloadOf(s: Settings, tag: string, row: Row): R.Payload {
    R.Payload(s.base58(row.wallet), row.profile.displayName, row.profile.avatar, row.profile.preferredToken,
              s.fixed(tag).verified, s.fixed(tag).merchant)
  }

  function ViewOf(s: Settings, rows: Table, tag: string): R.View {
    if tag !in rows then R.Absent
    else if rows[tag].blocked then R.Blocked
    else R.Active(PayloadOf(s, tag, rows[tag]))
  }

  /** The bytes under the tag's key say what the machine's cache entry says. */
  ghost predicate Stands(s: Settings, redis: Redis, tag: string, entry: Option<R.Entry>) {
    forall t: nat :: Reads(s, redis, s.Key(tag), t) ==
      if entry.Some? && t <= entry.value.expiresAt then Some(entry.value.reading.answer) else None
  }

  /** The machine's world shows this service's mirror and cache for the tag. */
  ghost predicate Shows(s: Settings, rows: Table, redis: Redis, tag: string, w: R.World) {
    R.Current(w) == ViewOf(s, rows, tag) && Stands(s, redis, tag, w.cache)
  }

  /** The identity as the API shows it. */
  datatype Identity = Identity(tag: string, owner: string, wallet: string, profile: Profile, fixed: Fixed)

  datatype EditResult = Edited(identity: Identity) | NotFound | NotOwner | NotAllowed

  datatype Reply = Answered(answer: Option<R.Answer>) | Waits(lookup: nat)

  /** The instance's map holds the lookup that the machine has in flight for the tag. */
  predicate SameFlight(s: Settings, inFlight: map<string, nat>, tag: string, w: R.World, instance: nat) {
    (s.Key(tag) in inFlight <==> instance in w.inFlight) &&
    (s.Key(tag) in inFlight ==> inFlight[s.Key(tag)] == w.inFlight[instance])
  }

  class TagsService {
    const s: Settings
    const cache: RedisCacheReader
    var rows: Table
    var inFlight: map<string, nat>

    constructor (s: Settings, cache: RedisCacheReader, rows: Table)
      ensures this.s == s && this.cache == cache && this.rows == rows && inFlight == map[]
    {
      this.s := s;
      this.cache := cache;
      this.rows := rows;
      inFlight := map[];
    }

    /** One resolve by itself: `wallet` is what the chain would show, after
        `elapsed` seconds. It waits for a lookup under way exactly when the
        machine's call does; otherwise it does to the cache and answers what the
        machine's uninterrupted visit does. */
    method Resolve(tag: string, ghost w: R.World, x: R.Visit, now: nat) returns (reply: Reply)
      requires s.Lawful() && cache.s == s && now == w.now && x.call !in w.calls && x.lookup !in w.lookups
      requires Shows(s, rows, cache.redis, tag, w) && SameFlight(s, inFlight, tag, w, x.instance)
      modifies cache, this`inFlight
      ensures inFlight == old(inFlight)
      ensures reply.Waits? <==> !R.Alone(w, x)
      ensures var v := R.Run(s.cfg, w, if reply.Waits? then R.Calling(x) else R.Serving(x));
              Shows(s, rows, cache.redis, tag, v) && x.call in v.calls &&
              match reply
              case Waits(lookup) => v.calls[x.call] == R.Joined(x.instance, lookup)
              case Answered(answer) =>
                v.calls[x.call].Answered? &&
                answer == match v.calls[x.call].outcome case None => None case Some(r) => Some(r.answer)
      ensures forall k, t: nat :: k != s.Key(tag) ==> Reads(s, cache.redis, k, t) == Reads(s, old(cache.redis), k, t)
    {
      if R.Alone(w, x) {
        R.ServedAlone(s.cfg, w, x);
      } else {
        R.WaitsForLookup(s.cfg, w, x);
      }
      KeyDetermines(s, tag, tag);
      var key := s.Key(tag);
      var cached := cache.Get(key, now, x.ok.get);
      if cached.Some? { return Answered(cached); }
      if key in inFlight { return Waits(inFlight[key]); }
      ghost var before := inFlight;
      inFlight := inFlight[key := x.lookup];
      var answer := ResolveUncached(tag, x, now);
      inFlight := inFlight - {key};
      assert inFlight == before;
      reply := Answered(answer);
    }

    /** The lookup: the mirror, then for an absent row the chain; what it found is
        cached with the time to live of its kind. */
    method ResolveUncached(tag: string, x: R.Visit, now: nat) returns (answer: Option<R.Answer>)
      requires s.Lawful() && cache.s == s
      modifies cache
      ensures answer.None? <==> !x.ok.mirror
      ensures x.ok.mirror && tag in rows && !rows[tag].blocked ==>
                answer.value.Found? &&
                var p, row := answer.value.payload, rows[tag];
                p.wallet == s.base58(row.wallet) && p.displayName == row.profile.displayName &&
                p.avatar == row.profile.avatar && p.preferredToken == row.profile.preferredToken &&
                p.verified == s.fixed(tag).verified && p.merchant == s.fixed(tag).merchant
      ensures x.ok.mirror && tag in rows && rows[tag].blocked ==> answer.value.NotFound?
      ensures x.ok.mirror && tag !in rows && x.wallet.None? ==> answer.value.NotFound?
      ensures x.ok.mirror && tag !in rows && x.wallet.Some? ==>
                answer.value == R.Found(R.Payload(x.wallet.value, None, None, None, false, false))
      ensures var active := tag in rows && !rows[tag].blocked;
              forall k, t: nat :: Reads(s, cache.redis, k, t) ==
                if k == s.Key(tag) && x.ok.mirror && x.ok.store
                then if t <= now + x.elapsed + (if active then s.cfg.ttl else s.cfg.negativeTtl) then answer else None
                else Reads(s, old(cache.redis), k, t)
    {
      KeyDetermines(s, tag, tag);
      if !x.ok.mirror { return None; }
      var found, ttl := R.NotFound, s.cfg.negativeTtl;
      if tag in rows && !rows[tag].blocked {
        found, ttl := R.Found(PayloadOf(s, tag, rows[tag])), s.cfg.ttl;
      } else if tag !in rows && x.wallet.Some? {
        found := R.Found(R.FromChain(x.wallet.value));
      }
      cache.Set(s.Key(tag), found, now + x.elapsed, ttl, x.ok.store);
      answer := Some(found);
    }

    /** A profile edit, refused unless the row is active, owned by the caller and
        the text passes the check; then the tag's cache key is deleted. */
    method UpdateIdentity(tag: string, caller: Address, edit: I.Edit, up: bool) returns (result: EditResult)
      requires cache.s == s
      modifies this`rows, cache
      ensures result.Edited? <==> I.MayEdit(s.bad, old(rows), tag, caller, edit)
      ensures result.NotAllowed? <==>
                tag in old(rows) && !old(rows)[tag].blocked && old(rows)[tag].owner == caller &&
                ((edit.displayName.Some? && edit.displayName.value.Some? && s.bad(edit.displayName.value.value)) ||
                 (edit.bio.Some? && edit.bio.value.Some? && s.bad(edit.bio.value.value)))
      ensures result.NotFound? <==> !ViewOf(s, old(rows), tag).Active?
      ensures result.NotOwner? <==> ViewOf(s, old(rows), tag).Active? && old(rows)[tag].owner != caller
      ensures rows == if result.Edited? then I.WithProfile(old(rows), tag, edit) else old(rows)
      ensures result.Edited? ==>
                tag in rows && var shown, row := result.identity, rows[tag];
                shown.tag == tag && shown.owner == s.base58(row.owner) && shown.wallet == s.base58(row.wallet) &&
                shown.profile == row.profile && shown.fixed == s.fixed(tag)
      ensures forall k, t: nat :: !result.Edited? || k != s.Key(tag) || !up ==>
                Reads(s, cache.redis, k, t) == Reads(s, old(cache.redis), k, t)
      ensures result.Edited? && up ==> forall t: nat :: Reads(s, cache.redis, s.Key(tag), t) == None
    {
      if tag !in rows || rows[tag].blocked { return NotFound; }
      if rows[tag].owner != caller { return NotOwner; }
      if edit.displayName.Some? && edit.displayName.value.Some? && s.bad(edit.displayName.value.value) {
        return NotAllowed;
      }
      if edit.bio.Some? && edit.bio.value.Some? && s.bad(edit.bio.value.value) {
        return NotAllowed;
      }
      var p := rows[tag].profile;
      if edit.displayName.Some? { p := p.(displayName := edit.displayName.value); }
      if edit.avatar.Some? { p := p.(avatar := edit.avatar.value); }
      if edit.bio.Some? { p := p.(bio := edit.bio.value); }
      if edit.preferredToken.Some? { p := p.(preferredToken := edit.preferredToken.value); }
      rows := rows[tag := rows[tag].(profile := p)];
      cache.Delete(s.Key(tag), up);
      result := Edited(Identity(tag, s.base58(rows[tag].owner), s.base58(rows[tag].wallet), p, s.fixed(tag)));
    }
  }

  // ---------------------------------------------------------------------
  // The writers behind the machine's writes
  // ---------------------------------------------------------------------

  /** Whatever statements indexers, backfills, editors and moderators execute,
      the view of a tag changes only as the machine's writes may. */
  lemma {:induction false} WritersRespectViews(s: Settings, w: I.World, run: seq<I.Step>, tag: string)
    ensures var before, after := ViewOf(s, w.db.rows, tag), ViewOf(s, I.Run(s.bad, w, run).db.rows, tag);
            after == before || R.MayBecome(before, after)
  {
    if run != [] {
      var mid := I.Run(s.bad, w, run[..|run| - 1]);
      WritersRespectViews(s, w, run[..|run| - 1], tag);
      I.AfterGrows(s.bad, mid, run[|run| - 1]);
    }
  }
}

/** Sign-in with a nonce (apps/api/src/auth/auth.service.ts): any number of
    challenges and verifications, interleaved between their store commands.
    Times are milliseconds. */
module Authentication {
  import opened Prelude
  import opened Nonces
  import opened SignInMessage

  /** Configuration and what is left uninterpreted: base58 addresses, ed25519
      and dates. */
  datatype Env = Env(prefix: string, domain: string, ttlSeconds: nat, validAddress: string -> bool,
                     verifySignature: (string, string, string) -> bool,
                     isoDate: int -> string, parseDate: string -> Option<int>)

  ghost predicate AddressesPlain(env: Env) {
    forall p :: env.validAddress(p) ==> p != "" && ':' !in p && ' ' !in p && '\n' !in p
  }

  ghost predicate DatesRoundTrip(env: Env) {
    forall t :: env.parseDate(env.isoDate(t)) == Some(t) && '\n' !in env.isoDate(t) && !EndsInColon(env.isoDate(t))
  }

  /** 24 random bytes in hexadecimal. */
  predicate IsNonce(s: string) {
    |s| == 48 && forall i :: 0 <= i < |s| ==> '0' <= s[i] <= '9' || 'a' <= s[i] <= 'f'
  }

  /** A nonce put for a key, redeemable from `at` until `until`. */
  datatype Issue = Issue(pubkey: string, nonce: string, at: int, until: int)

  /** A stored nonce: when its key expires and which issue it comes from. */
  datatype Entry = Entry(deadline: int, issue: nat)

  datatype Attempt = Attempt(pubkey: string, nonce: string, message: string, signature: string)

  datatype Pc = Checked(attempt: Attempt) | Consumed(attempt: Attempt) | Over(attempt: Attempt)

  datatype Redemption = Redeemed(at: int, issue: nat)

  /** `issues`, `takes` and `tokens` record what has happened so far; the latter
      two are keyed by verification. */
  datatype World = World(now: int, store: map<string, Entry>, issues: seq<Issue>,
                         runs: map<nat, Pc>, takes: map<nat, Redemption>, tokens: map<nat, string>)

  const START := World(0, map[], [], map[], map[], map[])

  datatype Step =
    | Tick(ms: nat)
    | Challenge(pubkey: string, nonce: string)
    | Begin(id: nat, pubkey: string, message: string, signature: string)
    | TakeNonce(id: nat)
    | TakeFails(id: nat, executed: bool)
    | Sign(id: nat)
    | Reap(key: string)

  /** The checks before the nonce is consumed. An unreadable date compares like
      NaN and passes. */
  function Check(env: Env, now: int, pubkey: string, message: string, signature: string): Option<Attempt> {
    match Parse(message)
    case None => None
    case Some(f) =>
      if f.pubkey != pubkey then None
      else if env.parseDate(f.expirationTime).Some? && env.parseDate(f.expirationTime).value < now then None
      else Some(Attempt(pubkey, f.nonce, message, signature))
  }

  function AfterChallenge(env: Env, w: World, pubkey: string, nonce: string): World {
    if !env.validAddress(pubkey) || !IsNonce(nonce) then w
    else
      var until := w.now + env.ttlSeconds * 1000;
      w.(store := w.store[RedisKey(env.prefix, pubkey, nonce) := Entry(until, |w.issues|)],
         issues := w.issues + [Issue(pubkey, nonce, w.now, until)])
  }

  function AttemptKey(env: Env, a: Attempt): string { RedisKey(env.prefix, a.pubkey, a.nonce) }

  /** GETDEL. */
  function AfterTake(env: Env, w: World, id: nat, a: Attempt): World {
    var key := AttemptKey(env, a);
    if key in w.store && w.now <= w.store[key].deadline
    then w.(store := w.store - {key}, runs := w.runs[id := Consumed(a)],
            takes := w.takes[id := Redeemed(w.now, w.store[key].issue)])
    else w.(store := w.store - {key}, runs := w.runs[id := Over(a)])
  }

  function AfterSign(env: Env, w: World, id: nat, a: Attempt): World {
    if env.verifySignature(a.message, a.signature, a.pubkey)
    then w.(runs := w.runs[id := Over(a)], tokens := w.tokens[id := a.pubkey])
    else w.(runs := w.runs[id := Over(a)])
  }

  function After(env: Env, w: World, s: Step): World {
    match s
    case Tick(ms) => w.(now := w.now + ms)
    case Challenge(pubkey, nonce) => AfterChallenge(env, w, pubkey, nonce)
    case Begin(id, pubkey, message, signature) =>
      var attempt := Check(env, w.now, pubkey, message, signature);
      if id in w.runs || attempt.None? then w else w.(runs := w.runs[id := Checked(attempt.value)])
    case TakeNonce(id) =>
      if id in w.runs && w.runs[id].Checked? then AfterTake(env, w, id, w.runs[id].attempt) else w
    case TakeFails(id, executed) =>
      if id in w.runs && w.runs[id].Checked?
      then w.(runs := w.runs[id := Over(w.runs[id].attempt)],
              store := if executed then w.store - {AttemptKey(env, w.runs[id].attempt)} else w.store)
      else w
    case Sign(id) =>
      if id in w.runs && w.runs[id].Consumed? then AfterSign(env, w, id, w.runs[id].attempt) else w
    case Reap(key) =>
      if key in w.store && w.store[key].deadline < w.now then w.(store := w.store - {key}) else w
  }

  function Run(env: Env, w: World, run: seq<Step>): World {
    if run == [] then w else After(env, Run(env, w, run[..|run| - 1]), run[|run| - 1])
  }

  // ---------------------------------------------------------------------
  // Safety of every interleaving
  // ---------------------------------------------------------------------

  ghost predicate IssuesInv(env: Env, w: World) {
    forall i :: 0 <= i < |w.issues| ==>
      var e := w.issues[i];
      ColonFree(e.pubkey) && ColonFree(e.nonce) && e.at <= w.now && e.until == e.at + env.ttlSeconds * 1000
  }

  ghost predicate StoreInv(env: Env, w: World) {
    forall k :: k in w.store ==>
      w.store[k].issue < |w.issues| &&
      k == RedisKey(env.prefix, w.issues[w.store[k].issue].pubkey, w.issues[w.store[k].issue].nonce) &&
      w.store[k].deadline == w.issues[w.store[k].issue].until
  }

  /** A take consumed an issue of its own pair within that issue's lifetime. */
  predicate Earned(w: World, t: Redemption, a: Attempt) {
    t.issue < |w.issues| && w.issues[t.issue].pubkey == a.pubkey && w.issues[t.issue].nonce == a.nonce &&
    w.issues[t.issue].at <= t.at <= w.issues[t.issue].until
  }

  ghost predicate TakesInv(w: World) {
    forall id :: id in w.takes ==> id in w.runs && !w.runs[id].Checked? && Earned(w, w.takes[id], w.runs[id].attempt)
  }

  /** No issue is consumed twice, and none in store has been consumed. */
  ghost predicate SingleUse(w: World) {
    (forall i, j :: i in w.takes && j in w.takes && i != j ==> w.takes[i].issue != w.takes[j].issue) &&
    (forall i, k :: i in w.takes && k in w.store ==> w.takes[i].issue != w.store[k].issue)
  }

  /** Attempts satisfy `ok`, which their checks established; tokens belong to
      finished runs whose signature verified. */
  ghost predicate RunsInv(env: Env, ok: Attempt -> bool, w: World) {
    (forall id :: id in w.runs ==> ok(w.runs[id].attempt) && (w.runs[id].Consumed? ==> id in w.takes)) &&
    (forall id :: id in w.tokens ==>
      id in w.runs && id in w.takes && w.runs[id].Over? && w.tokens[id] == w.runs[id].attempt.pubkey &&
      SignatureOk(env, w.runs[id].attempt))
  }

  predicate SignatureOk(env: Env, a: Attempt) { env.verifySignature(a.message, a.signature, a.pubkey) }

  ghost predicate Inv(env: Env, ok: Attempt -> bool, w: World) {
    IssuesInv(env, w) && StoreInv(env, w) && TakesInv(w) && SingleUse(w) && RunsInv(env, ok, w)
  }

  lemma NonceColonFree(s: string)
    requires IsNonce(s)
    ensures ColonFree(s)
  {
  }

  lemma ChallengeKept(env: Env, ok: Attempt -> bool, w: World, pubkey: string, nonce: string)
    requires AddressesPlain(env) && Inv(env, ok, w)
    ensures Inv(env, ok, AfterChallenge(env, w, pubkey, nonce))
  {
    ChallengeIssues(env, w, pubkey, nonce);
    ChallengeTakes(env, w, pubkey, nonce);
  }

  lemma ChallengeIssues(env: Env, w: World, pubkey: string, nonce: string)
    requires AddressesPlain(env) && IssuesInv(env, w) && StoreInv(env, w)
    ensures var v := AfterChallenge(env, w, pubkey, nonce); IssuesInv(env, v) && StoreInv(env, v)
  {
    if IsNonce(nonce) {
      NonceColonFree(nonce);
    }
  }

  lemma ChallengeTakes(env: Env, w: World, pubkey: string, nonce: string)
    requires TakesInv(w) && SingleUse(w)
    ensures var v := AfterChallenge(env, w, pubkey, nonce); TakesInv(v) && SingleUse(v)
  {
  }

  /** A run that finds the entry of its key finds an issue of its own pair. */
  lemma TakeEarned(env: Env, w: World, a: Attempt)
    requires IssuesInv(env, w) && StoreInv(env, w)
    requires var key := AttemptKey(env, a); key in w.store && w.now <= w.store[key].deadline
    ensures Earned(w, Redeemed(w.now, w.store[AttemptKey(env, a)].issue), a)
  {
    var e := w.issues[w.store[AttemptKey(env, a)].issue];
    RedisKeyDetermines(env.prefix, e.pubkey, e.nonce, a.pubkey, a.nonce);
    KeyDetermines(e.pubkey, e.nonce, a.pubkey, a.nonce);
  }

  lemma TakeSingleUse(env: Env, w: World, id: nat, a: Attempt)
    requires StoreInv(env, w) && SingleUse(w) && id !in w.takes
    ensures SingleUse(AfterTake(env, w, id, a))
  {
  }

  lemma TakeTakes(env: Env, w: World, id: nat)
    requires IssuesInv(env, w) && StoreInv(env, w) && TakesInv(w) && id in w.runs && w.runs[id].Checked?
    ensures TakesInv(AfterTake(env, w, id, w.runs[id].attempt))
  {
    var a := w.runs[id].attempt;
    var key := AttemptKey(env, a);
    if key in w.store && w.now <= w.store[key].deadline {
      TakeEarned(env, w, a);
    }
  }

  lemma TakeRest(env: Env, ok: Attempt -> bool, w: World, id: nat)
    requires IssuesInv(env, w) && StoreInv(env, w) && RunsInv(env, ok, w) && id in w.runs && w.runs[id].Checked?
    ensures var v := AfterTake(env, w, id, w.runs[id].attempt);
            IssuesInv(env, v) && StoreInv(env, v) && RunsInv(env, ok, v)
  {
  }

  lemma TakeKept(env: Env, ok: Attempt -> bool, w: World, id: nat)
    requires Inv(env, ok, w) && id in w.runs && w.runs[id].Checked?
    ensures Inv(env, ok, AfterTake(env, w, id, w.runs[id].attempt))
  {
    TakeSingleUse(env, w, id, w.runs[id].attempt);
    TakeTakes(env, w, id);
    TakeRest(env, ok, w, id);
  }

  lemma SignTakes(env: Env, w: World, id: nat)
    requires TakesInv(w) && id in w.runs && w.runs[id].Consumed?
    ensures TakesInv(AfterSign(env, w, id, w.runs[id].attempt))
  {
  }

  lemma SignRuns(env: Env, ok: Attempt -> bool, w: World, id: nat)
    requires TakesInv(w) && RunsInv(env, ok, w) && id in w.runs && w.runs[id].Consumed?
    ensures RunsInv(env, ok, AfterSign(env, w, id, w.runs[id].attempt))
  {
  }

  lemma SignKept(env: Env, ok: Attempt -> bool, w: World, id: nat)
    requires Inv(env, ok, w) && id in w.runs && w.runs[id].Consumed?
    ensures Inv(env, ok, AfterSign(env, w, id, w.runs[id].attempt))
  {
    SignTakes(env, w, id);
    SignRuns(env, ok, w, id);
    StoresAgree(env, w, AfterSign(env, w, id, w.runs[id].attempt));
  }

  lemma StoresAgree(env: Env, w: World, v: World)
    requires IssuesInv(env, w) && StoreInv(env, w) && SingleUse(w)
    requires v.issues == w.issues && v.store == w.store && v.takes == w.takes && v.now == w.now
    ensures IssuesInv(env, v) && StoreInv(env, v) && SingleUse(v)
  {
  }

  lemma DroppedKept(env: Env, ok: Attempt -> bool, w: World, store: map<string, Entry>, ms: nat)
    requires Inv(env, ok, w) && forall k :: k in store ==> k in w.store && store[k] == w.store[k]
    ensures Inv(env, ok, w.(store := store, now := w.now + ms))
  {
    DroppedStores(env, w, store, ms);
  }

  lemma DroppedStores(env: Env, w: World, store: map<string, Entry>, ms: nat)
    requires IssuesInv(env, w) && StoreInv(env, w) && SingleUse(w)
    requires forall k :: k in store ==> k in w.store && store[k] == w.store[k]
    ensures var v := w.(store := store, now := w.now + ms); IssuesInv(env, v) && StoreInv(env, v) && SingleUse(v)
  {
  }

  lemma MovedKept(env: Env, ok: Attempt -> bool, w: World, id: nat, pc: Pc)
    requires Inv(env, ok, w) && ok(pc.attempt) && !pc.Consumed?
    requires if id in w.runs then w.runs[id].Checked? && pc == Over(w.runs[id].attempt) else pc.Checked?
    ensures Inv(env, ok, w.(runs := w.runs[id := pc]))
  {
    MovedRuns(env, ok, w, id, pc);
    MovedTakes(w, id, pc);
  }

  lemma MovedRuns(env: Env, ok: Attempt -> bool, w: World, id: nat, pc: Pc)
    requires TakesInv(w) && RunsInv(env, ok, w) && ok(pc.attempt) && !pc.Consumed?
    requires if id in w.runs then w.runs[id].Checked? && pc == Over(w.runs[id].attempt) else pc.Checked?
    ensures RunsInv(env, ok, w.(runs := w.runs[id := pc]))
  {
  }

  lemma MovedTakes(w: World, id: nat, pc: Pc)
    requires TakesInv(w)
    requires if id in w.runs then w.runs[id].Checked? && pc == Over(w.runs[id].attempt) else pc.Checked?
    ensures TakesInv(w.(runs := w.runs[id := pc]))
  {
  }

  lemma VerificationKept(env: Env, ok: Attempt -> bool, w: World, s: Step, id: nat)
    requires Inv(env, ok, w) && id in w.runs
    requires s == TakeNonce(id) || s == Sign(id) || (s.TakeFails? && s.id == id)
    ensures Inv(env, ok, After(env, w, s))
  {
    if s.TakeNonce? && w.runs[id].Checked? {
      TakeKept(env, ok, w, id);
    } else if s.Sign? && w.runs[id].Consumed? {
      SignKept(env, ok, w, id);
    } else if s.TakeFails? && w.runs[id].Checked? {
      FailureKept(env, ok, w, id, s.executed);
    }
  }

  lemma FailureKept(env: Env, ok: Attempt -> bool, w: World, id: nat, executed: bool)
    requires Inv(env, ok, w) && id in w.runs && w.runs[id].Checked?
    ensures Inv(env, ok, After(env, w, TakeFails(id, executed)))
  {
    var store := if executed then w.store - {AttemptKey(env, w.runs[id].attempt)} else w.store;
    DroppedKept(env, ok, w, store, 0);
    MovedKept(env, ok, w.(store := store), id, Over(w.runs[id].attempt));
  }

  lemma StoreStepKept(env: Env, ok: Attempt -> bool, w: World, s: Step)
    requires AddressesPlain(env) && Inv(env, ok, w) && (s.Tick? || s.Reap? || s.Challenge?)
    ensures Inv(env, ok, After(env, w, s))
  {
    match s
    case Challenge(pubkey, nonce) => ChallengeKept(env, ok, w, pubkey, nonce);
    case Tick(ms) => TickKept(env, ok, w, ms);
    case Reap(key) => ReapKept(env, ok, w, key);
  }

  lemma TickKept(env: Env, ok: Attempt -> bool, w: World, ms: nat)
    requires Inv(env, ok, w)
    ensures Inv(env, ok, After(env, w, Tick(ms)))
  {
    DroppedKept(env, ok, w, w.store, ms);
  }

  lemma ReapKept(env: Env, ok: Attempt -> bool, w: World, key: string)
    requires Inv(env, ok, w)
    ensures Inv(env, ok, After(env, w, Reap(key)))
  {
    if key in w.store && w.store[key].deadline < w.now {
      DroppedKept(env, ok, w, w.store - {key}, 0);
    }
  }

  lemma BeginKept(env: Env, ok: Attempt -> bool, w: World, s: Step)
    requires Inv(env, ok, w) && s.Begin?
    requires var a := Check(env, w.now, s.pubkey, s.message, s.signature); a.Some? ==> ok(a.value)
    ensures Inv(env, ok, After(env, w, s))
  {
    var a := Check(env, w.now, s.pubkey, s.message, s.signature);
    if s.id !in w.runs && a.Some? {
      MovedKept(env, ok, w, s.id, Checked(a.value));
    }
  }

  lemma AfterInv(env: Env, ok: Attempt -> bool, w: World, s: Step)
    requires AddressesPlain(env) && Inv(env, ok, w)
    requires s.Begin? ==>
      var a := Check(env, w.now, s.pubkey, s.message, s.signature); a.Some? ==> ok(a.value)
    ensures Inv(env, ok, After(env, w, s))
  {
    if s.Begin? {
      BeginKept(env, ok, w, s);
    } else if s.Tick? || s.Reap? || s.Challenge? {
      StoreStepKept(env, ok, w, s);
    } else if s.id in w.runs {
      VerificationKept(env, ok, w, s, s.id);
    }
  }

  /** The attempt's message names its key and nonce. */
  function Reads(): Attempt -> bool {
    (a: Attempt) => Parse(a.message).Some? && Parse(a.message).value.pubkey == a.pubkey &&
                    Parse(a.message).value.nonce == a.nonce
  }

  lemma {:induction false} RunInv(env: Env, run: seq<Step>)
    requires AddressesPlain(env)
    ensures Inv(env, Reads(), Run(env, START, run))
  {
    if run != [] {
      RunInv(env, run[..|run| - 1]);
      AfterInv(env, Reads(), Run(env, START, run[..|run| - 1]), run[|run| - 1]);
    }
  }

  /** Step `n` began this run with this message, which names the run's key and
      nonce and had not expired then; an unreadable date never has. */
  ghost predicate BeganAt(env: Env, run: seq<Step>, n: nat, id: nat, a: Attempt) {
    n < |run| && run[n] == Begin(id, a.pubkey, a.message, a.signature) &&
    Parse(a.message).Some? &&
    var f := Parse(a.message).value;
    f.pubkey == a.pubkey && f.nonce == a.nonce &&
    (env.parseDate(f.expirationTime).Some? ==> Run(env, START, run[..n]).now <= env.parseDate(f.expirationTime).value)
  }

  lemma BeganEarlier(env: Env, run: seq<Step>, n: nat, id: nat, a: Attempt)
    requires run != [] && BeganAt(env, run[..|run| - 1], n, id, a)
    ensures BeganAt(env, run, n, id, a)
  {
    assert run[..|run| - 1][..n] == run[..n];
  }

  /** A step leaves the attempts of the runs as they are, or begins one of its own. */
  lemma AttemptsStay(env: Env, w: World, s: Step, id: nat)
    requires id in After(env, w, s).runs
    ensures id in w.runs ==> After(env, w, s).runs[id].attempt == w.runs[id].attempt
    ensures id !in w.runs ==>
              s.Begin? && s.id == id &&
              Check(env, w.now, s.pubkey, s.message, s.signature) == Some(After(env, w, s).runs[id].attempt)
  {
  }

  lemma {:induction false} EveryRunBegan(env: Env, run: seq<Step>, id: nat) returns (n: nat)
    requires id in Run(env, START, run).runs
    ensures BeganAt(env, run, n, id, Run(env, START, run).runs[id].attempt)
  {
    var front := run[..|run| - 1];
    var w := Run(env, START, front);
    AttemptsStay(env, w, run[|run| - 1], id);
    if id in w.runs {
      n := EveryRunBegan(env, front, id);
      BeganEarlier(env, run, n, id, w.runs[id].attempt);
    } else {
      n := |run| - 1;
    }
  }

  /** Every token answers a message that was signed for the token's key and had not
      expired when its verification began, and whose nonce was put for that key
      and consumed within the nonce's lifetime; no two tokens share a put. */
  lemma TokensAreEarned(env: Env, run: seq<Step>, i: nat, j: nat)
    requires AddressesPlain(env)
    requires i in Run(env, START, run).tokens && j in Run(env, START, run).tokens
    ensures var w := Run(env, START, run); i in w.runs && i in w.takes && j in w.takes
    ensures var w := Run(env, START, run); var a := w.runs[i].attempt; var t := w.takes[i];
            w.tokens[i] == a.pubkey &&
            env.verifySignature(a.message, a.signature, a.pubkey) && (exists n :: BeganAt(env, run, n, i, a)) &&
            t.issue < |w.issues| && w.issues[t.issue].pubkey == a.pubkey && w.issues[t.issue].nonce == a.nonce &&
            w.issues[t.issue].at <= t.at <= w.issues[t.issue].at + env.ttlSeconds * 1000 &&
            (i != j ==> t.issue != w.takes[j].issue)
  {
    RunInv(env, run);
    var n := EveryRunBegan(env, run, i);
  }

  function TokensFor(w: World, pubkey: string, nonce: string): set<nat> {
    set id | id in w.tokens && id in w.runs && w.runs[id].attempt.pubkey == pubkey && w.runs[id].attempt.nonce == nonce
  }

  function IssuesFor(w: World, pubkey: string, nonce: string): set<nat> {
    set i | 0 <= i < |w.issues| && w.issues[i].pubkey == pubkey && w.issues[i].nonce == nonce
  }

  lemma {:induction false} InjectionBound(a: set<nat>, b: set<nat>, f: map<nat, nat>)
    requires forall x :: x in a ==> x in f && f[x] in b
    requires forall x, y :: x in a && y in a && x != y ==> f[x] != f[y]
    ensures |a| <= |b|
    decreases a
  {
    if a != {} {
      var x :| x in a;
      InjectionBound(a - {x}, b - {f[x]}, f);
    }
  }

  /** Tokens issued for a pair of key and nonce never outnumber its puts. */
  lemma TokensNeverOutnumberPuts(env: Env, run: seq<Step>, pubkey: string, nonce: string)
    requires AddressesPlain(env)
    ensures |TokensFor(Run(env, START, run), pubkey, nonce)| <= |IssuesFor(Run(env, START, run), pubkey, nonce)|
  {
    RunInv(env, run);
    var w := Run(env, START, run);
    InjectionBound(TokensFor(w, pubkey, nonce), IssuesFor(w, pubkey, nonce),
                   map id | id in w.takes :: w.takes[id].issue);
  }

  // ---------------------------------------------------------------------
  // Pairs do not interfere
  // ---------------------------------------------------------------------

  predicate Redeemable(env: Env, w: World, pubkey: string, nonce: string) {
    var key := RedisKey(env.prefix, pubkey, nonce);
    key in w.store && w.now <= w.store[key].deadline
  }

  /** The step is a challenge for, or consumes, this very pair. */
  predicate Concerns(w: World, s: Step, pubkey: string, nonce: string) {
    match s
    case Challenge(p, n) => p == pubkey && n == nonce
    case TakeNonce(id) => id in w.runs && w.runs[id].attempt.pubkey == pubkey && w.runs[id].attempt.nonce == nonce
    case TakeFails(id, _) => id in w.runs && w.runs[id].attempt.pubkey == pubkey && w.runs[id].attempt.nonce == nonce
    case _ => false
  }

  /** Only time, and requests for the pair itself, change whether a nonce can
      be redeemed: challenges for one key cannot lock another out. */
  lemma PairsDoNotInterfere(env: Env, w: World, s: Step, pubkey: string, nonce: string)
    requires env.validAddress(pubkey) && IsNonce(nonce) && AddressesPlain(env)
    requires !s.Tick? && !Concerns(w, s, pubkey, nonce)
    ensures Redeemable(env, After(env, w, s), pubkey, nonce) <==> Redeemable(env, w, pubkey, nonce)
  {
    NonceColonFree(nonce);
    var other := match s
      case Challenge(p, n) => (p, n)
      case TakeNonce(id) => if id in w.runs then (w.runs[id].attempt.pubkey, w.runs[id].attempt.nonce) else ("", "")
      case TakeFails(id, _) => if id in w.runs then (w.runs[id].attempt.pubkey, w.runs[id].attempt.nonce) else ("", "")
      case _ => ("", "");
    RedisKeyDetermines(env.prefix, pubkey, nonce, other.0, other.1);
    KeyDetermines(pubkey, nonce, other.0, other.1);
  }

  // ---------------------------------------------------------------------
  // An honest sign-in succeeds
  // ---------------------------------------------------------------------

  function ChallengeMessage(env: Env, now: int, pubkey: string, nonce: string): string {
    Build(Fields(env.domain, pubkey, nonce, env.isoDate(now), env.isoDate(now + env.ttlSeconds * 1000)))
  }

  /** The domain line does not start like a labelled line. */
  predicate PlainDomain(env: Env) {
    env.domain != "" && OneLine(env.domain) && !LabelLike(Fields(env.domain, "", "", "", ""))
  }

  lemma HonestCheck(env: Env, issued: int, now: int, pubkey: string, nonce: string, signature: string)
    requires AddressesPlain(env) && DatesRoundTrip(env) && PlainDomain(env)
    requires env.validAddress(pubkey) && IsNonce(nonce) && now <= issued + env.ttlSeconds * 1000
    ensures var message := ChallengeMessage(env, issued, pubkey, nonce);
            Check(env, now, pubkey, message, signature) == Some(Attempt(pubkey, nonce, message, signature))
  {
    var message, until := ChallengeMessage(env, issued, pubkey, nonce), issued + env.ttlSeconds * 1000;
    var f := Fields(env.domain, pubkey, nonce, env.isoDate(issued), env.isoDate(until));
    ChallengeParses(env, issued, pubkey, nonce, f, message);
    CheckPasses(env, now, message, signature, f, until);
  }

  lemma CheckPasses(env: Env, now: int, message: string, signature: string, f: Fields, until: int)
    requires Parse(message) == Some(f) && env.parseDate(f.expirationTime) == Some(until) && now <= until
    ensures Check(env, now, f.pubkey, message, signature) == Some(Attempt(f.pubkey, f.nonce, message, signature))
  {
  }

  lemma NonceOneLine(s: string)
    requires IsNonce(s)
    ensures '\n' !in s && !EndsInColon(s)
  {
  }

  lemma ChallengePrintable(env: Env, issued: int, until: int, pubkey: string, nonce: string, f: Fields)
    requires AddressesPlain(env) && DatesRoundTrip(env) && PlainDomain(env)
    requires env.validAddress(pubkey) && IsNonce(nonce)
    requires f == Fields(env.domain, pubkey, nonce, env.isoDate(issued), env.isoDate(until))
    ensures Printable(f) && ' ' !in f.pubkey && !LabelLike(f)
    ensures !EndsInColon(f.nonce) && !EndsInColon(f.issuedAt) && !EndsInColon(f.expirationTime)
  {
    NonceOneLine(nonce);
  }

  lemma ChallengeParses(env: Env, issued: int, pubkey: string, nonce: string, f: Fields, message: string)
    requires AddressesPlain(env) && DatesRoundTrip(env) && PlainDomain(env)
    requires env.validAddress(pubkey) && IsNonce(nonce)
    requires f == Fields(env.domain, pubkey, nonce, env.isoDate(issued), env.isoDate(issued + env.ttlSeconds * 1000))
    requires message == Build(f)
    ensures Parse(message) == Some(f)
  {
    ChallengePrintable(env, issued, issued + env.ttlSeconds * 1000, pubkey, nonce, f);
    ChallengeRoundTrip(f);
  }

  lemma HonestVerify(env: Env, w: World, id: nat, a: Attempt)
    requires id in w.runs && w.runs[id] == Checked(a) && Redeemable(env, w, a.pubkey, a.nonce) && SignatureOk(env, a)
    ensures var v := After(env, After(env, w, TakeNonce(id)), Sign(id));
            id in v.tokens && v.tokens[id] == a.pubkey && !Redeemable(env, v, a.pubkey, a.nonce)
  {
    var w1 := After(env, w, TakeNonce(id));
    assert id in w1.runs && w1.runs[id] == Consumed(a) && AttemptKey(env, a) !in w1.store;
  }

  /** From any world, a challenge whose message comes back signed within the
      nonce's lifetime earns its token, and its nonce is spent. */
  lemma HonestSignIn(env: Env, w: World, pubkey: string, nonce: string, ms: nat, id: nat, signature: string)
    requires AddressesPlain(env) && DatesRoundTrip(env) && PlainDomain(env)
    requires env.validAddress(pubkey) && IsNonce(nonce) && ms <= env.ttlSeconds * 1000 && id !in w.runs
    requires env.verifySignature(ChallengeMessage(env, w.now, pubkey, nonce), signature, pubkey)
    ensures var w1 := After(env, After(env, w, Challenge(pubkey, nonce)), Tick(ms));
            var w2 := After(env, w1, Begin(id, pubkey, ChallengeMessage(env, w.now, pubkey, nonce), signature));
            var w3 := After(env, After(env, w2, TakeNonce(id)), Sign(id));
            id in w3.tokens && w3.tokens[id] == pubkey && !Redeemable(env, w3, pubkey, nonce)
  {
    HonestCheck(env, w.now, w.now + ms, pubkey, nonce, signature);
    var message := ChallengeMessage(env, w.now, pubkey, nonce);
    var w1 := After(env, After(env, w, Challenge(pubkey, nonce)), Tick(ms));
    assert Redeemable(env, w1, pubkey, nonce) && w1.now == w.now + ms && w1.runs == w.runs;
    var w2 := After(env, w1, Begin(id, pubkey, message, signature));
    HonestVerify(env, w2, id, Attempt(pubkey, nonce, message, signature));
  }

  // ---------------------------------------------------------------------
  // The service by itself, over the Redis store
  // ---------------------------------------------------------------------

  /** The Redis contents behind the machine's store. */
  function Contents(store: map<string, Entry>): RedisMap {
    map key | key in store :: RedisValue(store[key].deadline, store[key].deadline)
  }

  /** The verification's steps with nothing in between. */
  function Verified(env: Env, w: World, id: nat, pubkey: string, message: string, signature: string): World {
    After(env, After(env, After(env, w, Begin(id, pubkey, message, signature)), TakeNonce(id)), Sign(id))
  }

  function TokenOf(w: World, id: nat): Option<string> {
    if id in w.tokens then Some(w.tokens[id]) else None
  }

  /** The message reads, names the key and has not expired; an unreadable date never has. */
  predicate MessagePasses(env: Env, now: int, pubkey: string, message: string) {
    Parse(message).Some? && Parse(message).value.pubkey == pubkey &&
    var expires := env.parseDate(Parse(message).value.expirationTime);
    expires.Some? ==> now <= expires.value
  }

  /** What an uninterrupted verification comes to: a token iff the message passes,
      the nonce is live and the signature verifies; the nonce is spent once the
      message passes, whatever the signature. */
  lemma VerifiedAlone(env: Env, w: World, id: nat, pubkey: string, message: string, signature: string)
    requires id !in w.runs && id !in w.tokens
    ensures var v := Verified(env, w, id, pubkey, message, signature);
            (!MessagePasses(env, w.now, pubkey, message) ==> v.store == w.store && TokenOf(v, id) == None) &&
            (MessagePasses(env, w.now, pubkey, message) ==>
              var nonce := Parse(message).value.nonce; var key := RedisKey(env.prefix, pubkey, nonce);
              v.store == w.store - {key} &&
              TokenOf(v, id) ==
                if key in w.store && w.now <= w.store[key].deadline && env.verifySignature(message, signature, pubkey)
                then Some(pubkey) else None)
  {
    var attempt := Check(env, w.now, pubkey, message, signature);
    if attempt.Some? {
      var begun := After(env, w, Begin(id, pubkey, message, signature));
      assert begun == w.(runs := w.runs[id := Checked(attempt.value)]);
      var taken := After(env, begun, TakeNonce(id));
      assert taken == AfterTake(env, begun, id, attempt.value);
    }
  }

  class AuthService {
    const env: Env
    const nonceStore: RedisNonceStore

    constructor (env: Env, nonceStore: RedisNonceStore)
      ensures this.env == env && this.nonceStore == nonceStore
    {
      this.env := env;
      this.nonceStore := nonceStore;
    }

    /** `nonce` is the random value drawn for this challenge. */
    method Challenge(pubkey: string, nonce: string, now: int, ghost w: World) returns (message: Option<string>)
      requires nonceStore.prefix == env.prefix && 0 < env.ttlSeconds && IsNonce(nonce)
      requires now == w.now && nonceStore.entries == Contents(w.store)
      modifies nonceStore
      ensures nonceStore.entries == Contents(After(env, w, Step.Challenge(pubkey, nonce)).store)
      ensures message.Some? <==> env.validAddress(pubkey)
      ensures message.Some? ==>
                message.value ==
                Build(Fields(env.domain, pubkey, nonce, env.isoDate(now), env.isoDate(now + env.ttlSeconds * 1000)))
    {
      if !env.validAddress(pubkey) { return None; }
      var issuedAt, expirationTime := now, now + env.ttlSeconds * 1000;
      var text := Build(Fields(env.domain, pubkey, nonce, env.isoDate(issuedAt), env.isoDate(expirationTime)));
      nonceStore.Put(pubkey, nonce, env.ttlSeconds, now);
      message := Some(text);
    }

    /** The token carries the key it was issued for. */
    method Verify(pubkey: string, message: string, signature: string, now: int, ghost w: World, ghost id: nat)
      returns (token: Option<string>)
      requires nonceStore.prefix == env.prefix && id !in w.runs && id !in w.tokens
      requires now == w.now && nonceStore.entries == Contents(w.store)
      modifies nonceStore
      ensures nonceStore.entries == Contents(Verified(env, w, id, pubkey, message, signature).store)
      ensures token == TokenOf(Verified(env, w, id, pubkey, message, signature), id)
      ensures !MessagePasses(env, now, pubkey, message) ==>
                token == None && nonceStore.entries == old(nonceStore.entries)
      ensures MessagePasses(env, now, pubkey, message) ==>
                RedisKey(env.prefix, pubkey, Parse(message).value.nonce) !in nonceStore.entries
    {
      VerifiedAlone(env, w, id, pubkey, message, signature);
      var parsed := Parse(message);
      if parsed.None? { return None; }
      if parsed.value.pubkey != pubkey { return None; }
      var expiresAt := env.parseDate(parsed.value.expirationTime);
      if expiresAt.Some? && expiresAt.value < now { return None; }
      var consumed := nonceStore.Take(pubkey, parsed.value.nonce, now);
      if consumed.None? { return None; }
      if !env.verifySignature(message, signature, pubkey) { return None; }
      token := Some(pubkey);
    }
  }
}

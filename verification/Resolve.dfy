/** Resolving one tag through the cache: concurrent calls on any number of API
    instances (apps/api/src/tags/tags.service.ts, redis-cache-reader.ts), the
    mirror's writers and the DEL that follows each write
    (apps/indexer/src/redis-cache-invalidator.ts). Every piece of state belongs
    to the tag's one cache key; times are seconds. */
module Resolve {
  import opened Prelude

  /** The part of a row that a resolve response shows. */
  datatype Payload = Payload(wallet: string, displayName: Option<string>, avatar: Option<string>,
                             preferredToken: Option<string>, verified: bool, merchant: bool)

  /** The chain knows nothing but the wallet. */
  function FromChain(wallet: string): Payload { Payload(wallet, None, None, None, false, false) }

  /** The mirror's row for the tag, as the API sees it. */
  datatype View = Absent | Blocked | Active(payload: Payload)

  datatype Answer = NotFound | Found(payload: Payload)

  /** An answer, and the mirror read it rests on: when, and after how many writes. */
  datatype Reading = Reading(answer: Answer, readAt: nat, version: nat, fromChain: bool)

  datatype Entry = Entry(reading: Reading, expiresAt: nat)

  /** One uncached lookup, by what it does next; a failed one settles with None. */
  datatype Pc =
    | Started
    | Read(view: View, readAt: nat, version: nat)
    | Decided(reading: Reading)
    | Ready(outcome: Option<Reading>)
    | Settled(outcome: Option<Reading>)

  /** `since` is when the lookup got to where it is. */
  datatype Lookup = Lookup(instance: nat, pc: Pc, since: nat)

  /** One resolve call; `via` names the lookup it joined, if any. */
  datatype Call =
    | Asking(instance: nat)
    | Missed(instance: nat)
    | Joined(instance: nat, lookup: nat)
    | Answered(instance: nat, via: Option<nat>, outcome: Option<Reading>, at: nat)

  type Views = v: seq<View> | |v| > 0 witness [Absent]

  /** `views` and `writtenAt` list the mirror's views after each write, the first
      being the initial one; `pending` holds the writes whose DEL is to come. */
  datatype World = World(now: nat, views: Views, writtenAt: seq<nat>, pending: set<nat>, cache: Option<Entry>,
                         lookups: map<nat, Lookup>, inFlight: map<nat, nat>, calls: map<nat, Call>)

  const START := World(0, [Absent], [0], {}, None, map[], map[], map[])

  /** `bound` limits the time from a mirror read to the store that follows it,
      `settling` the time from there to the settling of the promise. */
  datatype Config = Config(ttl: nat, negativeTtl: nat, bound: nat, settling: nat) {
    /** Not-found and chain-derived answers live shorter. */
    function Ttl(r: Reading): nat { if r.answer.NotFound? || r.fromChain then negativeTtl else ttl }
  }

  datatype Step =
    | Tick(seconds: nat)
    | Write(view: View)
    | Del(write: nat, succeeds: bool)
    | Evict
    | Ask(call: nat, instance: nat)
    | CacheGet(call: nat, succeeds: bool)
    | JoinOrLaunch(call: nat, lookup: nat)
    | ReadMirror(lookup: nat, succeeds: bool)
    | ConsultChain(lookup: nat, wallet: Option<string>)
    | Store(lookup: nat, succeeds: bool)
    | Settle(lookup: nat)
    | Resume(call: nat)

  // ---------------------------------------------------------------------
  // The steps
  // ---------------------------------------------------------------------

  /** Rows are never deleted, and a blocked row is never activated. */
  predicate MayBecome(before: View, after: View) { !after.Absent? && (before.Blocked? ==> after.Blocked?) }

  /** A row that exists answers for itself; only an absent one asks the chain. */
  function Decide(view: View, readAt: nat, version: nat, wallet: Option<string>): Reading {
    match view
    case Active(payload) => Reading(Found(payload), readAt, version, false)
    case Blocked => Reading(NotFound, readAt, version, false)
    case Absent =>
      if wallet.Some? then Reading(Found(FromChain(wallet.value)), readAt, version, true)
      else Reading(NotFound, readAt, version, false)
  }

  predicate At(w: World, lookup: nat, pc: Pc) { lookup in w.lookups && w.lookups[lookup].pc == pc }

  function Moved(w: World, lookup: nat, pc: Pc): World
    requires lookup in w.lookups
  {
    w.(lookups := w.lookups[lookup := Lookup(w.lookups[lookup].instance, pc, w.now)])
  }

  predicate Hit(w: World) { w.cache.Some? && w.now <= w.cache.value.expiresAt }

  function AfterGet(w: World, call: nat, succeeds: bool): World {
    if !(call in w.calls && w.calls[call].Asking?) then w
    else
      var instance := w.calls[call].instance;
      w.(calls := w.calls[call :=
        if succeeds && Hit(w) then Answered(instance, None, Some(w.cache.value.reading), w.now) else Missed(instance)])
  }

  /** The check-and-set of the in-flight map, in one turn of the event loop. */
  function AfterJoin(w: World, call: nat, unused: nat): World {
    if !(call in w.calls && w.calls[call].Missed?) || unused in w.lookups then w
    else
      var instance := w.calls[call].instance;
      if instance in w.inFlight then w.(calls := w.calls[call := Joined(instance, w.inFlight[instance])])
      else w.(calls := w.calls[call := Joined(instance, unused)],
              lookups := w.lookups[unused := Lookup(instance, Started, w.now)],
              inFlight := w.inFlight[instance := unused])
  }

  function AfterRead(w: World, lookup: nat, succeeds: bool): World {
    if !At(w, lookup, Started) then w
    else Moved(w, lookup, if succeeds then Read(w.views[|w.views| - 1], w.now, |w.views| - 1) else Ready(None))
  }

  function AfterStore(cfg: Config, w: World, lookup: nat, succeeds: bool): World {
    if !(lookup in w.lookups && w.lookups[lookup].pc.Decided?) then w
    else
      var reading := w.lookups[lookup].pc.reading;
      Moved(w, lookup, Ready(Some(reading))).
        (cache := if succeeds then Some(Entry(reading, w.now + cfg.Ttl(reading))) else w.cache)
  }

  /** The promise settles: first its finally handler clears the map. */
  function AfterSettle(w: World, lookup: nat): World {
    if !(lookup in w.lookups && w.lookups[lookup].pc.Ready?) then w
    else Moved(w, lookup, Settled(w.lookups[lookup].pc.outcome)).
           (inFlight := w.inFlight - {w.lookups[lookup].instance})
  }

  function AfterResume(w: World, call: nat): World {
    if !(call in w.calls && w.calls[call].Joined? && w.calls[call].lookup in w.lookups &&
         w.lookups[w.calls[call].lookup].pc.Settled?) then w
    else
      var Joined(instance, lookup) := w.calls[call];
      w.(calls := w.calls[call := Answered(instance, Some(lookup), w.lookups[lookup].pc.outcome, w.now)])
  }

  function AfterWrite(w: World, view: View): World {
    if !MayBecome(w.views[|w.views| - 1], view) then w
    else w.(views := w.views + [view], writtenAt := w.writtenAt + [w.now], pending := w.pending + {|w.views|})
  }

  function AfterDel(w: World, write: nat, succeeds: bool): World {
    if write !in w.pending then w
    else w.(pending := w.pending - {write}, cache := if succeeds then None else w.cache)
  }

  /** A step that does not apply changes nothing. */
  function After(cfg: Config, w: World, s: Step): World {
    match s
    case Tick(seconds) => w.(now := w.now + seconds)
    case Write(view) => AfterWrite(w, view)
    case Del(write, succeeds) => AfterDel(w, write, succeeds)
    case Evict => w.(cache := None)
    case Ask(call, instance) => if call in w.calls then w else w.(calls := w.calls[call := Asking(instance)])
    case CacheGet(call, succeeds) => AfterGet(w, call, succeeds)
    case JoinOrLaunch(call, lookup) => AfterJoin(w, call, lookup)
    case ReadMirror(lookup, succeeds) => AfterRead(w, lookup, succeeds)
    case ConsultChain(lookup, wallet) =>
      if lookup in w.lookups && w.lookups[lookup].pc.Read? then
        var Read(view, readAt, version) := w.lookups[lookup].pc;
        Moved(w, lookup, Decided(Decide(view, readAt, version, wallet)))
      else w
    case Store(lookup, succeeds) => AfterStore(cfg, w, lookup, succeeds)
    case Settle(lookup) => AfterSettle(w, lookup)
    case Resume(call) => AfterResume(w, call)
  }

  function Run(cfg: Config, w: World, run: seq<Step>): World {
    if run == [] then w else After(cfg, Run(cfg, w, run[..|run| - 1]), run[|run| - 1])
  }

  /** Runs with given steps are written [] + [s] + [t], a step at a time: that is
      the shape in which this lemma takes them apart. */
  lemma RunSnoc(cfg: Config, w: World, run: seq<Step>, s: Step)
    ensures Run(cfg, w, run + [s]) == After(cfg, Run(cfg, w, run), s)
  {
    assert (run + [s])[..|run|] == run;
  }

  /** A condition on steps, at every step of a run. */
  ghost predicate Throughout(cfg: Config, p: (World, Step) -> bool, w: World, run: seq<Step>)
  {
    run == [] ||
    (Throughout(cfg, p, w, run[..|run| - 1]) && p(Run(cfg, w, run[..|run| - 1]), run[|run| - 1]))
  }

  // ---------------------------------------------------------------------
  // Single flight
  // ---------------------------------------------------------------------

  /** The map holds only unsettled lookups, by their instance. */
  ghost predicate MapSound(w: World) {
    forall i :: i in w.inFlight ==>
      w.inFlight[i] in w.lookups && w.lookups[w.inFlight[i]].instance == i && !w.lookups[w.inFlight[i]].pc.Settled?
  }

  /** It holds all of them. */
  ghost predicate MapComplete(w: World) {
    forall l :: l in w.lookups && !w.lookups[l].pc.Settled? ==>
      w.lookups[l].instance in w.inFlight && w.inFlight[w.lookups[l].instance] == l
  }

  ghost predicate MapExact(w: World) { MapSound(w) && MapComplete(w) }

  /** Calls wait for lookups of their own instance and end with their outcome. */
  predicate CallInv(w: World, c: Call) {
    match c
    case Joined(instance, l) => l in w.lookups && w.lookups[l].instance == instance
    case Answered(instance, via, outcome, _) =>
      via.Some? ==> via.value in w.lookups && w.lookups[via.value].instance == instance &&
                    w.lookups[via.value].pc == Settled(outcome)
    case _ => true
  }

  ghost predicate CallsInv(w: World) {
    forall c :: c in w.calls ==> CallInv(w, w.calls[c])
  }

  predicate Waits(c: Call, lookup: nat) {
    (c.Joined? && c.lookup == lookup) || (c.Answered? && c.via == Some(lookup))
  }

  /** Every lookup was launched by a call that waits, or waited, for it. */
  ghost predicate Launched(w: World) {
    forall l :: l in w.lookups ==> exists c :: c in w.calls && Waits(w.calls[c], l)
  }

  ghost predicate FlightInv(w: World) { MapExact(w) && CallsInv(w) && Launched(w) }

  lemma MapKept(cfg: Config, w: World, s: Step)
    requires MapExact(w)
    ensures MapExact(After(cfg, w, s))
  {
    MapStaysSound(cfg, w, s);
    MapStaysComplete(cfg, w, s);
  }

  lemma MapStaysSound(cfg: Config, w: World, s: Step)
    requires MapExact(w)
    ensures MapSound(After(cfg, w, s))
  {
  }

  lemma MapStaysComplete(cfg: Config, w: World, s: Step)
    requires MapExact(w)
    ensures MapComplete(After(cfg, w, s))
  {
  }

  lemma CallsKept(cfg: Config, w: World, s: Step)
    requires MapExact(w) && CallsInv(w)
    ensures CallsInv(After(cfg, w, s))
  {
  }

  lemma LaunchedKept(cfg: Config, w: World, s: Step)
    requires Launched(w)
    ensures Launched(After(cfg, w, s))
  {
    var v := After(cfg, w, s);
    forall l | l in v.lookups ensures exists c :: c in v.calls && Waits(v.calls[c], l) {
      if l in w.lookups {
        var c :| c in w.calls && Waits(w.calls[c], l);
        assert c in v.calls && Waits(v.calls[c], l);
      } else {
        assert s.call in v.calls && Waits(v.calls[s.call], l);
      }
    }
  }

  lemma FlightKept(cfg: Config, w: World, s: Step)
    requires FlightInv(w)
    ensures FlightInv(After(cfg, w, s))
  {
    MapKept(cfg, w, s);
    CallsKept(cfg, w, s);
    LaunchedKept(cfg, w, s);
  }

  lemma {:induction false} RunFlight(cfg: Config, w: World, run: seq<Step>)
    requires FlightInv(w)
    ensures FlightInv(Run(cfg, w, run))
  {
    if run != [] {
      var front := Run(cfg, w, run[..|run| - 1]);
      RunFlight(cfg, w, run[..|run| - 1]);
      FlightKept(cfg, front, run[|run| - 1]);
    }
  }

  /** At most one lookup of an instance is unsettled at any time. */
  lemma SingleFlight(cfg: Config, run: seq<Step>, l: nat, m: nat)
    requires var w := Run(cfg, START, run);
             l in w.lookups && !w.lookups[l].pc.Settled? && m in w.lookups && !w.lookups[m].pc.Settled? &&
             w.lookups[l].instance == w.lookups[m].instance
    ensures l == m
  {
    RunFlight(cfg, START, run);
  }

  lemma UnsettledIsAwaited(w: World, instance: nat)
    requires FlightInv(w) && instance in w.inFlight
    ensures exists c :: c in w.calls && !w.calls[c].Answered?
  {
    var l := w.inFlight[instance];
    var c :| c in w.calls && Waits(w.calls[c], l);
    assert CallInv(w, w.calls[c]);
    assert !w.calls[c].Answered?;
  }

  /** A call that joined a lookup ends with exactly that lookup's outcome, success
      or failure, and when no call is under way the map is empty. */
  lemma CallsShareOutcomes(cfg: Config, run: seq<Step>)
    ensures var w := Run(cfg, START, run);
            (forall c :: c in w.calls && w.calls[c].Answered? && w.calls[c].via.Some? ==>
              w.calls[c].via.value in w.lookups && w.lookups[w.calls[c].via.value].pc == Settled(w.calls[c].outcome)) &&
            ((forall c :: c in w.calls ==> w.calls[c].Answered?) ==> w.inFlight == map[])
  {
    RunFlight(cfg, START, run);
    var w := Run(cfg, START, run);
    forall instance | instance in w.inFlight ensures exists c :: c in w.calls && !w.calls[c].Answered? {
      UnsettledIsAwaited(w, instance);
    }
  }

  // ---------------------------------------------------------------------
  // Answers rest on mirror reads
  // ---------------------------------------------------------------------

  /** The answer is what the mirror said after `version` writes; only an absent
      row lets the chain speak. */
  predicate Matches(view: View, r: Reading) {
    match view
    case Active(payload) => r.answer == Found(payload) && !r.fromChain
    case Blocked => r.answer == NotFound && !r.fromChain
    case Absent => r.fromChain <==> r.answer.Found?
  }

  /** The read saw `version` writes, and every later write came no earlier. */
  ghost predicate Seen(w: World, readAt: nat, version: nat) {
    version < |w.views| == |w.writtenAt| && readAt <= w.now &&
    forall k :: version < k < |w.views| ==> readAt <= w.writtenAt[k]
  }

  ghost predicate True(w: World, r: Reading) {
    Seen(w, r.readAt, r.version) && Matches(w.views[r.version], r)
  }

  ghost predicate TrueOutcome(w: World, outcome: Option<Reading>) { outcome.Some? ==> True(w, outcome.value) }

  ghost predicate PcTrue(w: World, pc: Pc) {
    match pc
    case Started => true
    case Read(view, readAt, version) => Seen(w, readAt, version) && w.views[version] == view
    case Decided(reading) => True(w, reading)
    case Ready(outcome) => TrueOutcome(w, outcome)
    case Settled(outcome) => TrueOutcome(w, outcome)
  }

  /** Once blocked, the view stays blocked; a row never disappears. */
  ghost predicate ViewsInv(w: World) {
    |w.views| == |w.writtenAt| &&
    (forall i, j :: 0 <= i < j < |w.views| ==> MayBecome(w.views[i], w.views[j])) &&
    (forall i :: 0 <= i < |w.writtenAt| ==> w.writtenAt[i] <= w.now) &&
    (forall k :: k in w.pending ==> k < |w.views|)
  }

  ghost predicate LookupsTrue(w: World) {
    forall l :: l in w.lookups ==> PcTrue(w, w.lookups[l].pc)
  }

  ghost predicate CacheTrue(w: World) { w.cache.Some? ==> True(w, w.cache.value.reading) }

  ghost predicate CallsTrue(w: World) {
    forall c :: c in w.calls && w.calls[c].Answered? ==> TrueOutcome(w, w.calls[c].outcome)
  }

  /** Whatever the timing: all readings anywhere are true. */
  ghost predicate TruthInv(w: World) { ViewsInv(w) && LookupsTrue(w) && CacheTrue(w) && CallsTrue(w) }

  /** Worlds whose mirror history and clock only grew. */
  ghost predicate Later(w: World, v: World) {
    w.now <= v.now && |w.views| <= |v.views| && |w.views| == |w.writtenAt| && |v.views| == |v.writtenAt| &&
    v.views[..|w.views|] == w.views && v.writtenAt[..|w.writtenAt|] == w.writtenAt &&
    forall k :: |w.views| <= k < |v.views| ==> w.now <= v.writtenAt[k]
  }

  lemma SeenLater(w: World, v: World, readAt: nat, version: nat)
    requires Seen(w, readAt, version) && Later(w, v)
    ensures Seen(v, readAt, version) && v.views[version] == w.views[version]
  {
    assert v.views[version] == v.views[..|w.views|][version];
    forall k | version < k < |v.views| ensures readAt <= v.writtenAt[k] {
      if k < |w.views| {
        assert v.writtenAt[k] == v.writtenAt[..|w.writtenAt|][k];
      }
    }
  }

  lemma AfterLater(cfg: Config, w: World, s: Step)
    requires ViewsInv(w)
    ensures Later(w, After(cfg, w, s)) && ViewsInv(After(cfg, w, s))
  {
    HistoryGrows(cfg, w, s);
    HistoryKept(cfg, w, s);
  }

  /** Only a write adds to the history, and only time moves the clock. */
  lemma HistoryGrows(cfg: Config, w: World, s: Step)
    requires |w.views| == |w.writtenAt|
    ensures Later(w, After(cfg, w, s))
  {
  }

  lemma HistoryKept(cfg: Config, w: World, s: Step)
    requires ViewsInv(w)
    ensures ViewsInv(After(cfg, w, s))
  {
  }

  lemma PcLater(w: World, v: World, pc: Pc)
    requires PcTrue(w, pc) && Later(w, v)
    ensures PcTrue(v, pc)
  {
    match pc
    case Started =>
    case Read(view, readAt, version) => SeenLater(w, v, readAt, version);
    case Decided(r) => SeenLater(w, v, r.readAt, r.version);
    case Ready(outcome) => if outcome.Some? { SeenLater(w, v, outcome.value.readAt, outcome.value.version); }
    case Settled(outcome) => if outcome.Some? { SeenLater(w, v, outcome.value.readAt, outcome.value.version); }
  }

  lemma LookupsKept(cfg: Config, w: World, s: Step)
    requires ViewsInv(w) && LookupsTrue(w)
    ensures LookupsTrue(After(cfg, w, s))
  {
    var v := After(cfg, w, s);
    AfterLater(cfg, w, s);
    forall l | l in v.lookups ensures PcTrue(v, v.lookups[l].pc) {
      if l in w.lookups && v.lookups[l] == w.lookups[l] {
        PcLater(w, v, w.lookups[l].pc);
      } else {
        MovedTrue(cfg, w, s, l);
      }
    }
  }

  /** A lookup that the step launched or moved on. */
  lemma MovedTrue(cfg: Config, w: World, s: Step, l: nat)
    requires ViewsInv(w) && LookupsTrue(w) && l in After(cfg, w, s).lookups
    requires l in w.lookups ==> After(cfg, w, s).lookups[l] != w.lookups[l]
    ensures PcTrue(After(cfg, w, s), After(cfg, w, s).lookups[l].pc)
  {
    AfterLater(cfg, w, s);
    if l in w.lookups {
      PcLater(w, After(cfg, w, s), w.lookups[l].pc);
    }
  }

  lemma CacheKept(cfg: Config, w: World, s: Step)
    requires ViewsInv(w) && LookupsTrue(w) && CacheTrue(w)
    ensures CacheTrue(After(cfg, w, s))
  {
    var v := After(cfg, w, s);
    AfterLater(cfg, w, s);
    if v.cache.Some? {
      if v.cache == w.cache {
        SeenLater(w, v, w.cache.value.reading.readAt, w.cache.value.reading.version);
      } else {
        PcLater(w, v, w.lookups[s.lookup].pc);
      }
    }
  }

  lemma CallsTrueKept(cfg: Config, w: World, s: Step)
    requires TruthInv(w)
    ensures CallsTrue(After(cfg, w, s))
  {
    var v := After(cfg, w, s);
    AfterLater(cfg, w, s);
    forall c | c in v.calls && v.calls[c].Answered? && v.calls[c].outcome.Some?
      ensures True(v, v.calls[c].outcome.value)
    {
      var r := v.calls[c].outcome.value;
      if s.Resume? && !(c in w.calls && v.calls[c] == w.calls[c]) {
        PcLater(w, v, w.lookups[w.calls[c].lookup].pc);
      } else {
        SeenLater(w, v, r.readAt, r.version);
      }
    }
  }

  lemma TruthKept(cfg: Config, w: World, s: Step)
    requires TruthInv(w)
    ensures TruthInv(After(cfg, w, s)) && Later(w, After(cfg, w, s))
  {
    AfterLater(cfg, w, s);
    LookupsKept(cfg, w, s);
    CacheKept(cfg, w, s);
    CallsTrueKept(cfg, w, s);
  }

  lemma LaterTrans(u: World, v: World, w: World)
    requires Later(u, v) && Later(v, w)
    ensures Later(u, w)
  {
    assert w.views[..|u.views|] == w.views[..|v.views|][..|u.views|];
    assert w.writtenAt[..|u.writtenAt|] == w.writtenAt[..|v.writtenAt|][..|u.writtenAt|];
    forall k | |u.views| <= k < |w.views| ensures u.now <= w.writtenAt[k] {
      if k < |v.views| {
        assert w.writtenAt[k] == w.writtenAt[..|v.writtenAt|][k];
      }
    }
  }

  lemma {:induction false} RunTruth(cfg: Config, w: World, run: seq<Step>)
    requires TruthInv(w)
    ensures TruthInv(Run(cfg, w, run)) && Later(w, Run(cfg, w, run))
  {
    if run != [] {
      var front := Run(cfg, w, run[..|run| - 1]);
      RunTruth(cfg, w, run[..|run| - 1]);
      TruthKept(cfg, front, run[|run| - 1]);
      LaterTrans(w, front, After(cfg, front, run[|run| - 1]));
    }
  }

  // ---------------------------------------------------------------------
  // The staleness bound
  // ---------------------------------------------------------------------

  /** How long an answer may lag: its time to live and the bound when it came
      from the cache, the bound and the settling when it came from a lookup. */
  predicate Timely(cfg: Config, via: Option<nat>, r: Reading, at: nat) {
    at <= r.readAt + cfg.bound + if via.None? then cfg.Ttl(r) else cfg.settling
  }

  /** When a lookup that found an answer stored it, and when it settled. */
  ghost predicate LookupsTimely(cfg: Config, w: World) {
    forall l :: l in w.lookups ==>
      match w.lookups[l].pc
      case Ready(outcome) => outcome.Some? ==> w.lookups[l].since <= outcome.value.readAt + cfg.bound
      case Settled(outcome) => outcome.Some? ==> w.lookups[l].since <= outcome.value.readAt + cfg.bound + cfg.settling
      case _ => true
  }

  /** The call waits for a lookup that has settled. */
  predicate Resumable(w: World, c: Call) {
    c.Joined? && c.lookup in w.lookups && w.lookups[c.lookup].pc.Settled?
  }

  /** Calls whose lookup has settled have it from this very moment. */
  ghost predicate WaitersPrompt(w: World) {
    forall c :: c in w.calls && Resumable(w, w.calls[c]) ==> w.now <= w.lookups[w.calls[c].lookup].since
  }

  ghost predicate CacheTimely(cfg: Config, w: World) {
    w.cache.Some? ==>
      w.cache.value.expiresAt <= w.cache.value.reading.readAt + cfg.bound + cfg.Ttl(w.cache.value.reading)
  }

  ghost predicate AnswersTimely(cfg: Config, w: World) {
    forall c :: c in w.calls && w.calls[c].Answered? && w.calls[c].outcome.Some? ==>
      Timely(cfg, w.calls[c].via, w.calls[c].outcome.value, w.calls[c].at)
  }

  ghost predicate TimeInv(cfg: Config, w: World) {
    LookupsTimely(cfg, w) && WaitersPrompt(w) && CacheTimely(cfg, w) && AnswersTimely(cfg, w)
  }

  /** A lookup stores within the bound of its mirror read and settles within
      `settling` of that; calls that wait for a settled promise go on in the same
      turn of the event loop, before any time passes. */
  function InTime(cfg: Config): (World, Step) -> bool {
    (w: World, s: Step) =>
      match s
      case Store(l, _) =>
        l in w.lookups && w.lookups[l].pc.Decided? ==> w.now <= w.lookups[l].pc.reading.readAt + cfg.bound
      case Settle(l) => l in w.lookups && w.lookups[l].pc.Ready? ==> w.now <= w.lookups[l].since + cfg.settling
      case Tick(seconds) => 0 < seconds ==> forall c :: c in w.calls ==> !Resumable(w, w.calls[c])
      case _ => true
  }

  lemma LookupsTimelyKept(cfg: Config, w: World, s: Step)
    requires LookupsTimely(cfg, w) && InTime(cfg)(w, s)
    ensures LookupsTimely(cfg, After(cfg, w, s))
  {
  }

  lemma WaitersKept(cfg: Config, w: World, s: Step)
    requires MapExact(w) && CallsInv(w) && WaitersPrompt(w) && InTime(cfg)(w, s)
    ensures WaitersPrompt(After(cfg, w, s))
  {
  }

  lemma CacheTimelyKept(cfg: Config, w: World, s: Step)
    requires CacheTimely(cfg, w) && InTime(cfg)(w, s)
    ensures CacheTimely(cfg, After(cfg, w, s))
  {
  }

  lemma AnswersTimelyKept(cfg: Config, w: World, s: Step)
    requires TimeInv(cfg, w)
    ensures AnswersTimely(cfg, After(cfg, w, s))
  {
  }

  lemma TimeKept(cfg: Config, w: World, s: Step)
    requires FlightInv(w) && TimeInv(cfg, w) && InTime(cfg)(w, s)
    ensures TimeInv(cfg, After(cfg, w, s))
  {
    LookupsTimelyKept(cfg, w, s);
    WaitersKept(cfg, w, s);
    CacheTimelyKept(cfg, w, s);
    AnswersTimelyKept(cfg, w, s);
  }

  lemma {:induction false} RunTime(cfg: Config, run: seq<Step>)
    requires Throughout(cfg, InTime(cfg), START, run)
    ensures TimeInv(cfg, Run(cfg, START, run))
  {
    if run != [] {
      RunTime(cfg, run[..|run| - 1]);
      RunFlight(cfg, START, run[..|run| - 1]);
      TimeKept(cfg, Run(cfg, START, run[..|run| - 1]), run[|run| - 1]);
    }
  }

  /** With failing DELs, racing lookups and lost stores: every answer is what the
      mirror said at a read no older than the bound plus the answer's time to
      live, so it misses no write older than that. */
  lemma StalenessBound(cfg: Config, run: seq<Step>, c: nat)
    requires Throughout(cfg, InTime(cfg), START, run)
    requires var w := Run(cfg, START, run);
             c in w.calls && w.calls[c].Answered? && w.calls[c].outcome.Some?
    ensures var w := Run(cfg, START, run); var call := w.calls[c]; var r := call.outcome.value;
            r.version < |w.views| && Matches(w.views[r.version], r) && Timely(cfg, call.via, r, call.at) &&
            |w.writtenAt| == |w.views| && forall k :: r.version < k < |w.views| ==>
              call.at <= w.writtenAt[k] + cfg.bound +
                if call.via.Some? then cfg.settling
                else if r.answer.NotFound? || r.fromChain then cfg.negativeTtl else cfg.ttl
  {
    RunTruth(cfg, START, run);
    RunTime(cfg, run);
  }

  // ---------------------------------------------------------------------
  // Conditional coherence
  // ---------------------------------------------------------------------

  /** No DEL fails, and no lookup that read the mirror before a write stores after
      that write's DEL. */
  function RaceFree(): (World, Step) -> bool {
    (w: World, s: Step) =>
      (s.Del? ==> s.succeeds) &&
      (s.Store? && s.succeeds && s.lookup in w.lookups && w.lookups[s.lookup].pc.Decided? ==>
        forall k :: w.lookups[s.lookup].pc.reading.version < k < |w.views| ==> k in w.pending)
  }

  /** Every write since the entry's mirror read still has its DEL to come. */
  ghost predicate Covered(w: World) {
    w.cache.Some? ==> forall k :: w.cache.value.reading.version < k < |w.views| ==> k in w.pending
  }

  lemma CoveredKept(cfg: Config, w: World, s: Step)
    requires Covered(w) && RaceFree()(w, s)
    ensures Covered(After(cfg, w, s))
  {
  }

  lemma {:induction false} RunCovered(cfg: Config, w: World, run: seq<Step>)
    requires Throughout(cfg, RaceFree(), w, run) && Covered(w)
    ensures Covered(Run(cfg, w, run))
  {
    if run != [] {
      RunCovered(cfg, w, run[..|run| - 1]);
      CoveredKept(cfg, Run(cfg, w, run[..|run| - 1]), run[|run| - 1]);
    }
  }

  lemma QuietIsCurrent(w: World)
    requires Covered(w) && CacheTrue(w) && w.pending == {}
    ensures w.cache.Some? ==> Matches(w.views[|w.views| - 1], w.cache.value.reading)
  {
    if w.cache.Some? {
      var version := w.cache.value.reading.version;
      assert version < |w.views|;
      assert version < |w.views| - 1 ==> |w.views| - 1 in w.pending;
    }
  }

  /** Whenever no DEL is pending, the cache holds nothing or the current view:
      positive for an active row, negative for a blocked one, negative or
      chain-derived for an absent one. */
  lemma CoherentWhenQuiet(cfg: Config, run: seq<Step>)
    requires Throughout(cfg, RaceFree(), START, run)
    requires Run(cfg, START, run).pending == {}
    ensures var w := Run(cfg, START, run);
            w.cache.Some? ==> Matches(w.views[|w.views| - 1], w.cache.value.reading)
  {
    RunSound(cfg, run);
    QuietIsCurrent(Run(cfg, START, run));
  }

  lemma RunSound(cfg: Config, run: seq<Step>)
    requires Throughout(cfg, RaceFree(), START, run)
    ensures TruthInv(Run(cfg, START, run)) && Covered(Run(cfg, START, run))
  {
    RunTruth(cfg, START, run);
    RunCovered(cfg, START, run);
  }

  // ---------------------------------------------------------------------
  // A settled block hides the tag
  // ---------------------------------------------------------------------

  /** The lookup has read no mirror state from before write `b`. */
  predicate Recent(pc: Pc, b: nat) {
    match pc
    case Started => true
    case Read(_, _, version) => b <= version
    case Decided(r) => b <= r.version
    case Ready(outcome) => outcome.Some? ==> b <= outcome.value.version
    case Settled(outcome) => outcome.Some? ==> b <= outcome.value.version
  }

  /** Lookups under way that read the mirror before write `b`. */
  function Overtaken(w: World, b: nat): set<nat> {
    set l | l in w.lookups && !w.lookups[l].pc.Settled? && !Recent(w.lookups[l].pc, b)
  }

  /** Since `w`: other lookups rest on reads after write `b`, or were settled already. */
  ghost predicate RecentLookups(w: World, v: World, b: nat) {
    forall l :: l in v.lookups && l !in Overtaken(w, b) ==>
      Recent(v.lookups[l].pc, b) || (l in w.lookups && v.lookups[l].pc.Settled?)
  }

  /** So do the calls made since `w`. */
  ghost predicate RecentCalls(w: World, v: World, b: nat) {
    forall c :: c in v.calls && c !in w.calls ==>
      match v.calls[c]
      case Joined(_, l) => l in v.lookups && (l in Overtaken(w, b) || Recent(v.lookups[l].pc, b))
      case Answered(_, via, outcome, _) =>
        (via.Some? && via.value in Overtaken(w, b)) || (outcome.Some? ==> b <= outcome.value.version)
      case _ => true
  }

  ghost predicate RecentSince(w: World, v: World, b: nat) { RecentLookups(w, v, b) && RecentCalls(w, v, b) }

  lemma RecentLookupsKept(cfg: Config, w: World, v: World, b: nat, s: Step)
    requires RecentLookups(w, v, b) && b < |v.views|
    ensures RecentLookups(w, After(cfg, v, s), b)
  {
  }

  lemma RecentCallsKept(cfg: Config, w: World, v: World, b: nat, s: Step)
    requires RecentSince(w, v, b) && MapExact(v) && b < |v.views|
    requires v.cache.Some? ==> b <= v.cache.value.reading.version
    ensures RecentCalls(w, After(cfg, v, s), b)
  {
  }

  lemma SettledWriteStays(cfg: Config, w: World, s: Step, b: nat)
    requires b < |w.views| && b !in w.pending
    ensures b < |After(cfg, w, s).views| && b !in After(cfg, w, s).pending
  {
  }

  lemma {:induction false} RunRecent(cfg: Config, w: World, later: seq<Step>, b: nat)
    requires Throughout(cfg, RaceFree(), w, later)
    requires Covered(w) && MapExact(w)
    requires b < |w.views| && b !in w.pending
    ensures var v := Run(cfg, w, later); RecentSince(w, v, b) && MapExact(v) && b < |v.views| && b !in v.pending
  {
    if later != [] {
      var front, s := Run(cfg, w, later[..|later| - 1]), later[|later| - 1];
      RunRecent(cfg, w, later[..|later| - 1], b);
      RunCovered(cfg, w, later[..|later| - 1]);
      assert front.cache.Some? && front.cache.value.reading.version < b ==> b in front.pending;
      RecentLookupsKept(cfg, w, front, b, s);
      RecentCallsKept(cfg, w, front, b, s);
      MapKept(cfg, front, s);
      SettledWriteStays(cfg, front, s, b);
    }
  }

  lemma BlockedSince(w: World, r: Reading, b: nat)
    requires ViewsInv(w) && True(w, r) && b <= r.version && w.views[b].Blocked?
    ensures r.answer == NotFound
  {
    assert b < r.version ==> MayBecome(w.views[b], w.views[r.version]);
  }

  /** Once a write that blocks the tag has had its DEL, the cache never again
      holds a positive answer, and a call made later gets one only by joining
      a lookup that had already read the mirror and not yet settled then. */
  lemma SettledBlockHides(cfg: Config, run: seq<Step>, later: seq<Step>, b: nat)
    requires Throughout(cfg, RaceFree(), START, run)
    requires Throughout(cfg, RaceFree(), Run(cfg, START, run), later)
    requires var w := Run(cfg, START, run); b < |w.views| && w.views[b].Blocked? && b !in w.pending
    ensures var w := Run(cfg, START, run); var v := Run(cfg, w, later);
            (v.cache.Some? ==> v.cache.value.reading.answer == NotFound) &&
            forall c :: c in v.calls && c !in w.calls && v.calls[c].Answered? && v.calls[c].outcome.Some? ==>
              v.calls[c].outcome.value.answer == NotFound ||
              (v.calls[c].via.Some? && v.calls[c].via.value in Overtaken(w, b))
  {
    var w := Run(cfg, START, run);
    var v := Run(cfg, w, later);
    RunTruth(cfg, START, run);
    RunTruth(cfg, w, later);
    RunCovered(cfg, START, run);
    RunCovered(cfg, w, later);
    RunFlight(cfg, START, run);
    RunRecent(cfg, w, later, b);
    assert v.views[b] == v.views[..|w.views|][b];
    if v.cache.Some? {
      assert v.cache.value.reading.version < b ==> b in v.pending;
      BlockedSince(v, v.cache.value.reading, b);
    }
    forall c | c in v.calls && c !in w.calls && v.calls[c].Answered? && v.calls[c].outcome.Some? &&
               !(v.calls[c].via.Some? && v.calls[c].via.value in Overtaken(w, b))
      ensures v.calls[c].outcome.value.answer == NotFound
    {
      BlockedSince(v, v.calls[c].outcome.value, b);
    }
  }

  // ---------------------------------------------------------------------
  // Exactly when a settled block hides the tag
  // ---------------------------------------------------------------------

  /** Where an unsettled lookup can still end with a positive answer. */
  predicate CanFind(pc: Pc) {
    match pc
    case Started => true
    case Read(view, _, _) => !view.Blocked?
    case Decided(r) => r.answer.Found?
    case Ready(outcome) => outcome.Some? && outcome.value.answer.Found?
    case Settled(_) => false
  }

  /** It cannot, or it did not. */
  predicate Cold(pc: Pc) {
    !CanFind(pc) && (pc.Settled? && pc.outcome.Some? ==> pc.outcome.value.answer.NotFound?)
  }

  /** No call made since `w` has a positive answer. */
  ghost predicate NewCallsHidden(w: World, v: World) {
    forall c :: c in v.calls && c !in w.calls && v.calls[c].Answered? && v.calls[c].outcome.Some? ==>
      v.calls[c].outcome.value.answer == NotFound
  }

  /** No call made from now on is answered positively, whatever race-free run follows. */
  ghost predicate Hides(cfg: Config, w: World) {
    forall later :: Throughout(cfg, RaceFree(), w, later) ==> NewCallsHidden(w, Run(cfg, w, later))
  }

  lemma ColdStays(cfg: Config, w: World, s: Step, l: nat)
    requires l in w.lookups && Cold(w.lookups[l].pc)
    ensures l in After(cfg, w, s).lookups && Cold(After(cfg, w, s).lookups[l].pc)
  {
  }

  lemma {:induction false} RunCold(cfg: Config, w: World, later: seq<Step>, l: nat)
    requires l in w.lookups && Cold(w.lookups[l].pc)
    ensures l in Run(cfg, w, later).lookups && Cold(Run(cfg, w, later).lookups[l].pc)
  {
    if later != [] {
      RunCold(cfg, w, later[..|later| - 1], l);
      ColdStays(cfg, Run(cfg, w, later[..|later| - 1]), later[|later| - 1], l);
    }
  }

  /** When the lookups overtaken by the block are all cold, the block hides. */
  lemma ColdHides(cfg: Config, run: seq<Step>, later: seq<Step>, b: nat)
    requires Throughout(cfg, RaceFree(), START, run)
    requires Throughout(cfg, RaceFree(), Run(cfg, START, run), later)
    requires var w := Run(cfg, START, run);
             b < |w.views| && w.views[b].Blocked? && b !in w.pending &&
             forall l :: l in Overtaken(w, b) ==> !CanFind(w.lookups[l].pc)
    ensures NewCallsHidden(Run(cfg, START, run), Run(cfg, Run(cfg, START, run), later))
  {
    var w := Run(cfg, START, run);
    var v := Run(cfg, w, later);
    SettledBlockHides(cfg, run, later, b);
    RunFlight(cfg, START, run);
    RunFlight(cfg, w, later);
    forall c | c in v.calls && c !in w.calls && v.calls[c].Answered? && v.calls[c].outcome.Some?
      ensures v.calls[c].outcome.value.answer == NotFound
    {
      if v.calls[c].via.Some? && v.calls[c].via.value in Overtaken(w, b) {
        RunCold(cfg, w, later, v.calls[c].via.value);
        assert CallInv(v, v.calls[c]);
      }
    }
  }

  /** A race-free run from `w` to `v`. */
  ghost predicate Leads(cfg: Config, w: World, run: seq<Step>, v: World) {
    Throughout(cfg, RaceFree(), w, run) && Run(cfg, w, run) == v
  }

  lemma Go(cfg: Config, w: World, run: seq<Step>, v: World, s: Step) returns (next: World, longer: seq<Step>)
    requires Leads(cfg, w, run, v) && RaceFree()(v, s)
    ensures next == After(cfg, v, s) && longer == run + [s] && Leads(cfg, w, longer, next)
  {
    next, longer := After(cfg, v, s), run + [s];
    assert longer[..|run|] == run;
  }

  /** A new call joins a lookup, which is then allowed to end. */
  function JoinAndEnd(w: World, l: nat, c: nat, unused: nat): seq<Step>
    requires l in w.lookups
  {
    [] + [Ask(c, w.lookups[l].instance)] + [CacheGet(c, false)] + [JoinOrLaunch(c, unused)] +
    [ConsultChain(l, Some(""))] + [Store(l, false)] + [Settle(l)] + [Resume(c)]
  }

  /** A new call that finds nothing in the cache. */
  lemma Misses(cfg: Config, w: World, c: nat, instance: nat, up: bool) returns (run: seq<Step>, v: World)
    requires c !in w.calls && !(up && Hit(w))
    ensures run == [] + [Ask(c, instance)] + [CacheGet(c, up)] && Leads(cfg, w, run, v)
    ensures v == w.(calls := w.calls[c := Missed(instance)])
  {
    v, run := Go(cfg, w, [], w, Ask(c, instance));
    assert v == w.(calls := w.calls[c := Asking(instance)]);
    v, run := Go(cfg, w, run, v, CacheGet(c, up));
    assert v.calls == w.calls[c := Missed(instance)];
  }

  lemma Joins(cfg: Config, w: World, l: nat, c: nat, unused: nat, up: bool) returns (run: seq<Step>, v: World)
    requires MapExact(w) && l in w.lookups && !w.lookups[l].pc.Settled? && c !in w.calls && unused !in w.lookups
    requires !(up && Hit(w))
    ensures run == [] + [Ask(c, w.lookups[l].instance)] + [CacheGet(c, up)] + [JoinOrLaunch(c, unused)]
    ensures Leads(cfg, w, run, v) && v.lookups == w.lookups
    ensures c in v.calls && v.calls[c] == Joined(w.lookups[l].instance, l) && v.now == w.now
  {
    run, v := Misses(cfg, w, c, w.lookups[l].instance, up);
    v, run := Go(cfg, w, run, v, JoinOrLaunch(c, unused));
  }

  /** The lookup's remaining steps, with a chain that shows the tag. */
  lemma Ends(cfg: Config, w: World, run: seq<Step>, u: World, l: nat) returns (longer: seq<Step>, v: World)
    requires Leads(cfg, w, run, u) && l in u.lookups && CanFind(u.lookups[l].pc) && !u.lookups[l].pc.Started?
    ensures longer == run + [ConsultChain(l, Some(""))] + [Store(l, false)]
    ensures Leads(cfg, w, longer, v) && v.calls == u.calls && l in v.lookups
    ensures v.lookups[l].pc.Ready? && v.lookups[l].pc.outcome.Some? && v.lookups[l].pc.outcome.value.answer.Found?
  {
    v, longer := Go(cfg, w, run, u, ConsultChain(l, Some("")));
    v, longer := Go(cfg, w, longer, v, Store(l, false));
  }

  /** A lookup that can still find lets a new call see the blocked tag. */
  lemma HotShows(cfg: Config, w: World, l: nat, c: nat, unused: nat)
    requires MapExact(w) && l in w.lookups && !w.lookups[l].pc.Started? && CanFind(w.lookups[l].pc)
    requires c !in w.calls && unused !in w.lookups
    ensures Throughout(cfg, RaceFree(), w, JoinAndEnd(w, l, c, unused))
    ensures !NewCallsHidden(w, Run(cfg, w, JoinAndEnd(w, l, c, unused)))
  {
    var run, v := Joins(cfg, w, l, c, unused, false);
    run, v := Ends(cfg, w, run, v, l);
    v, run := Go(cfg, w, run, v, Settle(l));
    v, run := Go(cfg, w, run, v, Resume(c));
    assert v.calls[c].Answered? && v.calls[c].outcome.Some?;
  }

  /** A settled block hides the tag from every later call, in every race-free
      continuation, if and only if no lookup under way that read the mirror
      before the block can still end with a positive answer. */
  lemma SettledBlockHidesExactly(cfg: Config, run: seq<Step>, b: nat)
    requires Throughout(cfg, RaceFree(), START, run)
    requires var w := Run(cfg, START, run); b < |w.views| && w.views[b].Blocked? && b !in w.pending
    ensures var w := Run(cfg, START, run);
            Hides(cfg, w) <==> forall l :: l in Overtaken(w, b) ==> !CanFind(w.lookups[l].pc)
  {
    var w := Run(cfg, START, run);
    if forall l :: l in Overtaken(w, b) ==> !CanFind(w.lookups[l].pc) {
      forall later | Throughout(cfg, RaceFree(), w, later) ensures NewCallsHidden(w, Run(cfg, w, later)) {
        ColdHides(cfg, run, later, b);
      }
    } else {
      var l :| l in Overtaken(w, b) && CanFind(w.lookups[l].pc);
      RunFlight(cfg, START, run);
      var c := Unused(w.calls.Keys);
      var unused := Unused(w.lookups.Keys);
      HotShows(cfg, w, l, c, unused);
    }
  }

  /** A lookup stores an active row; then the row is blocked and the key deleted. */
  function BlockedMidLookup(p: Payload): seq<Step> {
    [] + [Write(Active(p))] + [Del(1, true)] + [Ask(0, 0)] + [CacheGet(0, true)] + [JoinOrLaunch(0, 0)] +
    [ReadMirror(0, true)] + [ConsultChain(0, None)] + [Store(0, true)] + [Write(Blocked)] + [Del(2, true)]
  }

  /** A second caller arrives before the lookup's promise has settled. */
  function LateCaller(): seq<Step> {
    [] + [Ask(1, 0)] + [CacheGet(1, true)] + [JoinOrLaunch(1, 7)] + [Settle(0)] + [Resume(1)]
  }

  function Stored(p: Payload): World {
    World(0, [Absent, Active(p), Blocked], [0, 0, 0], {}, None,
          map[0 := Lookup(0, Ready(Some(Reading(Found(p), 0, 1, false))), 0)], map[0 := 0], map[0 := Joined(0, 0)])
  }

  /** The mirror's history up to the row, with nothing under way. */
  lemma RowWritten(cfg: Config, p: Payload) returns (w: World, run: seq<Step>)
    ensures run == [] + [Write(Active(p))] + [Del(1, true)] && Leads(cfg, START, run, w)
    ensures w == START.(views := [Absent, Active(p)], writtenAt := [0, 0])
  {
    w, run := Go(cfg, START, [], START, Write(Active(p)));
    assert w == START.(views := [Absent, Active(p)], writtenAt := [0, 0], pending := {1});
    w, run := Go(cfg, START, run, w, Del(1, true));
  }

  lemma MidRead(cfg: Config, p: Payload) returns (w: World, run: seq<Step>)
    ensures run == [] + [Write(Active(p))] + [Del(1, true)] + [Ask(0, 0)] + [CacheGet(0, true)] + [JoinOrLaunch(0, 0)]
    ensures Leads(cfg, START, run, w)
    ensures w == World(0, [Absent, Active(p)], [0, 0], {}, None,
                       map[0 := Lookup(0, Started, 0)], map[0 := 0], map[0 := Joined(0, 0)])
  {
    w, run := RowWritten(cfg, p);
    var quiet := w;
    w, run := Go(cfg, START, run, w, Ask(0, 0));
    assert w == quiet.(calls := map[0 := Asking(0)]);
    w, run := Go(cfg, START, run, w, CacheGet(0, true));
    assert w == quiet.(calls := map[0 := Missed(0)]);
    w, run := Go(cfg, START, run, w, JoinOrLaunch(0, 0));
  }

  lemma MidDecided(cfg: Config, p: Payload) returns (w: World, run: seq<Step>)
    ensures run == [] + [Write(Active(p))] + [Del(1, true)] + [Ask(0, 0)] + [CacheGet(0, true)] + [JoinOrLaunch(0, 0)] +
                   [ReadMirror(0, true)] + [ConsultChain(0, None)]
    ensures Leads(cfg, START, run, w)
    ensures w == World(0, [Absent, Active(p)], [0, 0], {}, None,
                       map[0 := Lookup(0, Decided(Reading(Found(p), 0, 1, false)), 0)],
                       map[0 := 0], map[0 := Joined(0, 0)])
  {
    w, run := MidRead(cfg, p);
    var before := w;
    w, run := Go(cfg, START, run, w, ReadMirror(0, true));
    assert w == before.(lookups := map[0 := Lookup(0, Read(Active(p), 0, 1), 0)]);
    w, run := Go(cfg, START, run, w, ConsultChain(0, None));
  }

  lemma MidLookup(cfg: Config, p: Payload) returns (w: World)
    ensures Leads(cfg, START, BlockedMidLookup(p), w)
    ensures w == Stored(p)
  {
    var run: seq<Step>;
    w, run := MidDecided(cfg, p);
    w, run := Go(cfg, START, run, w, Store(0, true));
    w, run := Go(cfg, START, run, w, Write(Blocked));
    w, run := Go(cfg, START, run, w, Del(2, true));
  }

  lemma LateCall(cfg: Config, w: World, p: Payload) returns (v: World)
    requires w == Stored(p)
    ensures Leads(cfg, w, LateCaller(), v)
    ensures 1 in v.calls && v.calls[1] == Answered(0, Some(0), Some(Reading(Found(p), 0, 1, false)), 0)
  {
    var run: seq<Step>;
    run, v := Joins(cfg, w, 0, 1, 7, true);
    v, run := Go(cfg, w, run, v, Settle(0));
    v, run := Go(cfg, w, run, v, Resume(1));
  }

  /** The exception is real: the lookup that a later call joins may have read the
      mirror before the block, and then the answer is positive. */
  lemma JoinedAnswerCanBeOld(cfg: Config, p: Payload)
    ensures var w := Run(cfg, START, BlockedMidLookup(p));
            Throughout(cfg, RaceFree(), START, BlockedMidLookup(p)) && Throughout(cfg, RaceFree(), w, LateCaller()) &&
            w.views == [Absent, Active(p), Blocked] && w.pending == {} && 1 !in w.calls &&
            var v := Run(cfg, w, LateCaller());
            1 in v.calls && v.calls[1].Answered? && v.calls[1].outcome.Some? &&
            v.calls[1].outcome.value.answer == Found(p)
  {
    var w := MidLookup(cfg, p);
    var v := LateCall(cfg, w, p);
  }

  // ---------------------------------------------------------------------
  // What the chain contributes
  // ---------------------------------------------------------------------

  /** A reading that rests on the chain shows a wallet the chain showed. */
  ghost predicate WalletOk(ok: string -> bool, outcome: Option<Reading>) {
    outcome.Some? && outcome.value.fromChain && outcome.value.answer.Found? ==> ok(outcome.value.answer.payload.wallet)
  }

  function OutcomeOf(pc: Pc): Option<Reading> {
    match pc
    case Decided(r) => Some(r)
    case Ready(outcome) => outcome
    case Settled(outcome) => outcome
    case _ => None
  }

  ghost predicate WalletsOk(ok: string -> bool, w: World) {
    (forall l :: l in w.lookups ==> WalletOk(ok, OutcomeOf(w.lookups[l].pc))) &&
    (w.cache.Some? ==> WalletOk(ok, Some(w.cache.value.reading))) &&
    forall c :: c in w.calls && w.calls[c].Answered? ==> WalletOk(ok, w.calls[c].outcome)
  }

  lemma WalletsKept(cfg: Config, ok: string -> bool, w: World, s: Step)
    requires WalletsOk(ok, w) && (s.ConsultChain? && s.wallet.Some? ==> ok(s.wallet.value))
    ensures WalletsOk(ok, After(cfg, w, s))
  {
    var v := After(cfg, w, s);
    forall l | l in v.lookups ensures WalletOk(ok, OutcomeOf(v.lookups[l].pc)) {
      if l in w.lookups {
        assert WalletOk(ok, OutcomeOf(w.lookups[l].pc));
      }
    }
  }

  // ---------------------------------------------------------------------
  // A call that nothing interrupts
  // ---------------------------------------------------------------------

  /** Which of the Redis read, the mirror read and the Redis write succeed. */
  datatype Faults = Faults(get: bool, mirror: bool, store: bool)

  /** A call by itself, waiting `elapsed` seconds for the chain. */
  datatype Visit = Visit(call: nat, instance: nat, lookup: nat, wallet: Option<string>, elapsed: nat, ok: Faults)

  function Serving(x: Visit): seq<Step> {
    [] + [Ask(x.call, x.instance)] + [CacheGet(x.call, x.ok.get)] + [JoinOrLaunch(x.call, x.lookup)] +
    [ReadMirror(x.lookup, x.ok.mirror)] + [ConsultChain(x.lookup, x.wallet)] + [Tick(x.elapsed)] +
    [Store(x.lookup, x.ok.store)] + [Settle(x.lookup)] + [Resume(x.call)]
  }

  /** A new call that finds the answer in the cache or no lookup to wait for. */
  predicate Alone(w: World, x: Visit) {
    x.call !in w.calls && x.lookup !in w.lookups && ((x.ok.get && Hit(w)) || x.instance !in w.inFlight)
  }

  function Current(w: World): View { w.views[|w.views| - 1] }

  /** What a call by itself answers: the cache, or else the mirror and the chain. */
  function Served(w: World, x: Visit): Option<Reading> {
    if x.ok.get && Hit(w) then Some(w.cache.value.reading)
    else if x.ok.mirror then Some(Decide(Current(w), w.now, |w.views| - 1, x.wallet))
    else None
  }

  /** What it leaves in the cache. */
  function Cached(cfg: Config, w: World, x: Visit): Option<Entry> {
    if (x.ok.get && Hit(w)) || !x.ok.mirror || !x.ok.store then w.cache
    else
      var r := Decide(Current(w), w.now, |w.views| - 1, x.wallet);
      Some(Entry(r, w.now + x.elapsed + cfg.Ttl(r)))
  }

  lemma Asks(cfg: Config, w: World, x: Visit) returns (run: seq<Step>, v: World)
    requires Alone(w, x)
    ensures run == [] + [Ask(x.call, x.instance)] + [CacheGet(x.call, x.ok.get)] && v == Run(cfg, w, run)
    ensures v == w.(calls := w.calls[x.call :=
              if x.ok.get && Hit(w) then Answered(x.instance, None, Some(w.cache.value.reading), w.now)
              else Missed(x.instance)])
  {
    RunSnoc(cfg, w, [], Ask(x.call, x.instance));
    RunSnoc(cfg, w, [] + [Ask(x.call, x.instance)], CacheGet(x.call, x.ok.get));
    run := [] + [Ask(x.call, x.instance)] + [CacheGet(x.call, x.ok.get)];
    v := Run(cfg, w, run);
    assert v.calls == w.calls[x.call := v.calls[x.call]];
  }

  lemma Launches(cfg: Config, u: World, run: seq<Step>, w: World, x: Visit) returns (longer: seq<Step>, v: World)
    requires Run(cfg, u, run) == w && x.call in w.calls && x.lookup !in w.lookups
    requires w.calls[x.call] == Missed(x.instance) ==> x.instance !in w.inFlight
    requires w.calls[x.call] == Missed(x.instance) || w.calls[x.call].Answered?
    ensures longer == run + [JoinOrLaunch(x.call, x.lookup)] + [ReadMirror(x.lookup, x.ok.mirror)]
    ensures v == Run(cfg, u, longer)
    ensures v == if w.calls[x.call].Answered? then w else
                   w.(calls := w.calls[x.call := Joined(x.instance, x.lookup)],
                      lookups := w.lookups[x.lookup := Lookup(x.instance,
                        if x.ok.mirror then Read(Current(w), w.now, |w.views| - 1) else Ready(None), w.now)],
                      inFlight := w.inFlight[x.instance := x.lookup])
  {
    RunSnoc(cfg, u, run, JoinOrLaunch(x.call, x.lookup));
    RunSnoc(cfg, u, run + [JoinOrLaunch(x.call, x.lookup)], ReadMirror(x.lookup, x.ok.mirror));
    longer := run + [JoinOrLaunch(x.call, x.lookup)] + [ReadMirror(x.lookup, x.ok.mirror)];
    v := Run(cfg, u, longer);
    if !w.calls[x.call].Answered? {
      assert v.lookups == w.lookups[x.lookup := v.lookups[x.lookup]];
    }
  }

  lemma Opens(cfg: Config, w: World, x: Visit) returns (run: seq<Step>, v: World)
    requires Alone(w, x)
    ensures run == [] + [Ask(x.call, x.instance)] + [CacheGet(x.call, x.ok.get)] + [JoinOrLaunch(x.call, x.lookup)] +
                   [ReadMirror(x.lookup, x.ok.mirror)]
    ensures v == Run(cfg, w, run)
    ensures v == if x.ok.get && Hit(w)
                 then w.(calls := w.calls[x.call := Answered(x.instance, None, Some(w.cache.value.reading), w.now)])
                 else w.(calls := w.calls[x.call := Joined(x.instance, x.lookup)],
                         lookups := w.lookups[x.lookup := Lookup(x.instance,
                           if x.ok.mirror then Read(Current(w), w.now, |w.views| - 1) else Ready(None), w.now)],
                         inFlight := w.inFlight[x.instance := x.lookup])
  {
    run, v := Asks(cfg, w, x);
    run, v := Launches(cfg, w, run, v, x);
  }

  lemma Stores(cfg: Config, u: World, run: seq<Step>, w: World, x: Visit) returns (longer: seq<Step>, v: World)
    requires Run(cfg, u, run) == w
    requires x.lookup in w.lookups ==>
      w.lookups[x.lookup].pc == if x.ok.mirror then Read(Current(w), w.now, |w.views| - 1) else Ready(None)
    ensures longer == run + [ConsultChain(x.lookup, x.wallet)] + [Tick(x.elapsed)] + [Store(x.lookup, x.ok.store)]
    ensures v == Run(cfg, u, longer)
    ensures var outcome := if x.ok.mirror then Some(Decide(Current(w), w.now, |w.views| - 1, x.wallet)) else None;
            v == if x.lookup !in w.lookups then w.(now := w.now + x.elapsed) else
                   w.(now := w.now + x.elapsed,
                      lookups := w.lookups[x.lookup := Lookup(w.lookups[x.lookup].instance, Ready(outcome),
                        if x.ok.mirror then w.now + x.elapsed else w.lookups[x.lookup].since)],
                      cache := if x.ok.mirror && x.ok.store
                               then Some(Entry(outcome.value, w.now + x.elapsed + cfg.Ttl(outcome.value))) else w.cache)
  {
    var run1 := run + [ConsultChain(x.lookup, x.wallet)];
    RunSnoc(cfg, u, run, ConsultChain(x.lookup, x.wallet));
    RunSnoc(cfg, u, run1, Tick(x.elapsed));
    RunSnoc(cfg, u, run1 + [Tick(x.elapsed)], Store(x.lookup, x.ok.store));
    longer := run1 + [Tick(x.elapsed)] + [Store(x.lookup, x.ok.store)];
    v := Run(cfg, u, longer);
    if x.lookup in w.lookups {
      assert v.lookups == w.lookups[x.lookup := v.lookups[x.lookup]];
    }
  }

  /** The waiting call is told the outcome; one that was answered is left alone. */
  lemma Tells(w: World, x: Visit, outcome: Option<Reading>) returns (v: World)
    requires x.call in w.calls && x.lookup in w.lookups
    requires w.calls[x.call] == Joined(x.instance, x.lookup)
    requires w.lookups[x.lookup].instance == x.instance && w.lookups[x.lookup].pc == Ready(outcome)
    ensures v == AfterResume(AfterSettle(w, x.lookup), x.call)
    ensures x.call in v.calls && v.calls[x.call].Answered? && v.calls[x.call].outcome == outcome
    ensures v.cache == w.cache && v.views == w.views && v.pending == w.pending
    ensures v.inFlight == w.inFlight - {x.instance}
  {
    var settled := AfterSettle(w, x.lookup);
    assert settled.calls == w.calls && settled.lookups[x.lookup].pc == Settled(outcome);
    v := AfterResume(settled, x.call);
  }

  lemma SettleNext(cfg: Config, u: World, run: seq<Step>, lookup: nat)
    ensures Run(cfg, u, run + [Settle(lookup)]) == AfterSettle(Run(cfg, u, run), lookup)
  {
    RunSnoc(cfg, u, run, Settle(lookup));
  }

  lemma ResumeNext(cfg: Config, u: World, run: seq<Step>, call: nat)
    ensures Run(cfg, u, run + [Resume(call)]) == AfterResume(Run(cfg, u, run), call)
  {
    RunSnoc(cfg, u, run, Resume(call));
  }

  predicate Leaves(cfg: Config, w: World, x: Visit, v: World) {
    x.call in v.calls && v.calls[x.call].Answered? && v.calls[x.call].outcome == Served(w, x) &&
    v.cache == Cached(cfg, w, x) && v.inFlight == w.inFlight && v.views == w.views && v.pending == w.pending
  }

  lemma Looks(cfg: Config, w: World, x: Visit) returns (run: seq<Step>, v: World)
    requires Alone(w, x)
    ensures Serving(x) == run + [Settle(x.lookup)] + [Resume(x.call)] && v == Run(cfg, w, run)
    ensures v.cache == Cached(cfg, w, x) && v.views == w.views && v.pending == w.pending && x.call in v.calls
    ensures if x.ok.get && Hit(w)
            then x.lookup !in v.lookups && v.inFlight == w.inFlight &&
                 v.calls[x.call] == Answered(x.instance, None, Served(w, x), w.now)
            else x.lookup in v.lookups && v.calls[x.call] == Joined(x.instance, x.lookup) &&
                 v.lookups[x.lookup].instance == x.instance &&
                 v.lookups[x.lookup].pc == Ready(Served(w, x)) && v.inFlight - {x.instance} == w.inFlight
  {
    run, v := Opens(cfg, w, x);
    run, v := Stores(cfg, w, run, v, x);
  }

  /** A call by itself answers from the cache, or else from the mirror and the
      chain, caching what it found; it leaves no trace in the in-flight map. */
  lemma ServedAlone(cfg: Config, w: World, x: Visit)
    requires Alone(w, x)
    ensures Leaves(cfg, w, x, Run(cfg, w, Serving(x)))
  {
    var run, v := Looks(cfg, w, x);
    SettleNext(cfg, w, run, x.lookup);
    ResumeNext(cfg, w, run + [Settle(x.lookup)], x.call);
    if !(x.ok.get && Hit(w)) {
      var told := Tells(v, x, Served(w, x));
    }
  }

  /** A call's first steps, up to the in-flight map. */
  function Calling(x: Visit): seq<Step> {
    [] + [Ask(x.call, x.instance)] + [CacheGet(x.call, x.ok.get)] + [JoinOrLaunch(x.call, x.lookup)]
  }

  /** A new call that misses while a lookup is under way waits for that lookup. */
  lemma WaitsForLookup(cfg: Config, w: World, x: Visit)
    requires x.call !in w.calls && x.lookup !in w.lookups && !(x.ok.get && Hit(w)) && x.instance in w.inFlight
    ensures Run(cfg, w, Calling(x)) == w.(calls := w.calls[x.call := Joined(x.instance, w.inFlight[x.instance])])
  {
    var run, v := Misses(cfg, w, x.call, x.instance, x.ok.get);
    RunSnoc(cfg, w, run, JoinOrLaunch(x.call, x.lookup));
    assert After(cfg, v, JoinOrLaunch(x.call, x.lookup)).calls ==
           w.calls[x.call := Joined(x.instance, w.inFlight[x.instance])];
  }

  /** At a quiet moment of a race-free run, whatever Redis still holds or loses,
      a call by itself that does not fail answers with the current view. */
  lemma ServedIsCurrent(cfg: Config, run: seq<Step>, x: Visit)
    requires Throughout(cfg, RaceFree(), START, run)
    requires Run(cfg, START, run).pending == {} && Alone(Run(cfg, START, run), x)
    ensures var w := Run(cfg, START, run); var v := Run(cfg, w, Serving(x));
            x.call in v.calls && v.calls[x.call].Answered? &&
            match v.calls[x.call].outcome
            case Some(r) => Matches(Current(v), r)
            case None => !x.ok.mirror
  {
    CoherentWhenQuiet(cfg, run);
    ServedAlone(cfg, Run(cfg, START, run), x);
  }
}

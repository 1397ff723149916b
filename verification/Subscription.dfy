/** The reconnecting live subscription of apps/indexer/src/subscription.ts. */
module Subscription {
  import opened Prelude

  const INITIAL_BACKOFF_MS := 1000
  const MAX_BACKOFF_MS := 30000

  /** One turn of the loop: subscribing fails, or a stream opens, its sweep (if
      one is due) completes or fails, and `delivered` notifications are
      consumed before the stream ends or an error breaks it off. */
  datatype Attempt = SubscribeFails | Connects(sweepCompletes: bool, delivered: nat)

  datatype Event =
    | Subscribed(connection: nat)
    | Swept(connection: nat)
    | Consumed(connection: nat)
    | Slept(ms: nat)

  // ---------------------------------------------------------------------
  // What the loop does
  // ---------------------------------------------------------------------

  function Repeated(e: Event, n: nat): (r: seq<Event>)
    ensures |r| == n && forall i :: 0 <= i < n ==> r[i] == e
  {
    seq(n, _ => e)
  }

  /** No earlier attempt has opened a stream. */
  predicate NoneConnected(attempts: seq<Attempt>) {
    attempts == [] || (attempts[|attempts| - 1].SubscribeFails? && NoneConnected(attempts[..|attempts| - 1]))
  }

  function Turn(connection: nat, first: bool, a: Attempt): seq<Event> {
    match a
    case SubscribeFails => []
    case Connects(sweepCompletes, delivered) =>
      [Subscribed(connection)] +
      if first then Repeated(Consumed(connection), delivered)
      else if sweepCompletes then [Swept(connection)] + Repeated(Consumed(connection), delivered)
      else []
  }

  /** Failed subscriptions since the last success, or since the start. */
  function Streak(attempts: seq<Attempt>): nat {
    if attempts == [] || !attempts[|attempts| - 1].SubscribeFails? then 0
    else 1 + Streak(attempts[..|attempts| - 1])
  }

  /** Doublings before the pause after these attempts: one per failure since the
      last success, and one fewer when there has been none. */
  function Exponent(attempts: seq<Attempt>): nat {
    if NoneConnected(attempts) && attempts != [] then |attempts| - 1 else Streak(attempts)
  }

  function Delay(attempts: seq<Attempt>): nat {
    Min(INITIAL_BACKOFF_MS * Pow2(Exponent(attempts)), MAX_BACKOFF_MS)
  }

  function Pause(attempts: seq<Attempt>): seq<Event> {
    if attempts == [] then [] else [Slept(Delay(attempts))]
  }

  /** All events of these attempts and the pauses between them. */
  function Log(attempts: seq<Attempt>): seq<Event> {
    if attempts == [] then []
    else
      var front := attempts[..|attempts| - 1];
      Log(front) + Pause(front) +
      Turn(|front|, NoneConnected(front), attempts[|attempts| - 1])
  }

  lemma {:induction false} StreakAll(attempts: seq<Attempt>)
    requires NoneConnected(attempts)
    ensures Streak(attempts) == |attempts|
  {
    if attempts != [] {
      StreakAll(attempts[..|attempts| - 1]);
    }
  }

  /** The exponent goes up by one with every failure after the first turn, and a
      success resets it. */
  lemma ExponentStep(attempts: seq<Attempt>)
    requires attempts != []
    ensures var front, last := attempts[..|attempts| - 1], attempts[|attempts| - 1];
            Exponent(attempts) == if last.Connects? || front == [] then 0 else Exponent(front) + 1
  {
    var front := attempts[..|attempts| - 1];
    if NoneConnected(attempts) {
      StreakAll(attempts);
    } else if NoneConnected(front) {
      StreakAll(front);
    }
  }

  /** No pause is longer than half a minute or shorter than a second, and each
      is twice the one before it, up to that cap, unless a stream opened. */
  lemma DelayDoubles(attempts: seq<Attempt>)
    requires attempts != []
    ensures INITIAL_BACKOFF_MS <= Delay(attempts) <= MAX_BACKOFF_MS
    ensures var front, last := attempts[..|attempts| - 1], attempts[|attempts| - 1];
            Delay(attempts) == if last.Connects? || front == [] then INITIAL_BACKOFF_MS
                               else Min(2 * Delay(front), MAX_BACKOFF_MS)
  {
    ExponentStep(attempts);
    Pow2Monotonic(0, Exponent(attempts));
  }

  /** The body of the try block: what one connection attempt does. */
  method RunAttempt(connection: nat, firstConnection: bool, a: Attempt) returns (events: seq<Event>)
    ensures events == Turn(connection, firstConnection, a)
  {
    if a.SubscribeFails? { return []; }
    events := [Subscribed(connection)];
    if !firstConnection {
      if !a.sweepCompletes { return; }
      events := events + [Swept(connection)];
    }
    ghost var head := events;
    for n := 0 to a.delivered
      invariant events == head + Repeated(Consumed(connection), n)
    {
      events := events + [Consumed(connection)];
    }
  }

  /** The loop's variables. */
  datatype Loop = Loop(log: seq<Event>, backoffMs: nat, firstConnection: bool)

  function Turned(l: Loop, connection: nat, a: Attempt): Loop {
    Loop(l.log + Turn(connection, l.firstConnection, a),
         if a.Connects? then INITIAL_BACKOFF_MS else l.backoffMs,
         l.firstConnection && a.SubscribeFails?)
  }

  function Paused(l: Loop): Loop {
    Loop(l.log + [Slept(l.backoffMs)], Min(l.backoffMs * 2, MAX_BACKOFF_MS), l.firstConnection)
  }

  /** The variables when the loop comes round after these attempts. */
  function LoopAt(attempts: seq<Attempt>): Loop {
    if attempts == [] then Loop([], INITIAL_BACKOFF_MS, true)
    else
      var front := attempts[..|attempts| - 1];
      Paused(Turned(LoopAt(front), |front|, attempts[|attempts| - 1]))
  }

  lemma {:induction false} LoopAtIsLog(attempts: seq<Attempt>)
    ensures LoopAt(attempts).log == Log(attempts) + Pause(attempts)
    ensures LoopAt(attempts).firstConnection == NoneConnected(attempts)
    ensures LoopAt(attempts).backoffMs ==
            if attempts == [] then INITIAL_BACKOFF_MS else Min(2 * Delay(attempts), MAX_BACKOFF_MS)
  {
    if attempts != [] {
      LoopAtIsLog(attempts[..|attempts| - 1]);
      DelayDoubles(attempts);
    }
  }

  lemma LoopStep(attempts: seq<Attempt>, i: nat)
    requires i < |attempts|
    ensures var l := Turned(LoopAt(attempts[..i]), i, attempts[i]);
            LoopAt(attempts[..i + 1]) == Paused(l) && (i + 1 == |attempts| ==> l.log == Log(attempts))
  {
    assert attempts[..i + 1][..i] == attempts[..i];
    if i + 1 == |attempts| {
      LoopAtIsLog(attempts[..i]);
    }
  }

  /** The abort signal comes before the first attempt, during the last one, or in
      the pause after it, which is slept through. */
  function Trace(attempts: seq<Attempt>, abortedAsleep: bool): seq<Event> {
    Log(attempts) + if abortedAsleep then Pause(attempts) else []
  }

  /** The loop; a failed attempt lands in the handler and goes on to the pause. */
  method RunLiveSubscription(attempts: seq<Attempt>, abortedAsleep: bool) returns (log: seq<Event>)
    ensures log == Trace(attempts, abortedAsleep)
  {
    var backoffMs: nat, firstConnection := INITIAL_BACKOFF_MS, true;
    var i := 0;
    log := [];
    ghost var l := LoopAt(attempts[..0]);
    while i < |attempts|
      invariant i <= |attempts| && (i == |attempts| ==> i == 0 || abortedAsleep)
      invariant l == LoopAt(attempts[..i]) && l == Loop(log, backoffMs, firstConnection)
    {
      LoopStep(attempts, i);
      l := Paused(Turned(l, i, attempts[i]));
      var events := RunAttempt(i, firstConnection, attempts[i]);
      log := log + events;
      if attempts[i].Connects? {
        backoffMs := INITIAL_BACKOFF_MS;
        firstConnection := false;
      }
      i := i + 1;
      if i == |attempts| && !abortedAsleep { return; }
      log := log + [Slept(backoffMs)];
      backoffMs := Min(backoffMs * 2, MAX_BACKOFF_MS);
    }
    assert attempts[..i] == attempts;
    LoopAtIsLog(attempts);
  }

  // ---------------------------------------------------------------------
  // Gaps are healed before anything is consumed
  // ---------------------------------------------------------------------

  /** Event `j` consumes on a connection that has completed its sweep. */
  predicate AfterSweep(log: seq<Event>, j: nat)
    requires j < |log| && log[j].Consumed?
  {
    Swept(log[j].connection) in log[..j]
  }

  /** Event `j` consumes on the first connection there ever was. */
  ghost predicate OnFirst(log: seq<Event>, j: nat)
    requires j < |log| && log[j].Consumed?
  {
    forall e :: e in log[..j] && e.Subscribed? ==> e.connection == log[j].connection
  }

  ghost predicate Healed(log: seq<Event>) {
    forall j: nat :: j < |log| && log[j].Consumed? ==>
      Subscribed(log[j].connection) in log[..j] && (AfterSweep(log, j) || OnFirst(log, j))
  }

  lemma {:induction false} NoneSubscribed(attempts: seq<Attempt>)
    requires NoneConnected(attempts)
    ensures forall e :: e in Log(attempts) ==> e.Slept?
  {
    if attempts != [] {
      NoneSubscribed(attempts[..|attempts| - 1]);
    }
  }

  lemma TurnHealed(log: seq<Event>, connection: nat, first: bool, a: Attempt)
    requires Healed(log) && (first ==> forall e :: e in log ==> e.Slept?)
    ensures Healed(log + Turn(connection, first, a))
  {
    var turn := Turn(connection, first, a);
    var all := log + turn;
    forall j: nat | j < |all| && all[j].Consumed?
      ensures Subscribed(all[j].connection) in all[..j] && (AfterSweep(all, j) || OnFirst(all, j))
    {
      if j < |log| {
        assert all[..j] == log[..j] && all[j] == log[j];
        assert AfterSweep(log, j) || OnFirst(log, j);
      } else {
        assert all[..j] == log + turn[..j - |log|];
        assert turn[0] == Subscribed(connection) && turn[0] in turn[..j - |log|];
        if !first {
          assert turn[1] == Swept(connection) && turn[1] in turn[..j - |log|];
        }
      }
    }
  }

  lemma SleepHealed(log: seq<Event>, ms: nat)
    requires Healed(log)
    ensures Healed(log + [Slept(ms)])
  {
    var all := log + [Slept(ms)];
    forall j: nat | j < |all| && all[j].Consumed?
      ensures Subscribed(all[j].connection) in all[..j] && (AfterSweep(all, j) || OnFirst(all, j))
    {
      assert all[..j] == log[..j] && all[j] == log[j];
      assert AfterSweep(log, j) || OnFirst(log, j);
    }
  }

  lemma {:induction false} LogHealed(attempts: seq<Attempt>)
    ensures Healed(Log(attempts))
  {
    if attempts != [] {
      var front := attempts[..|attempts| - 1];
      LogHealed(front);
      if NoneConnected(front) {
        NoneSubscribed(front);
      }
      if front == [] {
        assert Log(front) + Pause(front) == Log(front);
      } else {
        SleepHealed(Log(front), Delay(front));
      }
      TurnHealed(Log(front) + Pause(front), |front|, NoneConnected(front), attempts[|attempts| - 1]);
    }
  }

  lemma TraceHealed(attempts: seq<Attempt>, abortedAsleep: bool)
    ensures Healed(Trace(attempts, abortedAsleep))
  {
    LogHealed(attempts);
    if abortedAsleep && attempts != [] {
      SleepHealed(Log(attempts), Delay(attempts));
    } else {
      assert Trace(attempts, abortedAsleep) == Log(attempts);
    }
  }

  /** Whatever fails in whatever order, notifications consumed without a
      completed sweep on their own connection all come from one connection,
      the first to succeed. */
  lemma OneUnsweptConnection(attempts: seq<Attempt>, abortedAsleep: bool, i: nat, j: nat)
    requires var log := Trace(attempts, abortedAsleep);
             i < |log| && log[i].Consumed? && !AfterSweep(log, i) &&
             j < |log| && log[j].Consumed? && !AfterSweep(log, j)
    ensures var log := Trace(attempts, abortedAsleep);
            log[i].connection == log[j].connection && OnFirst(log, i)
  {
    TraceHealed(attempts, abortedAsleep);
    var log := Trace(attempts, abortedAsleep);
    assert AfterSweep(log, i) || OnFirst(log, i);
    assert AfterSweep(log, j) || OnFirst(log, j);
    if i <= j {
      assert log[..i] <= log[..j];
    } else {
      assert log[..j] <= log[..i];
    }
  }

  // ---------------------------------------------------------------------
  // Nothing is dropped and nothing invented
  // ---------------------------------------------------------------------

  /** How often an event occurs. */
  function Count(log: seq<Event>, e: Event): nat {
    if log == [] then 0 else Count(log[..|log| - 1], e) + if log[|log| - 1] == e then 1 else 0
  }

  lemma CountSnoc(log: seq<Event>, d: Event, e: Event, whole: seq<Event>)
    requires whole == log + [d]
    ensures Count(whole, e) == Count(log, e) + if d == e then 1 else 0
  {
    assert whole[..|log|] == log;
  }

  lemma {:induction false} CountConcat(s: seq<Event>, t: seq<Event>, e: Event, whole: seq<Event>)
    requires whole == s + t
    ensures Count(whole, e) == Count(s, e) + Count(t, e)
  {
    if t == [] {
      assert whole == s;
    } else {
      var front, d := t[..|t| - 1], t[|t| - 1];
      assert t == front + [d] && whole == s + front + [d];
      CountConcat(s, front, e, s + front);
      CountSnoc(s + front, d, e, whole);
      CountSnoc(front, d, e, t);
    }
  }

  lemma {:induction false} CountRepeated(d: Event, n: nat, e: Event, repeated: seq<Event>)
    requires repeated == Repeated(d, n)
    ensures Count(repeated, e) == if d == e then n else 0
  {
    if 0 < n {
      var front := Repeated(d, n - 1);
      CountRepeated(d, n - 1, e, front);
      CountSnoc(front, d, e, repeated);
    }
  }

  lemma CountSingle(d: Event, e: Event)
    ensures Count([d], e) == if d == e then 1 else 0
  {
    CountSnoc([], d, e, [d]);
  }

  lemma {:induction false} NoneConnectedMeans(attempts: seq<Attempt>)
    ensures NoneConnected(attempts) <==> forall i :: 0 <= i < |attempts| ==> attempts[i].SubscribeFails?
  {
    if attempts != [] {
      NoneConnectedMeans(attempts[..|attempts| - 1]);
    }
  }

  /** How often an event is due to the attempt with this number, `first` if no
      earlier one has opened a stream. */
  function Due(connection: nat, first: bool, a: Attempt, e: Event): nat {
    if e.Slept? || e.connection != connection || a.SubscribeFails? then 0
    else
      match e
      case Subscribed(_) => 1
      case Swept(_) => if !first && a.sweepCompletes then 1 else 0
      case Consumed(_) => if first || a.sweepCompletes then a.delivered else 0
  }

  lemma TurnCount(connection: nat, first: bool, a: Attempt, e: Event, turn: seq<Event>)
    requires turn == Turn(connection, first, a) && !e.Slept?
    ensures Count(turn, e) == Due(connection, first, a, e)
  {
    if a.Connects? {
      var head: seq<Event> := [Subscribed(connection)];
      var consumed := Repeated(Consumed(connection), a.delivered);
      CountSingle(Subscribed(connection), e);
      CountRepeated(Consumed(connection), a.delivered, e, consumed);
      if first {
        CountConcat(head, consumed, e, turn);
      } else if a.sweepCompletes {
        var swept := head + [Swept(connection)];
        CountSnoc(head, Swept(connection), e, swept);
        assert turn == swept + consumed;
        CountConcat(swept, consumed, e, turn);
      }
    }
  }

  ghost predicate NoEarlier(attempts: seq<Attempt>, c: nat) {
    forall i :: 0 <= i < c && i < |attempts| ==> attempts[i].SubscribeFails?
  }

  lemma PauseCount(attempts: seq<Attempt>, e: Event)
    requires !e.Slept?
    ensures Count(Pause(attempts), e) == 0
  {
    if attempts != [] {
      CountSingle(Slept(Delay(attempts)), e);
    }
  }

  lemma LogCountNext(attempts: seq<Attempt>, e: Event, front: seq<Attempt>, turn: seq<Event>)
    requires attempts != [] && front == attempts[..|attempts| - 1] && !e.Slept?
    requires turn == Turn(|front|, NoneConnected(front), attempts[|front|])
    ensures Count(Log(attempts), e) == Count(Log(front), e) + Count(turn, e)
  {
    var paused := Log(front) + Pause(front);
    CountConcat(Log(front), Pause(front), e, paused);
    PauseCount(front, e);
    CountConcat(paused, turn, e, Log(attempts));
  }

  lemma {:induction false} LogCount(attempts: seq<Attempt>, e: Event)
    requires !e.Slept?
    ensures Count(Log(attempts), e) ==
            if e.connection < |attempts|
            then Due(e.connection, NoEarlier(attempts, e.connection), attempts[e.connection], e)
            else 0
  {
    if attempts != [] {
      var front := attempts[..|attempts| - 1];
      var turn := Turn(|front|, NoneConnected(front), attempts[|front|]);
      LogCount(front, e);
      LogCountNext(attempts, e, front, turn);
      TurnCount(|front|, NoneConnected(front), attempts[|front|], e, turn);
      NoneConnectedMeans(front);
      if e.connection <= |front| {
        SameEarlier(attempts, e.connection);
      }
    }
  }

  lemma SameEarlier(attempts: seq<Attempt>, c: nat)
    requires attempts != [] && c < |attempts|
    ensures NoEarlier(attempts, c) <==> NoEarlier(attempts[..|attempts| - 1], c)
  {
    var front := attempts[..|attempts| - 1];
    assert forall i :: 0 <= i < |front| ==> front[i] == attempts[i];
  }

  lemma TraceCount(attempts: seq<Attempt>, abortedAsleep: bool, e: Event, trace: seq<Event>)
    requires !e.Slept? && e.connection < |attempts| && trace == Trace(attempts, abortedAsleep)
    ensures Count(trace, e) == Due(e.connection, NoEarlier(attempts, e.connection), attempts[e.connection], e)
  {
    LogCount(attempts, e);
    PauseCount(attempts, e);
    CountConcat(Log(attempts), if abortedAsleep then Pause(attempts) else [], e, trace);
  }

  /** For every attempt: one subscription exactly when it connects, one sweep
      exactly when it connects later than another and the sweep completes, and
      every notification delivered on the first connection or after the sweep. */
  lemma EveryNotificationConsumed(attempts: seq<Attempt>, abortedAsleep: bool, c: nat)
    requires c < |attempts|
    ensures var trace, a := Trace(attempts, abortedAsleep), attempts[c];
            var first := forall i :: 0 <= i < c ==> attempts[i].SubscribeFails?;
            Count(trace, Subscribed(c)) == (if a.Connects? then 1 else 0) &&
            Count(trace, Swept(c)) == (if a.Connects? && !first && a.sweepCompletes then 1 else 0) &&
            Count(trace, Consumed(c)) == (if a.Connects? && (first || a.sweepCompletes) then a.delivered else 0)
  {
    var trace := Trace(attempts, abortedAsleep);
    TraceCount(attempts, abortedAsleep, Subscribed(c), trace);
    TraceCount(attempts, abortedAsleep, Swept(c), trace);
    TraceCount(attempts, abortedAsleep, Consumed(c), trace);
    assert NoEarlier(attempts, c) <==> forall i :: 0 <= i < c ==> attempts[i].SubscribeFails?;
  }

  function Sleeps(log: seq<Event>): seq<nat> {
    if log == [] then []
    else Sleeps(log[..|log| - 1]) + if log[|log| - 1].Slept? then [log[|log| - 1].ms] else []
  }

  lemma SleepsSnoc(log: seq<Event>, e: Event, whole: seq<Event>)
    requires whole == log + [e]
    ensures Sleeps(whole) == Sleeps(log) + if e.Slept? then [e.ms] else []
  {
    assert whole[..|log|] == log;
  }

  lemma {:induction false} SleepsConcat(s: seq<Event>, t: seq<Event>, whole: seq<Event>)
    requires whole == s + t
    ensures Sleeps(whole) == Sleeps(s) + Sleeps(t)
  {
    if t == [] {
      assert whole == s;
    } else {
      var front, e := t[..|t| - 1], t[|t| - 1];
      assert t == front + [e] && whole == s + front + [e];
      SleepsConcat(s, front, s + front);
      SleepsSnoc(s + front, e, whole);
      SleepsSnoc(front, e, t);
    }
  }

  lemma {:induction false} NoSleeps(log: seq<Event>)
    requires forall e :: e in log ==> !e.Slept?
    ensures Sleeps(log) == []
  {
    if log != [] {
      NoSleeps(log[..|log| - 1]);
    }
  }

  /** The delays due after each of the attempts. */
  function Delays(attempts: seq<Attempt>): (ms: seq<nat>)
    ensures |ms| == |attempts|
  {
    if attempts == [] then [] else Delays(attempts[..|attempts| - 1]) + [Delay(attempts)]
  }

  lemma PauseSleeps(attempts: seq<Attempt>)
    ensures Sleeps(Pause(attempts)) == if attempts == [] then [] else [Delay(attempts)]
  {
    if attempts != [] {
      SleepsSnoc([], Slept(Delay(attempts)), Pause(attempts));
    }
  }

  lemma PausedSleeps(attempts: seq<Attempt>, paused: seq<Event>)
    requires attempts != [] && paused == Log(attempts) + Pause(attempts)
    ensures Sleeps(paused) == Sleeps(Log(attempts)) + [Delay(attempts)]
  {
    SleepsConcat(Log(attempts), Pause(attempts), paused);
    PauseSleeps(attempts);
  }

  lemma TurnSleeps(attempts: seq<Attempt>, front: seq<Attempt>, paused: seq<Event>)
    requires attempts != [] && front == attempts[..|attempts| - 1] && paused == Log(front) + Pause(front)
    ensures Sleeps(Log(attempts)) == Sleeps(paused)
  {
    var turn := Turn(|front|, NoneConnected(front), attempts[|front|]);
    TurnSleepless(|front|, NoneConnected(front), attempts[|front|], turn);
    SleepsConcat(paused, turn, Log(attempts));
  }

  lemma TurnSleepless(connection: nat, first: bool, a: Attempt, turn: seq<Event>)
    requires turn == Turn(connection, first, a)
    ensures Sleeps(turn) == []
  {
    NoSleeps(turn);
  }

  lemma {:induction false} LogSleeps(attempts: seq<Attempt>)
    requires attempts != []
    ensures Sleeps(Log(attempts)) == Delays(attempts[..|attempts| - 1])
  {
    var front := attempts[..|attempts| - 1];
    var paused := Log(front) + Pause(front);
    TurnSleeps(attempts, front, paused);
    if front != [] {
      LogSleeps(front);
      PausedSleeps(front, paused);
    }
  }

  /** The loop sleeps exactly once between two attempts, for the delay due then,
      and once more if the abort comes asleep. */
  lemma SleepsBetween(attempts: seq<Attempt>, abortedAsleep: bool)
    requires attempts != []
    ensures Sleeps(Trace(attempts, abortedAsleep)) ==
            Delays(if abortedAsleep then attempts else attempts[..|attempts| - 1])
  {
    LogSleeps(attempts);
    if abortedAsleep {
      PausedSleeps(attempts, Trace(attempts, true));
    } else {
      assert Trace(attempts, false) == Log(attempts);
    }
  }
}

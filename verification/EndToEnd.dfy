/** From the chain to the answer: the interleaved writers of the mirror, observing
    the chain, side by side with concurrent resolves of one tag. */
module EndToEnd {
  import opened Prelude
  import opened Text
  import opened TagRules
  import opened TagAccounts
  import opened Mirror
  import opened Replication
  import I = Interleaving
  import R = Resolve
  import T = TagsService

  /** One tag of one deployment, and the chain's history behind it. */
  datatype Setting = Setting(env: Env, s: T.Settings, h: History, tag: string)

  /** `writes` holds the mirror's side after each write that changed the tag's row. */
  datatype World = World(mirror: I.World, api: R.World, writes: seq<I.World>)

  const START := World(I.START, R.START, [I.START])

  datatype Step = Database(statement: I.Step) | Api(step: R.Step)

  /** A statement that changes the tag's row is a write for the resolves. */
  function Mirrored(x: Setting, w: World, mirror: I.World): World {
    if Lookup(mirror.db.rows, x.tag) == Lookup(w.mirror.db.rows, x.tag) then w.(mirror := mirror)
    else World(mirror, R.AfterWrite(w.api, T.ViewOf(x.s, mirror.db.rows, x.tag)), w.writes + [mirror])
  }

  function After(x: Setting, w: World, step: Step): World {
    match step
    case Database(statement) => Mirrored(x, w, I.After(x.s.bad, w.mirror, statement))
    case Api(s) => if s.Write? then w else w.(api := R.After(x.s.cfg, w.api, s))
  }

  function Run(x: Setting, run: seq<Step>): World {
    if run == [] then START else After(x, Run(x, run[..|run| - 1]), run[|run| - 1])
  }

  /** At this slot the chain held the tag, with this wallet. */
  predicate ShownAt(x: Setting, slot: nat, wallet: string) {
    slot < |x.h| && CanonicalTag(x.tag) && IsAscii(x.tag) &&
    Holds(x.env.pda, x.h[slot], Home(x.env.pda, x.tag), x.tag) &&
    wallet == x.s.base58(x.h[slot][Home(x.env.pda, x.tag)].wallet)
  }

  ghost predicate OnChain(x: Setting, wallet: string) { exists slot: nat :: ShownAt(x, slot, wallet) }

  /** The indexer and the cold path observe what the chain holds. */
  ghost predicate Observes(x: Setting, step: Step) {
    match step
    case Database(Observe(_, c, _)) => exists o :: Truthful(x.h, o) && x.env.Verify(o) == Some(c)
    case Api(ConsultChain(_, wallet)) => wallet.Some? ==> OnChain(x, wallet.value)
    case _ => true
  }

  ghost predicate AllObserve(x: Setting, run: seq<Step>) { forall i :: 0 <= i < |run| ==> Observes(x, run[i]) }

  /** The resolves keep to their time limits at every step. */
  ghost predicate AllInTime(x: Setting, run: seq<Step>) {
    run == [] ||
    (AllInTime(x, run[..|run| - 1]) &&
     (run[|run| - 1].Api? ==> R.InTime(x.s.cfg)(Run(x, run[..|run| - 1]).api, run[|run| - 1].step)))
  }

  ghost predicate Valid(x: Setting) { LowersAscii(x.env.lower) && ValidHistory(x.env.pda, x.h) }

  // ---------------------------------------------------------------------
  // The two machines in step
  // ---------------------------------------------------------------------

  /** Each view is the tag's row in its table, and the last one is current. */
  ghost predicate InStep(x: Setting, w: World) {
    |w.writes| == |w.api.views| == |w.api.writtenAt| &&
    (forall n :: 0 <= n < |w.writes| ==> w.api.views[n] == T.ViewOf(x.s, w.writes[n].db.rows, x.tag)) &&
    Lookup(w.writes[|w.writes| - 1].db.rows, x.tag) == Lookup(w.mirror.db.rows, x.tag)
  }

  /** Every row there was is the chain's account at the row's slot. */
  ghost predicate WritesTrue(x: Setting, w: World) {
    forall n :: 0 <= n < |w.writes| && x.tag in w.writes[n].db.rows ==>
      Replication.Shows(x.env.pda, x.h, x.tag, w.writes[n].db.rows[x.tag])
  }

  /** Rows stay, and their slots never decrease. */
  ghost predicate WritesGrow(x: Setting, w: World) {
    forall m, n :: 0 <= m <= n < |w.writes| && x.tag in w.writes[m].db.rows ==>
      x.tag in w.writes[n].db.rows && w.writes[m].db.rows[x.tag].slot <= w.writes[n].db.rows[x.tag].slot
  }

  ghost predicate MirrorInv(x: Setting, w: World) {
    I.Inv(I.ShowsChange(x.env.pda, x.h), x.s.bad, w.mirror) && InStep(x, w) && WritesTrue(x, w) && WritesGrow(x, w)
  }

  ghost predicate ApiInv(x: Setting, w: R.World) {
    R.FlightInv(w) && R.TruthInv(w) &&
    R.WalletsOk(wallet => OnChain(x, wallet), w)
  }

  lemma ObservedShows(x: Setting, step: Step)
    requires Valid(x) && Observes(x, step) && step.Database? && step.statement.Observe?
    ensures I.ShowsChange(x.env.pda, x.h)(step.statement.c)
  {
    var o :| Truthful(x.h, o) && x.env.Verify(o) == Some(step.statement.c);
    TruthfulVerifies(x.env, x.h, o);
  }

  lemma SameRowSameView(x: Setting, a: Table, b: Table)
    requires Lookup(a, x.tag) == Lookup(b, x.tag)
    ensures T.ViewOf(x.s, a, x.tag) == T.ViewOf(x.s, b, x.tag)
    ensures x.tag in a <==> x.tag in b
    ensures x.tag in a ==> a[x.tag] == b[x.tag]
  {
  }

  /** A statement that changes the row makes a write that the machine admits. */
  lemma RowWritten(x: Setting, w: World, statement: I.Step)
    requires InStep(x, w)
    requires Lookup(I.After(x.s.bad, w.mirror, statement).db.rows, x.tag) != Lookup(w.mirror.db.rows, x.tag)
    ensures var rows := I.After(x.s.bad, w.mirror, statement).db.rows; var view := T.ViewOf(x.s, rows, x.tag);
            x.tag in rows && R.MayBecome(R.Current(w.api), view) &&
            (x.tag in w.mirror.db.rows ==> w.mirror.db.rows[x.tag].slot <= rows[x.tag].slot)
  {
    I.AfterGrows(x.s.bad, w.mirror, statement);
    SameRowSameView(x, w.writes[|w.writes| - 1].db.rows, w.mirror.db.rows);
  }

  lemma MirrorGrows(x: Setting, w: World, statement: I.Step)
    requires Valid(x) && MirrorInv(x, w) && Observes(x, Database(statement))
    ensures I.Inv(I.ShowsChange(x.env.pda, x.h), x.s.bad, I.After(x.s.bad, w.mirror, statement))
  {
    if statement.Observe? {
      ObservedShows(x, Database(statement));
    }
    I.AfterInv(I.ShowsChange(x.env.pda, x.h), x.s.bad, w.mirror, statement);
  }

  lemma RowShows(x: Setting, mirror: I.World)
    requires I.Inv(I.ShowsChange(x.env.pda, x.h), x.s.bad, mirror) && x.tag in mirror.db.rows
    ensures Replication.Shows(x.env.pda, x.h, x.tag, mirror.db.rows[x.tag])
  {
  }

  lemma DatabaseKept(x: Setting, w: World, statement: I.Step)
    requires Valid(x) && MirrorInv(x, w) && Observes(x, Database(statement))
    ensures MirrorInv(x, After(x, w, Database(statement)))
  {
    var mirror := I.After(x.s.bad, w.mirror, statement);
    MirrorGrows(x, w, statement);
    if Lookup(mirror.db.rows, x.tag) == Lookup(w.mirror.db.rows, x.tag) {
      RowKept(x, w, mirror);
    } else {
      RowWritten(x, w, statement);
      RowShows(x, mirror);
      WriteAdded(x, w, mirror);
    }
  }

  lemma RowKept(x: Setting, w: World, mirror: I.World)
    requires MirrorInv(x, w) && I.Inv(I.ShowsChange(x.env.pda, x.h), x.s.bad, mirror)
    requires Lookup(mirror.db.rows, x.tag) == Lookup(w.mirror.db.rows, x.tag)
    ensures MirrorInv(x, Mirrored(x, w, mirror))
  {
  }

  lemma WriteAdded(x: Setting, w: World, mirror: I.World)
    requires MirrorInv(x, w) && I.Inv(I.ShowsChange(x.env.pda, x.h), x.s.bad, mirror)
    requires var rows := mirror.db.rows;
             x.tag in rows && Replication.Shows(x.env.pda, x.h, x.tag, rows[x.tag]) &&
             R.MayBecome(R.Current(w.api), T.ViewOf(x.s, rows, x.tag)) &&
             (x.tag in w.mirror.db.rows ==> w.mirror.db.rows[x.tag].slot <= rows[x.tag].slot)
    requires Lookup(mirror.db.rows, x.tag) != Lookup(w.mirror.db.rows, x.tag)
    ensures MirrorInv(x, Mirrored(x, w, mirror))
  {
    var last := w.writes[|w.writes| - 1].db.rows;
    SameRowSameView(x, last, w.mirror.db.rows);
    var v := Mirrored(x, w, mirror);
    forall m, n | 0 <= m <= n < |v.writes| && x.tag in v.writes[m].db.rows
      ensures x.tag in v.writes[n].db.rows && v.writes[m].db.rows[x.tag].slot <= v.writes[n].db.rows[x.tag].slot
    {
      if m < |w.writes| <= n {
        assert x.tag in w.writes[m].db.rows;
        assert x.tag in last && w.writes[m].db.rows[x.tag].slot <= last[x.tag].slot;
      }
    }
  }

  /** What holds of the resolves after their own steps and after writes. */
  lemma ApiKept(x: Setting, w: R.World, s: R.Step)
    requires ApiInv(x, w) && Observes(x, Api(s))
    ensures ApiInv(x, R.After(x.s.cfg, w, s))
  {
    R.FlightKept(x.s.cfg, w, s);
    R.TruthKept(x.s.cfg, w, s);
    R.WalletsKept(x.s.cfg, wallet => OnChain(x, wallet), w, s);
  }

  lemma StepKept(x: Setting, w: World, step: Step)
    requires Valid(x) && MirrorInv(x, w) && ApiInv(x, w.api) && Observes(x, step)
    ensures MirrorInv(x, After(x, w, step)) && ApiInv(x, After(x, w, step).api)
  {
    match step
    case Database(statement) =>
      DatabaseKept(x, w, statement);
      WriteKept(x, w, I.After(x.s.bad, w.mirror, statement));
    case Api(s) =>
      if !s.Write? {
        ApiOwnKept(x, w, s);
      }
  }

  lemma ApiOwnKept(x: Setting, w: World, s: R.Step)
    requires MirrorInv(x, w) && ApiInv(x, w.api) && Observes(x, Api(s)) && !s.Write?
    ensures MirrorInv(x, After(x, w, Api(s))) && ApiInv(x, After(x, w, Api(s)).api)
  {
    ApiKept(x, w.api, s);
    ApiMirrorKept(x, w, R.After(x.s.cfg, w.api, s), s);
  }

  lemma ApiMirrorKept(x: Setting, w: World, api: R.World, s: R.Step)
    requires MirrorInv(x, w) && !s.Write? && api == R.After(x.s.cfg, w.api, s)
    ensures MirrorInv(x, w.(api := api))
  {
    OwnStepsWriteNothing(x.s.cfg, w.api, s);
    SameHistory(x, w, w.(api := api));
  }

  lemma SameHistory(x: Setting, w: World, v: World)
    requires MirrorInv(x, w) && v.mirror == w.mirror && v.writes == w.writes
    requires v.api.views == w.api.views && v.api.writtenAt == w.api.writtenAt
    ensures MirrorInv(x, v)
  {
  }

  lemma OwnStepsWriteNothing(cfg: R.Config, w: R.World, s: R.Step)
    requires !s.Write?
    ensures R.After(cfg, w, s).views == w.views && R.After(cfg, w, s).writtenAt == w.writtenAt
  {
  }

  lemma WriteKept(x: Setting, w: World, mirror: I.World)
    requires ApiInv(x, w.api)
    ensures ApiInv(x, Mirrored(x, w, mirror).api)
  {
    ApiKept(x, w.api, R.Write(T.ViewOf(x.s, mirror.db.rows, x.tag)));
  }

  lemma {:induction false} RunKept(x: Setting, run: seq<Step>)
    requires Valid(x) && AllObserve(x, run)
    ensures MirrorInv(x, Run(x, run)) && ApiInv(x, Run(x, run).api)
  {
    if run != [] {
      RunKept(x, run[..|run| - 1]);
      StepKept(x, Run(x, run[..|run| - 1]), run[|run| - 1]);
    }
  }

  lemma {:induction false} RunTimely(x: Setting, run: seq<Step>)
    requires Valid(x) && AllObserve(x, run) && AllInTime(x, run)
    ensures R.TimeInv(x.s.cfg, Run(x, run).api)
  {
    if run != [] {
      var front, step := Run(x, run[..|run| - 1]), run[|run| - 1];
      RunTimely(x, run[..|run| - 1]);
      RunKept(x, run[..|run| - 1]);
      match step
      case Database(statement) =>
        var view := T.ViewOf(x.s, I.After(x.s.bad, front.mirror, statement).db.rows, x.tag);
        R.TimeKept(x.s.cfg, front.api, R.Write(view));
      case Api(s) => R.TimeKept(x.s.cfg, front.api, s);
    }
  }

  // ---------------------------------------------------------------------
  // Answers
  // ---------------------------------------------------------------------

  /** A row's answer carries the wallet that the chain held at the row's slot. */
  lemma ReadingShown(x: Setting, w: World, r: R.Reading)
    requires MirrorInv(x, w) && R.True(w.api, r) && r.answer.Found? && !r.fromChain
    ensures r.version < |w.writes| && x.tag in w.writes[r.version].db.rows
    ensures ShownAt(x, w.writes[r.version].db.rows[x.tag].slot, r.answer.payload.wallet)
  {
    assert w.api.views[r.version] == T.ViewOf(x.s, w.writes[r.version].db.rows, x.tag);
  }

  /** However DELs fail, lookups race and workers crash: no call is ever answered
      with a wallet that the chain did not hold for the tag at some slot. */
  lemma AnswersWereOnChain(x: Setting, run: seq<Step>, c: nat)
    requires Valid(x) && AllObserve(x, run)
    requires var w := Run(x, run).api;
             c in w.calls && w.calls[c].Answered? && w.calls[c].outcome.Some? && w.calls[c].outcome.value.answer.Found?
    ensures OnChain(x, Run(x, run).api.calls[c].outcome.value.answer.payload.wallet)
  {
    RunKept(x, run);
    var w := Run(x, run);
    var r := w.api.calls[c].outcome.value;
    if r.fromChain {
      assert R.WalletOk(wallet => OnChain(x, wallet), w.api.calls[c].outcome);
    } else {
      ReadingShown(x, w, r);
    }
  }

  /** When the resolves keep to their time limits, a mirrored answer is no older
      than the mirror was that long before: it carries the chain's wallet at a
      slot no lower than the slot of any row written by then. */
  lemma AnswersKeepUp(x: Setting, run: seq<Step>, c: nat, k: nat)
    requires Valid(x) && AllObserve(x, run) && AllInTime(x, run)
    requires var w := Run(x, run).api;
             c in w.calls && w.calls[c].Answered? && w.calls[c].outcome.Some? &&
             w.calls[c].outcome.value.answer.Found? && !w.calls[c].outcome.value.fromChain
    requires var w := Run(x, run); var call := w.api.calls[c];
             k < |w.writes| == |w.api.writtenAt| && x.tag in w.writes[k].db.rows &&
             w.api.writtenAt[k] + x.s.cfg.bound +
               (if call.via.None? then x.s.cfg.Ttl(call.outcome.value) else x.s.cfg.settling) < call.at
    ensures var w := Run(x, run);
            exists slot: nat ::
              w.writes[k].db.rows[x.tag].slot <= slot &&
              ShownAt(x, slot, w.api.calls[c].outcome.value.answer.payload.wallet)
  {
    RunKept(x, run);
    RunTimely(x, run);
    var w := Run(x, run);
    var r := w.api.calls[c].outcome.value;
    ReadingShown(x, w, r);
    assert k <= r.version;
    assert w.writes[k].db.rows[x.tag].slot <= w.writes[r.version].db.rows[x.tag].slot;
  }

  // ---------------------------------------------------------------------
  // Profiles in the answers
  // ---------------------------------------------------------------------

  /** At every write, profiles are what the edits carried out by then say. */
  ghost predicate EditsFolded(w: World) {
    I.ProfilesFolded(w.mirror) &&
    forall n :: 0 <= n < |w.writes| ==> I.ProfilesFolded(w.writes[n]) && w.writes[n].edits <= w.mirror.edits
  }

  lemma EditsFoldedKept(x: Setting, w: World, step: Step)
    requires EditsFolded(w)
    ensures EditsFolded(After(x, w, step))
  {
    if step.Database? {
      I.AfterFolded(x.s.bad, w.mirror, step.statement);
      EditsGrow(x.s.bad, w.mirror, step.statement);
    }
  }

  lemma EditsGrow(bad: string -> bool, w: I.World, s: I.Step)
    ensures w.edits <= I.After(bad, w, s).edits
  {
  }

  lemma {:induction false} RunFolded(x: Setting, run: seq<Step>)
    ensures EditsFolded(Run(x, run))
  {
    if run != [] {
      RunFolded(x, run[..|run| - 1]);
      EditsFoldedKept(x, Run(x, run[..|run| - 1]), run[|run| - 1]);
    }
  }

  /** A mirrored answer shows each profile field as the edits carried out by the
      write it rests on left it. */
  lemma AnswersShowEdits(x: Setting, run: seq<Step>, c: nat)
    requires Valid(x) && AllObserve(x, run)
    requires var w := Run(x, run).api;
             c in w.calls && w.calls[c].Answered? && w.calls[c].outcome.Some? &&
             w.calls[c].outcome.value.answer.Found? && !w.calls[c].outcome.value.fromChain
    ensures var w := Run(x, run); var r := w.api.calls[c].outcome.value; var p := r.answer.payload;
            r.version < |w.writes| && w.writes[r.version].edits <= w.mirror.edits &&
            var profile := I.Folded(w.writes[r.version].edits, x.tag);
            p.displayName == profile.displayName && p.avatar == profile.avatar &&
            p.preferredToken == profile.preferredToken
  {
    RunKept(x, run);
    RunFolded(x, run);
    var w := Run(x, run);
    ReadingShown(x, w, w.api.calls[c].outcome.value);
  }
}

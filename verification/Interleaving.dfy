/** The mirror's writers interleaved between their database statements: live and
    sweeping indexer runs (apps/indexer/src/apply-change.ts, cursor.ts), the
    moderation backfill (backfill-moderation.ts), profile edits through the API
    (apps/api/src/tags/tags.service.ts) and manual blocking. */
module Interleaving {
  import opened Prelude
  import opened Text
  import opened TagRules
  import opened TagAccounts
  import opened Mirror
  import opened Replication

  /** One indexer run, by the statement it executes next. */
  datatype Pc =
    | Updating(c: Change, blocked: bool)
    | Probing(c: Change, blocked: bool)
    | Creating(c: Change, blocked: bool)
    | Returned(c: Change, outcome: Outcome)
    | CursorProbing(c: Change)
    | CursorCreating(c: Change)
    | Done

  /** Fields of a profile edit: absent, or present with a value or null. */
  datatype Edit = Edit(displayName: Option<Option<string>>, avatar: Option<Option<string>>,
                       bio: Option<Option<string>>, preferredToken: Option<Option<string>>)

  function Chosen(provided: Option<Option<string>>, current: Option<string>): Option<string> {
    if provided.Some? then provided.value else current
  }

  function Edited(p: Profile, e: Edit): Profile {
    Profile(Chosen(e.displayName, p.displayName), Chosen(e.avatar, p.avatar),
            Chosen(e.bio, p.bio), Chosen(e.preferredToken, p.preferredToken))
  }

  datatype TaggedEdit = TaggedEdit(tag: string, caller: Address, edit: Edit)

  /** `edits` lists the profile edits carried out so far. */
  datatype World = World(db: Db, indexers: map<nat, Pc>, backfills: map<nat, seq<string>>,
                         editors: map<nat, TaggedEdit>, edits: seq<TaggedEdit>)

  const START := World(EMPTY_DB, map[], map[], map[], [])

  datatype Step =
    | Observe(id: nat, c: Change, blocked: bool)
    | Advance(id: nat)
    | Crash(id: nat)
    | BackfillRead(id: nat, tags: seq<string>)
    | BackfillFlip(id: nat)
    | EditRead(id: nat, tag: string, caller: Address, edit: Edit)
    | EditWrite(id: nat)
    | ManualBlock(tag: string)

  predicate IsIndexerStep(s: Step) { s.Observe? || s.Advance? || s.Crash? }

  function WrittenAs(row: Row, c: Change, blocked: bool): Row {
    Row(c.owner, c.wallet, c.bump, c.slot, blocked || row.blocked, row.profile)
  }

  /** The next statement of one indexer run. */
  function ExecuteStatement(db: Db, pc: Pc): (Db, Pc) {
    match pc
    case Updating(c, blocked) =>
      if c.tag in db.rows && db.rows[c.tag].slot <= c.slot
      then (db.(rows := db.rows[c.tag := WrittenAs(db.rows[c.tag], c, blocked)]), Returned(c, Updated))
      else (db, Probing(c, blocked))
    case Probing(c, blocked) =>
      (db, if c.tag in db.rows then Returned(c, SkippedStale) else Creating(c, blocked))
    case Creating(c, blocked) =>
      if c.tag in db.rows then (db, Done)  // the unique constraint fails and the run throws
      else (db.(rows := db.rows[c.tag := Row(c.owner, c.wallet, c.bump, c.slot, blocked, NO_PROFILE)]),
            Returned(c, Created))
    case Returned(c, outcome) =>
      if outcome.SkippedStale? then (db, Done)
      else if db.cursor.Some? && db.cursor.value < c.slot then (db.(cursor := Some(c.slot)), Done)
      else (db, CursorProbing(c))
    case CursorProbing(c) =>
      (db, if db.cursor.Some? then Done else CursorCreating(c))
    case CursorCreating(c) =>
      if db.cursor.Some? then (db, Done) else (db.(cursor := Some(c.slot)), Done)
    case Done => (db, Done)
  }

  /** The profanity check on the free text of an edit. */
  predicate TextAllowed(bad: string -> bool, text: Option<Option<string>>) {
    text.Some? && text.value.Some? ==> !bad(text.value.value)
  }

  predicate MayEdit(bad: string -> bool, rows: Table, tag: string, caller: Address, edit: Edit) {
    tag in rows && !rows[tag].blocked && rows[tag].owner == caller &&
    TextAllowed(bad, edit.displayName) && TextAllowed(bad, edit.bio)
  }

  function Blocked(rows: Table, tag: string): Table {
    if tag in rows then rows[tag := rows[tag].(blocked := true)] else rows
  }

  function WithProfile(rows: Table, tag: string, edit: Edit): Table
    requires tag in rows
  {
    rows[tag := rows[tag].(profile := Edited(rows[tag].profile, edit))]
  }

  /** One statement of one writer. A step that does not apply changes nothing. */
  function After(bad: string -> bool, w: World, s: Step): World {
    match s
    case Observe(id, c, blocked) =>
      if id in w.indexers then w else w.(indexers := w.indexers[id := Updating(c, blocked)])
    case Advance(id) =>
      if id !in w.indexers then w
      else
        var (db, pc) := ExecuteStatement(w.db, w.indexers[id]);
        w.(db := db, indexers := w.indexers[id := pc])
    case Crash(id) => w.(indexers := w.indexers - {id})
    case BackfillRead(id, tags) =>
      if exists t :: t in tags && t !in Active(w.db.rows) then w else w.(backfills := w.backfills[id := tags])
    case BackfillFlip(id) =>
      if id !in w.backfills || w.backfills[id] == [] then w
      else w.(db := w.db.(rows := Blocked(w.db.rows, w.backfills[id][0])),
              backfills := w.backfills[id := w.backfills[id][1..]])
    case EditRead(id, tag, caller, edit) =>
      if !MayEdit(bad, w.db.rows, tag, caller, edit) then w
      else w.(editors := w.editors[id := TaggedEdit(tag, caller, edit)])
    case EditWrite(id) =>
      if id !in w.editors || w.editors[id].tag !in w.db.rows then w
      else w.(db := w.db.(rows := WithProfile(w.db.rows, w.editors[id].tag, w.editors[id].edit)),
              editors := w.editors - {id}, edits := w.edits + [w.editors[id]])
    case ManualBlock(tag) => w.(db := w.db.(rows := Blocked(w.db.rows, tag)))
  }

  function Run(bad: string -> bool, w: World, run: seq<Step>): World {
    if run == [] then w else After(bad, Run(bad, w, run[..|run| - 1]), run[|run| - 1])
  }

  // ---------------------------------------------------------------------
  // Safety of every interleaving
  // ---------------------------------------------------------------------

  function RowChange(tag: string, row: Row): Change { Change(tag, row.owner, row.wallet, row.bump, row.slot) }

  /** Runs under way carry true changes; those that have written left a row at
      least as recent as their change. */
  predicate PcInv(truth: Change -> bool, rows: Table, pc: Pc) {
    (!pc.Done? ==> truth(pc.c)) &&
    (pc.CursorProbing? || pc.CursorCreating? || (pc.Returned? && !pc.outcome.SkippedStale?) ==>
      pc.c.tag in rows && pc.c.slot <= rows[pc.c.tag].slot)
  }

  /** No displayed text fails the profanity check. */
  predicate TextClean(bad: string -> bool, p: Profile) {
    (p.displayName.Some? ==> !bad(p.displayName.value)) && (p.bio.Some? ==> !bad(p.bio.value))
  }

  ghost predicate RowsInv(truth: Change -> bool, bad: string -> bool, rows: Table) {
    forall tag :: tag in rows ==> truth(RowChange(tag, rows[tag])) && TextClean(bad, rows[tag].profile)
  }

  ghost predicate RunsInv(truth: Change -> bool, w: World) {
    forall id :: id in w.indexers ==> PcInv(truth, w.db.rows, w.indexers[id])
  }

  ghost predicate EditorsInv(bad: string -> bool, w: World) {
    forall id :: id in w.editors ==>
      w.editors[id].tag in w.db.rows &&
      TextAllowed(bad, w.editors[id].edit.displayName) && TextAllowed(bad, w.editors[id].edit.bio)
  }

  /** The cursor never passes the newest row. */
  ghost predicate CursorInv(db: Db) {
    db.cursor.Some? ==> exists tag :: tag in db.rows && db.cursor.value <= db.rows[tag].slot
  }

  ghost predicate Inv(truth: Change -> bool, bad: string -> bool, w: World) {
    RowsInv(truth, bad, w.db.rows) && RunsInv(truth, w) && EditorsInv(bad, w) && CursorInv(w.db)
  }

  /** What no statement of any writer undoes. */
  ghost predicate Grows(a: Db, b: Db) {
    (forall tag :: tag in a.rows ==> tag in b.rows && a.rows[tag].slot <= b.rows[tag].slot &&
                                     (a.rows[tag].blocked ==> b.rows[tag].blocked)) &&
    (a.cursor.Some? ==> b.cursor.Some? && a.cursor.value <= b.cursor.value)
  }

  lemma AfterGrows(bad: string -> bool, w: World, s: Step)
    ensures Grows(w.db, After(bad, w, s).db)
  {
  }

  lemma ExecuteKept(truth: Change -> bool, bad: string -> bool, db: Db, pc: Pc)
    requires RowsInv(truth, bad, db.rows) && PcInv(truth, db.rows, pc) && CursorInv(db)
    ensures var (db', pc') := ExecuteStatement(db, pc);
            RowsInv(truth, bad, db'.rows) && PcInv(truth, db'.rows, pc') && CursorInv(db')
  {
    var (db', pc') := ExecuteStatement(db, pc);
    ExecuteRows(truth, bad, db, pc);
    CursorKept(db, db', if pc.Done? then "" else pc.c.tag);
  }

  lemma ExecuteRows(truth: Change -> bool, bad: string -> bool, db: Db, pc: Pc)
    requires RowsInv(truth, bad, db.rows) && PcInv(truth, db.rows, pc)
    ensures RowsInv(truth, bad, ExecuteStatement(db, pc).0.rows) && Grows(db, ExecuteStatement(db, pc).0)
  {
  }

  lemma CursorKept(a: Db, b: Db, tag: string)
    requires CursorInv(a) && Grows(a, b)
    requires b.cursor == a.cursor || (tag in b.rows && b.cursor.Some? && b.cursor.value <= b.rows[tag].slot)
    ensures CursorInv(b)
  {
    if b.cursor == a.cursor && a.cursor.Some? {
      var t :| t in a.rows && a.cursor.value <= a.rows[t].slot;
      assert t in b.rows && b.cursor.value <= b.rows[t].slot;
    }
  }

  lemma OthersKept(truth: Change -> bool, bad: string -> bool, w: World, s: Step)
    requires Inv(truth, bad, w) && !s.Advance?
    ensures RowsInv(truth, bad, After(bad, w, s).db.rows) && CursorInv(After(bad, w, s).db)
  {
    OthersRows(truth, bad, w, s);
    AfterGrows(bad, w, s);
    CursorKept(w.db, After(bad, w, s).db, "");
  }

  lemma OthersRows(truth: Change -> bool, bad: string -> bool, w: World, s: Step)
    requires RowsInv(truth, bad, w.db.rows) && EditorsInv(bad, w) && !s.Advance?
    ensures RowsInv(truth, bad, After(bad, w, s).db.rows) && After(bad, w, s).db.cursor == w.db.cursor
  {
  }

  lemma RunsKept(truth: Change -> bool, bad: string -> bool, w: World, s: Step)
    requires Inv(truth, bad, w) && (s.Observe? ==> truth(s.c))
    ensures RunsInv(truth, After(bad, w, s))
  {
    var v := After(bad, w, s);
    AfterGrows(bad, w, s);
    if s.Advance? && s.id in w.indexers {
      ExecuteKept(truth, bad, w.db, w.indexers[s.id]);
    }
    forall id | id in v.indexers ensures PcInv(truth, v.db.rows, v.indexers[id]) {
    }
  }

  lemma EditorsKept(bad: string -> bool, w: World, s: Step)
    requires EditorsInv(bad, w)
    ensures EditorsInv(bad, After(bad, w, s))
  {
    AfterGrows(bad, w, s);
  }

  lemma AfterInv(truth: Change -> bool, bad: string -> bool, w: World, s: Step)
    requires Inv(truth, bad, w) && (s.Observe? ==> truth(s.c))
    ensures Inv(truth, bad, After(bad, w, s))
  {
    RunsKept(truth, bad, w, s);
    EditorsKept(bad, w, s);
    if !s.Advance? {
      OthersKept(truth, bad, w, s);
    } else if s.id in w.indexers {
      ExecuteKept(truth, bad, w.db, w.indexers[s.id]);
    }
  }

  /** Every change observed in the run is true. */
  ghost predicate AllTrue(truth: Change -> bool, run: seq<Step>) {
    forall i :: 0 <= i < |run| && run[i].Observe? ==> truth(run[i].c)
  }

  lemma {:induction false} RunInv(truth: Change -> bool, bad: string -> bool, w: World, run: seq<Step>)
    requires Inv(truth, bad, w) && AllTrue(truth, run)
    ensures Inv(truth, bad, Run(bad, w, run)) && Grows(w.db, Run(bad, w, run).db)
  {
    if run != [] {
      var mid := Run(bad, w, run[..|run| - 1]);
      RunInv(truth, bad, w, run[..|run| - 1]);
      AfterInv(truth, bad, mid, run[|run| - 1]);
      AfterGrows(bad, mid, run[|run| - 1]);
    }
  }

  /** However many runs are interleaved, with crashes anywhere: every row is a
      true state of its tag, and no profile text fails the check. */
  lemma InterleavedRowsTrue(truth: Change -> bool, bad: string -> bool, run: seq<Step>, tag: string)
    requires AllTrue(truth, run)
    requires tag in Run(bad, START, run).db.rows
    ensures var row := Run(bad, START, run).db.rows[tag];
            truth(RowChange(tag, row)) && TextClean(bad, row.profile)
  {
    RunInv(truth, bad, START, run);
  }

  /** With crashes between apply and advance and any interleaving of cursor
      statements, the cursor never passes the newest row. */
  lemma CursorNeverAhead(bad: string -> bool, run: seq<Step>)
    ensures CursorInv(Run(bad, START, run).db)
  {
    RunInv(_ => true, bad, START, run);
  }

  /** A run that has reported created or updated at its slot leaves the row at
      least that recent in every later world; nothing ever loses a row, a slot,
      a block or cursor progress. */
  lemma ReportedStaysApplied(bad: string -> bool, run: seq<Step>, later: seq<Step>, id: nat)
    requires var w := Run(bad, START, run);
             id in w.indexers && w.indexers[id].Returned? && !w.indexers[id].outcome.SkippedStale?
    ensures var w := Run(bad, START, run); var c, v := w.indexers[id].c, Run(bad, w, later);
            c.tag in v.db.rows && c.slot <= v.db.rows[c.tag].slot && Grows(w.db, v.db)
  {
    RunInv(_ => true, bad, START, run);
    RunInv(_ => true, bad, Run(bad, START, run), later);
  }

  // ---------------------------------------------------------------------
  // Who blocks a row
  // ---------------------------------------------------------------------

  /** The statement blocks the tag's row: by hand, by a backfill, or by an indexer
      run that writes the row of a tag that failed the gate. */
  predicate Blocks(w: World, s: Step, tag: string) {
    match s
    case ManualBlock(t) => t == tag && tag in w.db.rows
    case BackfillFlip(id) => id in w.backfills && w.backfills[id] != [] && w.backfills[id][0] == tag && tag in w.db.rows
    case Advance(id) =>
      id in w.indexers &&
      (match w.indexers[id]
       case Updating(c, blocked) => blocked && c.tag == tag && tag in w.db.rows && w.db.rows[tag].slot <= c.slot
       case Creating(c, blocked) => blocked && c.tag == tag && tag !in w.db.rows
       case _ => false)
    case _ => false
  }

  lemma BlockedNext(bad: string -> bool, w: World, s: Step, tag: string)
    ensures var rows := After(bad, w, s).db.rows;
            (tag in rows && rows[tag].blocked) <==> (tag in w.db.rows && w.db.rows[tag].blocked) || Blocks(w, s, tag)
  {
  }

  /** Statement `n` of the run blocks the tag's row. */
  ghost predicate BlocksAt(bad: string -> bool, run: seq<Step>, tag: string, n: nat) {
    n < |run| && Blocks(Run(bad, START, run[..n]), run[n], tag)
  }

  /** A row is blocked exactly when some statement has blocked it: nothing else
      touches the status, and nothing ever resets it. */
  lemma {:induction false} BlockedExactly(bad: string -> bool, run: seq<Step>, tag: string)
    ensures var rows := Run(bad, START, run).db.rows;
            (tag in rows && rows[tag].blocked) <==> exists n :: BlocksAt(bad, run, tag, n)
  {
    if run != [] {
      var front := run[..|run| - 1];
      BlockedExactly(bad, front, tag);
      BlockedNext(bad, Run(bad, START, front), run[|run| - 1], tag);
      BlocksEarlier(bad, run, front, tag);
    }
  }

  lemma BlocksEarlier(bad: string -> bool, run: seq<Step>, front: seq<Step>, tag: string)
    requires run != [] && front == run[..|run| - 1]
    ensures (exists n :: BlocksAt(bad, run, tag, n)) <==>
            (exists n :: BlocksAt(bad, front, tag, n)) || Blocks(Run(bad, START, front), run[|front|], tag)
  {
    forall n: nat | n < |front| ensures BlocksAt(bad, front, tag, n) <==> BlocksAt(bad, run, tag, n) {
      assert front[..n] == run[..n];
    }
    if Blocks(Run(bad, START, front), run[|front|], tag) {
      assert BlocksAt(bad, run, tag, |front|);
    }
  }

  function Flips(id: nat, n: nat): seq<Step> { if n == 0 then [] else Flips(id, n - 1) + [BackfillFlip(id)] }

  /** The first `n` of the tags that the backfill has read are blocked, nothing else is changed. */
  ghost predicate FlippedTo(w: World, v: World, id: nat, tags: seq<string>, n: nat)
    requires n <= |tags|
  {
    id in v.backfills && v.backfills[id] == tags[n..] && v.db.rows.Keys == w.db.rows.Keys &&
    forall t :: t in v.db.rows ==> v.db.rows[t] == w.db.rows[t].(blocked := w.db.rows[t].blocked || t in tags[..n])
  }

  lemma FlipNext(bad: string -> bool, w: World, u: World, id: nat, tags: seq<string>, n: nat)
    requires n < |tags| && FlippedTo(w, u, id, tags, n) && tags[n] in w.db.rows
    ensures FlippedTo(w, After(bad, u, BackfillFlip(id)), id, tags, n + 1)
  {
    assert tags[..n + 1] == tags[..n] + [tags[n]];
    assert tags[n..][1..] == tags[n + 1..];
  }

  lemma ReadNext(bad: string -> bool, w: World, id: nat, tags: seq<string>)
    requires forall t :: t in tags ==> t in w.db.rows && !w.db.rows[t].blocked
    ensures FlippedTo(w, After(bad, w, BackfillRead(id, tags)), id, tags, 0)
  {
  }

  /** A backfill by itself blocks the rows it has read and changes nothing else. */
  lemma {:induction false} BackfillAlone(bad: string -> bool, w: World, id: nat, tags: seq<string>, n: nat)
    requires n <= |tags| && forall t :: t in tags ==> t in w.db.rows && !w.db.rows[t].blocked
    ensures FlippedTo(w, Run(bad, After(bad, w, BackfillRead(id, tags)), Flips(id, n)), id, tags, n)
  {
    var start := After(bad, w, BackfillRead(id, tags));
    if n == 0 {
      ReadNext(bad, w, id, tags);
    } else {
      BackfillAlone(bad, w, id, tags, n - 1);
      RunSnoc(bad, start, Flips(id, n - 1), BackfillFlip(id));
      FlipNext(bad, w, Run(bad, start, Flips(id, n - 1)), id, tags, n - 1);
    }
  }

  /** A profile edit by itself: carried out exactly when the row is active, the
      caller its owner and neither text bad; a null is never bad. */
  lemma EditAlone(bad: string -> bool, w: World, id: nat, tag: string, caller: Address, edit: Edit)
    requires id !in w.editors
    ensures var v := After(bad, After(bad, w, EditRead(id, tag, caller, edit)), EditWrite(id));
            if tag in w.db.rows && !w.db.rows[tag].blocked && w.db.rows[tag].owner == caller &&
               !(edit.displayName.Some? && edit.displayName.value.Some? && bad(edit.displayName.value.value)) &&
               !(edit.bio.Some? && edit.bio.value.Some? && bad(edit.bio.value.value))
            then v.edits == w.edits + [TaggedEdit(tag, caller, edit)] &&
                 v.db.rows == w.db.rows[tag := w.db.rows[tag].(profile := Edited(w.db.rows[tag].profile, edit))]
            else v.edits == w.edits && v.db == w.db
  {
  }

  // ---------------------------------------------------------------------
  // The chain behind the interleaved runs
  // ---------------------------------------------------------------------

  /** The change is the chain's account at the change's slot. */
  function ShowsChange(pda: Pda, h: History): Change -> bool {
    (c: Change) => Shows(pda, h, c.tag, Row(c.owner, c.wallet, c.bump, c.slot, false, NO_PROFILE))
  }

  /** Every indexer run works on a truthful observation. */
  ghost predicate AllObserved(env: Env, h: History, run: seq<Step>) {
    forall i :: 0 <= i < |run| && run[i].Observe? ==> exists o :: Truthful(h, o) && env.Verify(o) == Some(run[i].c)
  }

  lemma ObservedTrue(env: Env, h: History, run: seq<Step>)
    requires LowersAscii(env.lower) && ValidHistory(env.pda, h) && AllObserved(env, h, run)
    ensures AllTrue(ShowsChange(env.pda, h), run)
  {
    forall i | 0 <= i < |run| && run[i].Observe? ensures ShowsChange(env.pda, h)(run[i].c) {
      var o :| Truthful(h, o) && env.Verify(o) == Some(run[i].c);
      TruthfulVerifies(env, h, o);
    }
  }

  /** Every row of every interleaving shows the chain's account at its slot. */
  lemma InterleavedMirrors(env: Env, bad: string -> bool, h: History, run: seq<Step>)
    requires LowersAscii(env.lower) && ValidHistory(env.pda, h) && AllObserved(env, h, run)
    ensures Mirrors(env.pda, h, Run(bad, START, run).db.rows)
  {
    ObservedTrue(env, h, run);
    var rows := Run(bad, START, run).db.rows;
    forall tag | tag in rows ensures Shows(env.pda, h, tag, rows[tag]) {
      InterleavedRowsTrue(ShowsChange(env.pda, h), bad, run, tag);
    }
  }

  // ---------------------------------------------------------------------
  // Whose edits are carried out
  // ---------------------------------------------------------------------

  /** Some true state of the tag has the caller as its owner. */
  ghost predicate Owned(truth: Change -> bool, e: TaggedEdit) {
    exists c :: truth(c) && c.tag == e.tag && c.owner == e.caller
  }

  ghost predicate EditsOwned(truth: Change -> bool, w: World) {
    (forall id :: id in w.editors ==> Owned(truth, w.editors[id])) && (forall e :: e in w.edits ==> Owned(truth, e))
  }

  lemma EditsOwnedKept(truth: Change -> bool, bad: string -> bool, w: World, s: Step)
    requires EditsOwned(truth, w) && RowsInv(truth, bad, w.db.rows)
    ensures EditsOwned(truth, After(bad, w, s))
  {
    if s.EditRead? && MayEdit(bad, w.db.rows, s.tag, s.caller, s.edit) {
      assert truth(RowChange(s.tag, w.db.rows[s.tag]));
      assert Owned(truth, TaggedEdit(s.tag, s.caller, s.edit));
    }
  }

  lemma {:induction false} RunEditsOwned(truth: Change -> bool, bad: string -> bool, run: seq<Step>)
    requires AllTrue(truth, run)
    ensures EditsOwned(truth, Run(bad, START, run))
  {
    if run != [] {
      RunEditsOwned(truth, bad, run[..|run| - 1]);
      RunInv(truth, bad, START, run[..|run| - 1]);
      EditsOwnedKept(truth, bad, Run(bad, START, run[..|run| - 1]), run[|run| - 1]);
    }
  }

  /** At this slot the chain held the tag, owned by this address. */
  predicate OwnedAt(pda: Pda, h: History, tag: string, owner: Address, slot: nat) {
    slot < |h| && CanonicalTag(tag) && IsAscii(tag) && Holds(pda, h[slot], Home(pda, tag), tag) &&
    h[slot][Home(pda, tag)].owner == owner
  }

  /** Every profile edit carried out was made by one who owned the tag on chain
      at some slot, though a transfer may have come between check and write. */
  lemma EditsByOwners(env: Env, bad: string -> bool, h: History, run: seq<Step>, e: TaggedEdit)
    requires LowersAscii(env.lower) && ValidHistory(env.pda, h) && AllObserved(env, h, run)
    requires e in Run(bad, START, run).edits
    ensures exists slot: nat :: OwnedAt(env.pda, h, e.tag, e.caller, slot)
  {
    var truth := ShowsChange(env.pda, h);
    ObservedTrue(env, h, run);
    RunEditsOwned(truth, bad, run);
    var c :| truth(c) && c.tag == e.tag && c.owner == e.caller;
    assert OwnedAt(env.pda, h, e.tag, e.caller, c.slot);
  }

  // ---------------------------------------------------------------------
  // One run without interference is the serial upsert
  // ---------------------------------------------------------------------

  function Remaining(pc: Pc): nat {
    match pc
    case Updating(_, _) => 6
    case Probing(_, _) => 5
    case Creating(_, _) => 4
    case Returned(_, _) => 3
    case CursorProbing(_) => 2
    case CursorCreating(_) => 1
    case Done => 0
  }

  /** All remaining statements of a run, uninterrupted. */
  function Finish(db: Db, pc: Pc): Db
    decreases Remaining(pc)
  {
    if pc.Done? then db
    else
      var (db', pc') := ExecuteStatement(db, pc);
      Finish(db', pc')
  }

  lemma FinishStep(db: Db, pc: Pc)
    requires !pc.Done?
    ensures Finish(db, pc) == Finish(ExecuteStatement(db, pc).0, ExecuteStatement(db, pc).1)
  {
  }

  lemma FinishReturned(db: Db, c: Change, outcome: Outcome)
    ensures Finish(db, Returned(c, outcome)) ==
            if outcome.SkippedStale? then db else db.(cursor := Advanced(db.cursor, c.slot))
  {
    var (d1, p1) := ExecuteStatement(db, Returned(c, outcome));
    FinishStep(db, Returned(c, outcome));
    if !p1.Done? {
      var (d2, p2) := ExecuteStatement(d1, p1);
      FinishStep(d1, p1);
      if !p2.Done? {
        FinishStep(d2, p2);
      }
    }
  }

  /** Executed without interference, a run's statements are the serial upsert
      followed by the serial cursor advance. */
  lemma RunAlone(gate: string -> bool, db: Db, c: Change)
    ensures Finish(db, Updating(c, gate(c.tag))) ==
            if Stale(db.rows, c) then db else Db(Applied(db.rows, c, gate), Advanced(db.cursor, c.slot))
  {
    var pc := Updating(c, gate(c.tag));
    var (d1, p1) := ExecuteStatement(db, pc);
    FinishStep(db, pc);
    if p1.Returned? {
      FinishReturned(d1, c, p1.outcome);
    } else {
      var (d2, p2) := ExecuteStatement(d1, p1);
      FinishStep(d1, p1);
      if p2.Returned? {
        FinishReturned(d2, c, p2.outcome);
      } else {
        FinishStep(d2, p2);
        FinishReturned(ExecuteStatement(d2, p2).0, c, Created);
      }
    }
  }

  // ---------------------------------------------------------------------
  // When a change is skipped
  // ---------------------------------------------------------------------

  /** A skip is justified whenever the tag had a row when the guarded update
      missed it, whatever ran in between. */
  lemma SkippedIsStale(bad: string -> bool, run: seq<Step>, mid: seq<Step>, id: nat, c: Change, blocked: bool)
    requires var w := Run(bad, START, run);
             id in w.indexers && w.indexers[id] == Updating(c, blocked) && c.tag in w.db.rows
    requires ExecuteStatement(Run(bad, START, run).db, Updating(c, blocked)).1 == Probing(c, blocked)
    ensures var w := Run(bad, START, run); var v := Run(bad, After(bad, w, Advance(id)), mid);
            Stale(w.db.rows, c) && Stale(v.db.rows, c) &&
            ExecuteStatement(v.db, Probing(c, blocked)) == (v.db, Returned(c, SkippedStale))
  {
    var w := Run(bad, START, run);
    RunInv(_ => true, bad, START, run);
    AfterInv(_ => true, bad, w, Advance(id));
    RunInv(_ => true, bad, After(bad, w, Advance(id)), mid);
  }

  /** Runs with given steps are written [] + [s] + [t], a step at a time: that is
      the shape in which this lemma takes them apart. */
  lemma RunSnoc(bad: string -> bool, w: World, run: seq<Step>, s: Step)
    ensures Run(bad, w, run + [s]) == After(bad, Run(bad, w, run), s)
  {
    assert (run + [s])[..|run|] == run;
  }

  /** Another run applies a change of its own from start to finish. */
  function Overtaking(k: nat, older: Change): seq<Step> {
    [] + [Observe(k, older, false)] + [Advance(k)] + [Advance(k)] + [Advance(k)]
  }

  lemma Overtakes(bad: string -> bool, w: World, id: nat, k: nat, older: Change)
    requires id in w.indexers && k !in w.indexers && older.tag !in w.db.rows
    ensures var v := Run(bad, w, Overtaking(k, older));
            id in v.indexers && v.indexers[id] == w.indexers[id] &&
            older.tag in v.db.rows && v.db.rows[older.tag].slot == older.slot
  {
    var r0: seq<Step> := [] + [Observe(k, older, false)];
    var r1 := r0 + [Advance(k)];
    RunSnoc(bad, w, [], Observe(k, older, false));
    RunSnoc(bad, w, r0, Advance(k));
    RunSnoc(bad, w, r1, Advance(k));
    RunSnoc(bad, w, r1 + [Advance(k)], Advance(k));
    assert Run(bad, w, r1).indexers[k] == Probing(older, false);
  }

  /** A newer change is reported stale when another run creates the row between
      its guarded update and its lookup. */
  lemma NewerChangeCanBeSkipped(bad: string -> bool, w: World, id: nat, k: nat, newer: Change, blocked: bool,
                                older: Change)
    requires id in w.indexers && w.indexers[id] == Updating(newer, blocked) && newer.tag !in w.db.rows
    requires k !in w.indexers && newer.tag == older.tag && older.slot < newer.slot
    ensures var v := Run(bad, After(bad, w, Advance(id)), Overtaking(k, older));
            id in v.indexers && v.indexers[id] == Probing(newer, blocked) &&
            newer.tag in v.db.rows && v.db.rows[newer.tag].slot < newer.slot &&
            After(bad, v, Advance(id)) == v.(indexers := v.indexers[id := Returned(newer, SkippedStale)])
  {
    Overtakes(bad, After(bad, w, Advance(id)), id, k, older);
  }

  /** A create that finds the tag taken fails: the run ends, nothing is written
      and no outcome is reported. */
  lemma CreateFailsExactly(bad: string -> bool, w: World, id: nat, c: Change, blocked: bool)
    requires id in w.indexers && w.indexers[id] == Creating(c, blocked)
    ensures After(bad, w, Advance(id)) == w.(indexers := w.indexers[id := Done]) <==> c.tag in w.db.rows
    ensures c.tag !in w.db.rows ==> After(bad, w, Advance(id)).indexers[id] == Returned(c, Created)
  {
  }

  /** So a newer change can be lost without a report, when another run creates
      the row between its lookup and its create. */
  lemma NewerChangeCanBeLost(bad: string -> bool, w: World, id: nat, k: nat, newer: Change, blocked: bool,
                             older: Change)
    requires id in w.indexers && w.indexers[id] == Probing(newer, blocked) && newer.tag !in w.db.rows
    requires k !in w.indexers && newer.tag == older.tag && older.slot < newer.slot
    ensures var v := After(bad, Run(bad, After(bad, w, Advance(id)), Overtaking(k, older)), Advance(id));
            id in v.indexers && v.indexers[id] == Done &&
            newer.tag in v.db.rows && v.db.rows[newer.tag].slot < newer.slot
  {
    Overtakes(bad, After(bad, w, Advance(id)), id, k, older);
  }

  /** An older true change of the same tag. */
  predicate Older(truth: Change -> bool, c: Change, d: Change) { truth(d) && d.tag == c.tag && d.slot < c.slot }

  /** Whatever true changes come in between, when this run looks the row up after
      its update has missed, the row it finds is at least as recent. */
  ghost predicate SkipsCovered(truth: Change -> bool, bad: string -> bool, w: World, id: nat, c: Change, blocked: bool)
  {
    forall mid :: AllTrue(truth, mid) ==>
      var v := Run(bad, After(bad, w, Advance(id)), mid);
      id in v.indexers && v.indexers[id] == Probing(c, blocked) && c.tag in v.db.rows ==>
        c.slot <= v.db.rows[c.tag].slot
  }

  lemma OnlyOlderSkip(truth: Change -> bool, bad: string -> bool, run: seq<Step>, mid: seq<Step>, id: nat,
                      c: Change, blocked: bool)
    requires AllTrue(truth, run) && AllTrue(truth, mid)
    requires var w := Run(bad, START, run); id in w.indexers && w.indexers[id] == Updating(c, blocked)
    requires forall d :: !Older(truth, c, d)
    ensures var v := Run(bad, After(bad, Run(bad, START, run), Advance(id)), mid);
            c.tag in v.db.rows ==> c.slot <= v.db.rows[c.tag].slot
  {
    var w := Run(bad, START, run);
    RunInv(truth, bad, START, run);
    AfterInv(truth, bad, w, Advance(id));
    RunInv(truth, bad, After(bad, w, Advance(id)), mid);
    var v := Run(bad, After(bad, w, Advance(id)), mid);
    if c.tag in v.db.rows {
      assert !Older(truth, c, RowChange(c.tag, v.db.rows[c.tag]));
    }
  }

  /** A run whose guarded update has missed reports stale only what is covered by
      the row, if and only if the tag had a row then or no older true change of
      the tag exists for another run to apply in between. */
  lemma SkipsExactly(truth: Change -> bool, bad: string -> bool, run: seq<Step>, id: nat, c: Change, blocked: bool)
    requires AllTrue(truth, run)
    requires var w := Run(bad, START, run); id in w.indexers && w.indexers[id] == Updating(c, blocked)
    requires ExecuteStatement(Run(bad, START, run).db, Updating(c, blocked)).1 == Probing(c, blocked)
    ensures var w := Run(bad, START, run);
            SkipsCovered(truth, bad, w, id, c, blocked) <==>
            c.tag in w.db.rows || forall d :: !Older(truth, c, d)
  {
    var w := Run(bad, START, run);
    if c.tag in w.db.rows {
      forall mid | AllTrue(truth, mid)
        ensures var v := Run(bad, After(bad, w, Advance(id)), mid);
                c.tag in v.db.rows ==> c.slot <= v.db.rows[c.tag].slot
      {
        SkippedIsStale(bad, run, mid, id, c, blocked);
      }
    } else if exists d :: Older(truth, c, d) {
      var d :| Older(truth, c, d);
      var k := Unused(w.indexers.Keys);
      NewerChangeCanBeSkipped(bad, w, id, k, c, blocked, d);
      assert AllTrue(truth, Overtaking(k, d));
    } else {
      forall mid | AllTrue(truth, mid)
        ensures var v := Run(bad, After(bad, w, Advance(id)), mid);
                c.tag in v.db.rows ==> c.slot <= v.db.rows[c.tag].slot
      {
        OnlyOlderSkip(truth, bad, run, mid, id, c, blocked);
      }
    }
  }

  /** The chain shows older states of a tag just when it held it one slot before. */
  lemma OlderOnChain(pda: Pda, h: History, c: Change)
    requires ValidHistory(pda, h) && ShowsChange(pda, h)(c)
    ensures (exists d :: Older(ShowsChange(pda, h), c, d)) <==>
            0 < c.slot && Holds(pda, h[c.slot - 1], Home(pda, c.tag), c.tag)
  {
    var home := Home(pda, c.tag);
    if d :| Older(ShowsChange(pda, h), c, d) {
      TagsStay(pda, h, d.slot, c.slot - 1, home, c.tag);
    }
    if 0 < c.slot && Holds(pda, h[c.slot - 1], home, c.tag) {
      var a := h[c.slot - 1][home];
      assert Older(ShowsChange(pda, h), c, Change(c.tag, a.owner, a.wallet, a.bump, c.slot - 1));
    }
  }

  /** When the observed changes are the chain's: a run whose update has missed
      reports stale only what is covered, if and only if the tag had a row then
      or was registered in the very slot of the change. */
  lemma SkipsExactlyOnChain(pda: Pda, h: History, bad: string -> bool, run: seq<Step>, id: nat,
                            c: Change, blocked: bool)
    requires ValidHistory(pda, h) && AllTrue(ShowsChange(pda, h), run)
    requires var w := Run(bad, START, run); id in w.indexers && w.indexers[id] == Updating(c, blocked)
    requires ExecuteStatement(Run(bad, START, run).db, Updating(c, blocked)).1 == Probing(c, blocked)
    ensures var w := Run(bad, START, run);
            c.slot < |h| && IsAscii(c.tag) &&
            (SkipsCovered(ShowsChange(pda, h), bad, w, id, c, blocked) <==>
             c.tag in w.db.rows || c.slot == 0 || !Holds(pda, h[c.slot - 1], Home(pda, c.tag), c.tag))
  {
    var truth := ShowsChange(pda, h);
    RunInv(truth, bad, START, run);
    assert PcInv(truth, Run(bad, START, run).db.rows, Updating(c, blocked));
    OlderOnChain(pda, h, c);
    SkipsExactly(truth, bad, run, id, c, blocked);
  }

  // ---------------------------------------------------------------------
  // Overlapped sweeps
  // ---------------------------------------------------------------------

  predicate Past(pc: Pc) { !pc.Updating? && !pc.Probing? && !pc.Creating? }

  /** How far the run with this change has got; `hadRow` says whether the tag had
      a row when it began. */
  predicate Stands(w: World, id: nat, c: Change, hadRow: bool) {
    id in w.indexers && (hadRow ==> c.tag in w.db.rows) &&
    var pc := w.indexers[id];
    if Past(pc) then c.tag in w.db.rows && (hadRow ==> c.slot <= w.db.rows[c.tag].slot)
    else pc.c == c && (pc.Probing? && hadRow ==> c.slot <= w.db.rows[c.tag].slot) && (pc.Creating? ==> !hadRow)
  }

  lemma StandsKept(bad: string -> bool, w: World, s: Step, id: nat, c: Change, hadRow: bool)
    requires Stands(w, id, c, hadRow) && s != Crash(id)
    ensures Stands(After(bad, w, s), id, c, hadRow)
  {
    AfterGrows(bad, w, s);
  }

  /** Step `n` begins an indexer run that never crashes. */
  ghost predicate Uncrashed(bad: string -> bool, run: seq<Step>, n: nat) {
    n < |run| && run[n].Observe? && run[n].id !in Run(bad, START, run[..n]).indexers &&
    (forall m :: n < m < |run| ==> run[m] != Crash(run[n].id))
  }

  /** At the end it is past its upsert. */
  ghost predicate Completed(bad: string -> bool, run: seq<Step>, n: nat) {
    Uncrashed(bad, run, n) &&
    run[n].id in Run(bad, START, run).indexers && Past(Run(bad, START, run).indexers[run[n].id])
  }

  predicate HadRow(bad: string -> bool, run: seq<Step>, n: nat)
    requires n < |run| && run[n].Observe?
  {
    run[n].c.tag in Run(bad, START, run[..n]).db.rows
  }

  lemma {:induction false} StandsAt(bad: string -> bool, run: seq<Step>, n: nat, m: nat)
    requires Uncrashed(bad, run, n) && n < m <= |run|
    ensures Stands(Run(bad, START, run[..m]), run[n].id, run[n].c, HadRow(bad, run, n))
  {
    if m == n + 1 {
      StandsFirst(bad, run, n);
    } else {
      StandsAt(bad, run, n, m - 1);
      StandsNext(bad, run, m - 1, run[n].id, run[n].c, HadRow(bad, run, n));
    }
  }

  lemma StandsFirst(bad: string -> bool, run: seq<Step>, n: nat)
    requires Uncrashed(bad, run, n)
    ensures Stands(Run(bad, START, run[..n + 1]), run[n].id, run[n].c, HadRow(bad, run, n))
  {
    RunNext(bad, run, n);
  }

  lemma StandsNext(bad: string -> bool, run: seq<Step>, m: nat, id: nat, c: Change, hadRow: bool)
    requires m < |run| && run[m] != Crash(id) && Stands(Run(bad, START, run[..m]), id, c, hadRow)
    ensures Stands(Run(bad, START, run[..m + 1]), id, c, hadRow)
  {
    RunNext(bad, run, m);
    StandsKept(bad, Run(bad, START, run[..m]), run[m], id, c, hadRow);
  }

  lemma RunNext(bad: string -> bool, run: seq<Step>, m: nat)
    requires m < |run|
    ensures Run(bad, START, run[..m + 1]) == After(bad, Run(bad, START, run[..m]), run[m])
  {
    assert run[..m + 1][..m] == run[..m];
  }

  /** Such a run leaves the row at least as recent as its change, whatever
      interleaves, if the tag had a row or no older true change exists. */
  lemma CompletedReaches(truth: Change -> bool, bad: string -> bool, run: seq<Step>, n: nat)
    requires AllTrue(truth, run) && Completed(bad, run, n)
    requires HadRow(bad, run, n) || forall d :: !Older(truth, run[n].c, d)
    ensures var rows := Run(bad, START, run).db.rows;
            run[n].c.tag in rows && run[n].c.slot <= rows[run[n].c.tag].slot
  {
    assert run[..|run|] == run;
    StandsAt(bad, run, n, |run|);
    RunInv(truth, bad, START, run);
    if !HadRow(bad, run, n) {
      var c, rows := run[n].c, Run(bad, START, run).db.rows;
      assert !Older(truth, c, RowChange(c.tag, rows[c.tag]));
    }
  }

  /** The observation went through a run of its own, for a tag that had a row or
      that the chain had not held one slot before. */
  ghost predicate SweptBy(env: Env, bad: string -> bool, h: History, run: seq<Step>, o: Observation, n: nat) {
    Completed(bad, run, n) && env.Verify(o) == Some(run[n].c) && o.slot < |h| && IsAscii(run[n].c.tag) &&
    (HadRow(bad, run, n) || o.slot == 0 || !Holds(env.pda, h[o.slot - 1], o.address, run[n].c.tag))
  }

  lemma SweptTag(env: Env, h: History, o: Observation, tag: string)
    requires LowersAscii(env.lower) && ValidHistory(env.pda, h) && Truthful(h, o)
    requires Holds(env.pda, h[o.slot], o.address, tag)
    ensures env.Verify(o).Some? && env.Verify(o).value.tag == tag && env.Verify(o).value.slot == o.slot
    ensures IsAscii(tag) && Home(env.pda, tag) == o.address
  {
    TruthfulVerifies(env, h, o);
    HeldTagUnique(env.pda, h[o.slot], o.address, tag, env.Verify(o).value.tag);
  }

  lemma SweptReaches(env: Env, bad: string -> bool, h: History, run: seq<Step>, o: Observation, n: nat, tag: string)
    requires LowersAscii(env.lower) && ValidHistory(env.pda, h) && AllObserved(env, h, run)
    requires Truthful(h, o) && SweptBy(env, bad, h, run, o, n) && Holds(env.pda, h[o.slot], o.address, tag)
    ensures var rows := Run(bad, START, run).db.rows; tag in rows && o.slot <= rows[tag].slot
  {
    SweptTag(env, h, o, tag);
    ObservedTrue(env, h, run);
    assert ShowsChange(env.pda, h)(run[n].c);
    OlderOnChain(env.pda, h, run[n].c);
    CompletedReaches(ShowsChange(env.pda, h), bad, run, n);
  }

  /** Every observation of the sweep went through such a run. */
  ghost predicate SweptWhole(env: Env, bad: string -> bool, h: History, run: seq<Step>, sweep: seq<Observation>) {
    forall o :: o in sweep ==> exists n :: SweptBy(env, bad, h, run, o, n)
  }

  /** A sweep of a whole snapshot, overlapped by any other writers and sweeps,
      still brings every tag on chain at its slot to that slot or later. */
  lemma OverlappedSweepReaches(env: Env, bad: string -> bool, h: History, run: seq<Step>,
                               slot: nat, sweep: seq<Observation>)
    requires LowersAscii(env.lower) && ValidHistory(env.pda, h) && AllObserved(env, h, run)
    ensures Snapshot(h, slot, sweep) && SweptWhole(env, bad, h, run, sweep) ==>
            var rows := Run(bad, START, run).db.rows;
            forall tag :: IsAscii(tag) && Holds(env.pda, h[slot], Home(env.pda, tag), tag) ==>
              tag in rows && slot <= rows[tag].slot
  {
    if Snapshot(h, slot, sweep) && SweptWhole(env, bad, h, run, sweep) {
      forall tag | IsAscii(tag) && Holds(env.pda, h[slot], Home(env.pda, tag), tag)
        ensures var rows := Run(bad, START, run).db.rows; tag in rows && slot <= rows[tag].slot
      {
        var o :| o in sweep && o.address == Home(env.pda, tag);
        var n :| SweptBy(env, bad, h, run, o, n);
        SweptReaches(env, bad, h, run, o, n, tag);
      }
    }
  }

  // ---------------------------------------------------------------------
  // Projections of mixed writers
  // ---------------------------------------------------------------------

  function IndexerSteps(run: seq<Step>): seq<Step> {
    if run == [] then []
    else IndexerSteps(run[..|run| - 1]) + if IsIndexerStep(run[|run| - 1]) then [run[|run| - 1]] else []
  }

  /** Equal tags, owners, wallets, bumps and slots. */
  predicate SameOnChain(a: Table, b: Table) {
    a.Keys == b.Keys && forall tag :: tag in a ==> RowChange(tag, a[tag]) == RowChange(tag, b[tag])
  }

  /** The worlds look alike to the indexer. */
  predicate SameToIndexer(w: World, v: World) {
    SameOnChain(w.db.rows, v.db.rows) && w.db.cursor == v.db.cursor && w.indexers == v.indexers
  }

  lemma ExecuteSame(a: Db, b: Db, pc: Pc)
    requires SameOnChain(a.rows, b.rows) && a.cursor == b.cursor
    ensures var ((a', p), (b', q)) := (ExecuteStatement(a, pc), ExecuteStatement(b, pc));
            SameOnChain(a'.rows, b'.rows) && a'.cursor == b'.cursor && p == q
  {
    if !pc.Done? && pc.c.tag in a.rows {
      assert RowChange(pc.c.tag, a.rows[pc.c.tag]) == RowChange(pc.c.tag, b.rows[pc.c.tag]);
    }
  }

  lemma IndexerStepSame(bad: string -> bool, w: World, v: World, s: Step)
    requires SameToIndexer(w, v) && IsIndexerStep(s)
    ensures SameToIndexer(After(bad, w, s), After(bad, v, s))
  {
    if s.Advance? && s.id in w.indexers {
      ExecuteSame(w.db, v.db, w.indexers[s.id]);
    }
  }

  lemma OtherStepSame(bad: string -> bool, w: World, s: Step)
    requires !IsIndexerStep(s)
    ensures SameToIndexer(w, After(bad, w, s))
  {
  }

  /** The on-chain columns, the cursor and every report of every indexer run are
      what the indexer's statements alone would have made them, whatever the
      backfill, the API and manual moderation do in between. */
  lemma {:induction false} OnChainProjection(bad: string -> bool, run: seq<Step>)
    ensures SameToIndexer(Run(bad, START, run), Run(bad, START, IndexerSteps(run)))
  {
    if run != [] {
      var front, s := run[..|run| - 1], run[|run| - 1];
      OnChainProjection(bad, front);
      var kept := IndexerSteps(run);
      if IsIndexerStep(s) {
        assert kept[..|kept| - 1] == IndexerSteps(front);
        IndexerStepSame(bad, Run(bad, START, front), Run(bad, START, IndexerSteps(front)), s);
      } else {
        assert kept == IndexerSteps(front);
        OtherStepSame(bad, Run(bad, START, front), s);
      }
    }
  }

  /** The profile an edit history leaves, from no profile at all. */
  function Folded(edits: seq<TaggedEdit>, tag: string): Profile {
    if edits == [] then NO_PROFILE
    else
      var before, last := Folded(edits[..|edits| - 1], tag), edits[|edits| - 1];
      if last.tag == tag then Edited(before, last.edit) else before
  }

  ghost predicate ProfilesFolded(w: World) {
    (forall tag :: tag in w.db.rows ==> w.db.rows[tag].profile == Folded(w.edits, tag)) &&
    (forall e :: e in w.edits ==> e.tag in w.db.rows)
  }

  lemma {:induction false} FoldedUntouched(edits: seq<TaggedEdit>, tag: string)
    requires forall e :: e in edits ==> e.tag != tag
    ensures Folded(edits, tag) == NO_PROFILE
  {
    if edits != [] {
      assert edits[|edits| - 1] in edits;
      FoldedUntouched(edits[..|edits| - 1], tag);
    }
  }

  lemma AfterFolded(bad: string -> bool, w: World, s: Step)
    requires ProfilesFolded(w)
    ensures ProfilesFolded(After(bad, w, s))
  {
    if After(bad, w, s).edits != w.edits {
      FoldedStep(bad, w, s);
    } else {
      UneditedStep(bad, w, s);
    }
  }

  /** A statement that edits no profile leaves those there are, and new rows have none. */
  lemma ProfilesStay(bad: string -> bool, w: World, s: Step, tag: string)
    requires After(bad, w, s).edits == w.edits && tag in After(bad, w, s).db.rows
    ensures After(bad, w, s).db.rows[tag].profile == if tag in w.db.rows then w.db.rows[tag].profile else NO_PROFILE
  {
  }

  lemma UneditedStep(bad: string -> bool, w: World, s: Step)
    requires ProfilesFolded(w) && After(bad, w, s).edits == w.edits
    ensures ProfilesFolded(After(bad, w, s))
  {
    var v := After(bad, w, s);
    AfterGrows(bad, w, s);
    forall tag | tag in v.db.rows ensures v.db.rows[tag].profile == Folded(v.edits, tag) {
      ProfilesStay(bad, w, s, tag);
      if tag !in w.db.rows {
        FoldedUntouched(w.edits, tag);
      }
    }
  }

  lemma FoldedStep(bad: string -> bool, w: World, s: Step)
    requires ProfilesFolded(w) && After(bad, w, s).edits != w.edits
    ensures ProfilesFolded(After(bad, w, s))
  {
    var v := After(bad, w, s);
    var e := w.editors[s.id];
    assert v.edits == w.edits + [e] && v.edits[..|v.edits| - 1] == w.edits;
    assert v.db.rows == w.db.rows[e.tag := w.db.rows[e.tag].(profile := Edited(w.db.rows[e.tag].profile, e.edit))];
  }

  /** The profile columns are what the API's edits alone would have made them. */
  lemma ProfileProjection(bad: string -> bool, run: seq<Step>, tag: string)
    requires tag in Run(bad, START, run).db.rows
    ensures Run(bad, START, run).db.rows[tag].profile == Folded(Run(bad, START, run).edits, tag)
  {
    RunFolded(bad, run);
  }

  lemma {:induction false} RunFolded(bad: string -> bool, run: seq<Step>)
    ensures ProfilesFolded(Run(bad, START, run))
  {
    if run != [] {
      RunFolded(bad, run[..|run| - 1]);
      AfterFolded(bad, Run(bad, START, run[..|run| - 1]), run[|run| - 1]);
    }
  }

  datatype Field = DisplayName | Avatar | Bio | PreferredToken

  function Get(p: Profile, f: Field): Option<string> {
    match f
    case DisplayName => p.displayName
    case Avatar => p.avatar
    case Bio => p.bio
    case PreferredToken => p.preferredToken
  }

  function Given(e: Edit, f: Field): Option<Option<string>> {
    match f
    case DisplayName => e.displayName
    case Avatar => e.avatar
    case Bio => e.bio
    case PreferredToken => e.preferredToken
  }

  /** Edit `i` gives the field, and no later edit of the tag does. */
  ghost predicate LastGiven(edits: seq<TaggedEdit>, tag: string, f: Field, i: nat) {
    i < |edits| && edits[i].tag == tag && Given(edits[i].edit, f).Some? &&
    forall j :: i < j < |edits| && edits[j].tag == tag ==> Given(edits[j].edit, f).None?
  }

  /** A field holds what the last edit that gave it said, null included. */
  lemma {:induction false} FieldIsLastGiven(edits: seq<TaggedEdit>, tag: string, f: Field, i: nat)
    requires LastGiven(edits, tag, f, i)
    ensures Get(Folded(edits, tag), f) == Given(edits[i].edit, f).value
  {
    var front := edits[..|edits| - 1];
    if i < |front| {
      assert LastGiven(front, tag, f, i);
      FieldIsLastGiven(front, tag, f, i);
    }
  }

  /** A field that no edit of the tag gave is still null. */
  lemma {:induction false} FieldNeverGiven(edits: seq<TaggedEdit>, tag: string, f: Field)
    requires forall i :: 0 <= i < |edits| && edits[i].tag == tag ==> Given(edits[i].edit, f).None?
    ensures Get(Folded(edits, tag), f) == None
  {
    if edits != [] {
      FieldNeverGiven(edits[..|edits| - 1], tag, f);
    }
  }
}

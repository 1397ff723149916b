/** The mirror table and the indexer's serial writers: the guarded upsert
    (apps/indexer/src/apply-change.ts), the cursor (apps/indexer/src/cursor.ts),
    the pipeline (apps/indexer/src/pipeline.ts), the sweep
    (apps/indexer/src/reconcile.ts) and the moderation backfill
    (apps/indexer/src/backfill-moderation.ts). */
module Mirror {
  import opened Prelude
  import opened Text
  import opened TagAccounts

  /** The off-chain columns, owned by the API. */
  datatype Profile = Profile(displayName: Option<string>, avatar: Option<string>,
                             bio: Option<string>, preferredToken: Option<string>)

  const NO_PROFILE := Profile(None, None, None, None)

  /** An identity; its tag is the key of the table. `blocked` is the status column. */
  datatype Row = Row(owner: Address, wallet: Address, bump: byte, slot: nat, blocked: bool, profile: Profile)

  type Table = map<string, Row>

  datatype Outcome = Created | Updated | SkippedStale

  // ---------------------------------------------------------------------
  // One change
  // ---------------------------------------------------------------------

  predicate Stale(rows: Table, c: Change) { c.tag in rows && c.slot < rows[c.tag].slot }

  /** The row a change leaves behind when it is applied. */
  function Written(prior: Option<Row>, c: Change, gate: string -> bool): Row {
    Row(c.owner, c.wallet, c.bump, c.slot,
        gate(c.tag) || (prior.Some? && prior.value.blocked),
        if prior.Some? then prior.value.profile else NO_PROFILE)
  }

  function Lookup(rows: Table, tag: string): Option<Row> {
    if tag in rows then Some(rows[tag]) else None
  }

  function Applied(rows: Table, c: Change, gate: string -> bool): Table {
    if Stale(rows, c) then rows else rows[c.tag := Written(Lookup(rows, c.tag), c, gate)]
  }

  function Advanced(cursor: Option<nat>, slot: nat): Option<nat> {
    if cursor.Some? && slot <= cursor.value then cursor else Some(slot)
  }

  /** What one account observation claims. */
  datatype Observation = Observation(address: Address, data: seq<byte>, slot: nat)

  /** What a worker needs: lower-casing, address derivation and the moderation
      gate, which reads as passing when it throws. */
  datatype Env = Env(lower: string -> string, pda: Pda, gate: string -> bool) {
    function Verify(o: Observation): Option<Change> { DecodeAndVerify(lower, pda, o.address, o.data, o.slot) }
  }

  datatype Db = Db(rows: Table, cursor: Option<nat>)

  const EMPTY_DB := Db(map[], None)

  function Processed(env: Env, db: Db, o: Observation): Db {
    var c := env.Verify(o);
    if c.None? || Stale(db.rows, c.value) then db
    else Db(Applied(db.rows, c.value, env.gate), Advanced(db.cursor, o.slot))
  }

  function ProcessedAll(env: Env, db: Db, os: seq<Observation>): Db {
    if os == [] then db else Processed(env, ProcessedAll(env, db, os[..|os| - 1]), os[|os| - 1])
  }

  predicate Takes(env: Env, db: Db, o: Observation) {
    env.Verify(o).Some? && !Stale(db.rows, env.Verify(o).value)
  }

  /** Observations of `os` that are applied, in order. */
  function Taken(env: Env, db: Db, os: seq<Observation>): seq<string> {
    if os == [] then []
    else
      var before, o := ProcessedAll(env, db, os[..|os| - 1]), os[|os| - 1];
      Taken(env, db, os[..|os| - 1]) + if Takes(env, before, o) then [env.Verify(o).value.tag] else []
  }

  class Indexer {
    const env: Env
    var rows: Table
    var cursor: Option<nat>
    /** Cache keys for which a DEL was issued, in order. */
    var invalidated: seq<string>

    constructor (env: Env)
      ensures this.env == env && rows == map[] && cursor == None && invalidated == []
    {
      this.env := env;
      rows, cursor, invalidated := map[], None, [];
    }

    function Database(): Db
      reads this
    {
      Db(rows, cursor)
    }

    /** UPDATE ... WHERE tag = c.tag AND last_applied_slot <= c.slot. */
    method UpdateMany(c: Change, blocked: bool) returns (count: nat)
      modifies this`rows
      ensures count == if c.tag in old(rows) && old(rows)[c.tag].slot <= c.slot then 1 else 0
      ensures rows == if count == 0 then old(rows) else
                old(rows)[c.tag := Row(c.owner, c.wallet, c.bump, c.slot,
                                       blocked || old(rows)[c.tag].blocked, old(rows)[c.tag].profile)]
    {
      count := 0;
      if c.tag in rows && rows[c.tag].slot <= c.slot {
        var row := rows[c.tag].(owner := c.owner, wallet := c.wallet, bump := c.bump, slot := c.slot);
        if blocked {
          row := row.(blocked := true);
        }
        rows := rows[c.tag := row];
        count := 1;
      }
    }

    method ApplyChange(c: Change) returns (outcome: Outcome)
      modifies this`rows, this`invalidated
      ensures rows == Applied(old(rows), c, env.gate)
      ensures c.tag in old(rows) && c.slot < old(rows)[c.tag].slot ==> rows == old(rows)
      ensures c.tag !in old(rows) || old(rows)[c.tag].slot <= c.slot ==>
                rows.Keys == old(rows).Keys + {c.tag} &&
                (forall t :: t in old(rows) && t != c.tag ==> rows[t] == old(rows)[t]) &&
                var row := rows[c.tag];
                row.owner == c.owner && row.wallet == c.wallet && row.bump == c.bump && row.slot == c.slot &&
                (row.blocked <==> env.gate(c.tag) || (c.tag in old(rows) && old(rows)[c.tag].blocked)) &&
                row.profile == if c.tag in old(rows) then old(rows)[c.tag].profile else NO_PROFILE
      ensures outcome == if Stale(old(rows), c) then SkippedStale
                         else if c.tag in old(rows) then Updated else Created
      ensures invalidated == old(invalidated) + if outcome.SkippedStale? then [] else [c.tag]
    {
      var blocked := env.gate(c.tag);
      var count := UpdateMany(c, blocked);
      if count > 0 {
        invalidated := invalidated + [c.tag];
        return Updated;
      }
      if c.tag in rows { return SkippedStale; }
      rows := rows[c.tag := Row(c.owner, c.wallet, c.bump, c.slot, blocked, NO_PROFILE)];
      invalidated := invalidated + [c.tag];
      outcome := Created;
    }

    method AdvanceCursor(slot: nat)
      modifies this`cursor
      ensures cursor == Advanced(old(cursor), slot)
    {
      if cursor.Some? && cursor.value < slot {
        cursor := Some(slot);
        return;
      }
      if cursor.None? {
        cursor := Some(slot);
      }
    }

    method ProcessAccountObservation(o: Observation) returns (applied: bool)
      modifies this
      ensures Database() == Processed(env, old(Database()), o)
      ensures applied <==> Takes(env, old(Database()), o)
      ensures invalidated == old(invalidated) + if applied then [env.Verify(o).value.tag] else []
    {
      var result := env.Verify(o);
      if result.None? { return false; }
      var outcome := ApplyChange(result.value);
      if !outcome.SkippedStale? {
        AdvanceCursor(o.slot);
      }
      applied := !outcome.SkippedStale?;
    }

    /** The sweep over one snapshot: every observation carries its slot. */
    method Reconcile(snapshot: seq<Observation>) returns (applied: nat, skipped: nat)
      modifies this
      ensures Database() == ProcessedAll(env, old(Database()), snapshot)
      ensures invalidated == old(invalidated) + Taken(env, old(Database()), snapshot)
      ensures applied == |Taken(env, old(Database()), snapshot)| && applied + skipped == |snapshot|
    {
      applied, skipped := 0, 0;
      for i := 0 to |snapshot|
        invariant Database() == ProcessedAll(env, old(Database()), snapshot[..i])
        invariant invalidated == old(invalidated) + Taken(env, old(Database()), snapshot[..i])
        invariant applied == |Taken(env, old(Database()), snapshot[..i])| && applied + skipped == i
      {
        assert snapshot[..i + 1][..i] == snapshot[..i];
        var wasApplied := ProcessAccountObservation(snapshot[i]);
        if wasApplied {
          applied := applied + 1;
        } else {
          skipped := skipped + 1;
        }
      }
      assert snapshot[..|snapshot|] == snapshot;
    }

    /** UPDATE ... SET status = 'blocked' WHERE tag = tag AND status = 'active'. */
    method BlockActive(tag: string) returns (count: nat)
      modifies this`rows
      ensures count == if tag in old(rows) && !old(rows)[tag].blocked then 1 else 0
      ensures rows == if count == 0 then old(rows) else old(rows)[tag := old(rows)[tag].(blocked := true)]
    {
      count := 0;
      if tag in rows && !rows[tag].blocked {
        rows := rows[tag := rows[tag].(blocked := true)];
        count := 1;
      }
    }

    /** Blocks every active row that fails the gate, one DEL for each. */
    method BackfillModerationGate() returns (checked: nat, blocked: nat)
      modifies this`rows, this`invalidated
      ensures rows == Backfilled(old(rows), env.gate)
      ensures rows.Keys == old(rows).Keys
      ensures forall t :: t in rows ==> rows[t] == old(rows)[t].(blocked := old(rows)[t].blocked || env.gate(t))
      ensures checked == |Active(old(rows))| && blocked == |Failing(Active(old(rows)), env.gate)|
      ensures old(invalidated) <= invalidated
      ensures multiset(invalidated[|old(invalidated)|..]) == multiset(Failing(Active(old(rows)), env.gate))
    {
      ghost var before := rows;
      var todo := Active(rows);
      checked, blocked := |todo|, 0;
      ghost var order: seq<string> := [];
      while todo != {}
        invariant todo <= Active(before)
        invariant Swept(before, env.gate, Active(before) - todo, rows, blocked, order)
        invariant invalidated == old(invalidated) + order
        decreases todo
      {
        var tag :| tag in todo;
        SweepStep(before, env.gate, todo, rows, blocked, order, tag);
        todo := todo - {tag};
        if env.gate(tag) {
          var count := BlockActive(tag);
          if count != 0 {
            invalidated := invalidated + [tag];
            order := order + [tag];
            blocked := blocked + 1;
          }
        }
      }
      SweepDone(before, env.gate, rows, blocked, order);
      assert invalidated[|old(invalidated)|..] == order;
    }
  }

  function Active(rows: Table): set<string> { set t | t in rows && !rows[t].blocked }

  function Failing(tags: set<string>, gate: string -> bool): set<string> { set t | t in tags && gate(t) }

  function Flipped(rows: Table, tags: set<string>, gate: string -> bool): Table {
    map t | t in rows :: if t in tags && gate(t) then rows[t].(blocked := true) else rows[t]
  }

  function Backfilled(rows: Table, gate: string -> bool): Table {
    map t | t in rows :: if gate(t) then rows[t].(blocked := true) else rows[t]
  }

  /** The backfill with the tags of `done` behind it. */
  ghost predicate Swept(before: Table, gate: string -> bool, done: set<string>,
                        rows: Table, blocked: nat, order: seq<string>)
  {
    rows == Flipped(before, done, gate) &&
    blocked == |Failing(done, gate)| && multiset(order) == multiset(Failing(done, gate))
  }

  lemma SweepTag(before: Table, gate: string -> bool, done: set<string>,
                 rows: Table, blocked: nat, order: seq<string>, tag: string)
    requires Swept(before, gate, done, rows, blocked, order)
    requires tag in before && !before[tag].blocked && tag !in done
    ensures tag in rows && !rows[tag].blocked
    ensures if gate(tag)
            then Swept(before, gate, done + {tag}, rows[tag := rows[tag].(blocked := true)], blocked + 1, order + [tag])
            else Swept(before, gate, done + {tag}, rows, blocked, order)
  {
    assert Failing(done + {tag}, gate) == Failing(done, gate) + if gate(tag) then {tag} else {};
  }

  lemma SweepStep(before: Table, gate: string -> bool, todo: set<string>,
                  rows: Table, blocked: nat, order: seq<string>, tag: string)
    requires Swept(before, gate, Active(before) - todo, rows, blocked, order)
    requires todo <= Active(before) && tag in todo
    ensures tag in rows && !rows[tag].blocked
    ensures var done := Active(before) - (todo - {tag});
            if gate(tag)
            then Swept(before, gate, done, rows[tag := rows[tag].(blocked := true)], blocked + 1, order + [tag])
            else Swept(before, gate, done, rows, blocked, order)
  {
    SweepTag(before, gate, Active(before) - todo, rows, blocked, order, tag);
    assert Active(before) - (todo - {tag}) == Active(before) - todo + {tag};
  }

  lemma SweepDone(before: Table, gate: string -> bool, rows: Table, blocked: nat, order: seq<string>)
    requires Swept(before, gate, Active(before) - {}, rows, blocked, order)
    ensures rows == Backfilled(before, gate)
    ensures blocked == |Failing(Active(before), gate)| && multiset(order) == multiset(Failing(Active(before), gate))
  {
    assert Active(before) - {} == Active(before);
  }

  // ---------------------------------------------------------------------
  // Convergence
  // ---------------------------------------------------------------------

  function AppliedAll(rows: Table, cs: seq<Change>, gate: string -> bool): Table {
    if cs == [] then rows else Applied(AppliedAll(rows, cs[..|cs| - 1], gate), cs[|cs| - 1], gate)
  }

  /** Equal tag and slot means equal content, as for truthful changes. */
  ghost predicate Consistent(cs: seq<Change>) {
    forall c, d :: c in cs && d in cs && c.tag == d.tag && c.slot == d.slot ==> c == d
  }

  ghost predicate Newest(cs: seq<Change>, c: Change) {
    c in cs && forall d :: d in cs && d.tag == c.tag ==> d.slot <= c.slot
  }

  /** A tag's final row is the change with its highest slot, over whatever the
      row was before, and no other change to the tag leaves a trace. */
  lemma {:induction false} AppliedAllIsNewest(rows: Table, cs: seq<Change>, gate: string -> bool, c: Change)
    requires Consistent(cs) && Newest(cs, c)
    ensures Lookup(AppliedAll(rows, cs, gate), c.tag) ==
            Some(if Stale(rows, c) then rows[c.tag] else Written(Lookup(rows, c.tag), c, gate))
  {
    var front, d := cs[..|cs| - 1], cs[|cs| - 1];
    assert cs == front + [d];
    if exists e :: e in front && e.tag == c.tag {
      var e := NewestOf(front, c.tag);
      AppliedAllIsNewest(rows, front, gate, e);
      assert d.tag == c.tag ==> d == c || d.slot <= c.slot;
    } else {
      Untouched(rows, front, gate, c.tag);
    }
  }

  lemma {:induction false} NewestOf(cs: seq<Change>, tag: string) returns (c: Change)
    requires exists e :: e in cs && e.tag == tag
    ensures c.tag == tag && Newest(cs, c)
  {
    var front, d := cs[..|cs| - 1], cs[|cs| - 1];
    assert cs == front + [d];
    if exists e :: e in front && e.tag == tag {
      c := NewestOf(front, tag);
      if d.tag == tag && c.slot < d.slot {
        c := d;
      }
    } else {
      c := d;
    }
  }

  lemma {:induction false} Untouched(rows: Table, cs: seq<Change>, gate: string -> bool, tag: string)
    requires forall e :: e in cs ==> e.tag != tag
    ensures Lookup(AppliedAll(rows, cs, gate), tag) == Lookup(rows, tag)
  {
    if cs != [] {
      assert cs[|cs| - 1] in cs;
      Untouched(rows, cs[..|cs| - 1], gate, tag);
    }
  }

  lemma SameLookup(rows: Table, cs: seq<Change>, ds: seq<Change>, gate: string -> bool, tag: string)
    requires Consistent(cs) && forall c :: c in cs <==> c in ds
    ensures Lookup(AppliedAll(rows, cs, gate), tag) == Lookup(AppliedAll(rows, ds, gate), tag)
  {
    if exists e :: e in cs && e.tag == tag {
      var c := NewestOf(cs, tag);
      AppliedAllIsNewest(rows, cs, gate, c);
      AppliedAllIsNewest(rows, ds, gate, c);
    } else {
      Untouched(rows, cs, gate, tag);
      Untouched(rows, ds, gate, tag);
    }
  }

  /** Reordering and repeating changes makes no difference to the table: the
      order and number of deliveries leave no trace, from any starting table. */
  lemma Converges(rows: Table, cs: seq<Change>, ds: seq<Change>, gate: string -> bool)
    requires Consistent(cs) && forall c :: c in cs <==> c in ds
    ensures AppliedAll(rows, cs, gate) == AppliedAll(rows, ds, gate)
  {
    var x, y := AppliedAll(rows, cs, gate), AppliedAll(rows, ds, gate);
    forall tag ensures Lookup(x, tag) == Lookup(y, tag) {
      SameLookup(rows, cs, ds, gate, tag);
    }
    assert forall tag :: tag in x ==> Lookup(x, tag) == Lookup(y, tag);
    assert forall tag :: tag in y ==> Lookup(x, tag) == Lookup(y, tag);
    assert x == y;
  }

  /** A second backfill finds nothing to do. */
  lemma BackfillIdempotent(rows: Table, gate: string -> bool)
    ensures Backfilled(Backfilled(rows, gate), gate) == Backfilled(rows, gate)
    ensures Failing(Active(Backfilled(rows, gate)), gate) == {}
  {
  }

  /** Sweeping the table for rows that fail the gate and applying changes
      commute: the backfill only repairs rows written before the gate. */
  lemma BackfillCommutes(rows: Table, c: Change, gate: string -> bool)
    ensures Backfilled(Applied(rows, c, gate), gate) == Applied(Backfilled(rows, gate), c, gate)
  {
  }
}

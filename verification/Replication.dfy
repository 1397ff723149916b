/** Replication of the chain into the mirror by one serial worker: the chain as
    a ledger per slot, and everything an indexer can have seen of it. */
module Replication {
  import opened Prelude
  import opened Text
  import opened TagRules
  import opened TagAccounts
  import opened Mirror

  /** The ledger at the end of each slot, starting empty. */
  type History = seq<Ledger>

  ghost predicate Steps(pda: Pda, before: Ledger, after: Ledger) {
    exists run :: after == ExecuteAll(pda, before, run)
  }

  ghost predicate ValidHistory(pda: Pda, h: History) {
    |h| > 0 && h[0] == map[] && forall s: nat :: s + 1 < |h| ==> Steps(pda, h[s], h[s + 1])
  }

  /** The observed bytes are the account's bytes at the observed slot. */
  predicate Truthful(h: History, o: Observation) {
    o.slot < |h| && o.address in h[o.slot] && o.data == Serialize(h[o.slot][o.address])
  }

  ghost predicate AllTruthful(h: History, os: seq<Observation>) {
    forall o :: o in os ==> Truthful(h, o)
  }

  /** The address at which a tag lives. */
  function Home(pda: Pda, tag: string): Address
    requires IsAscii(tag)
  {
    pda.find(BytesOf(tag)).0
  }

  /** The row shows the account of its tag exactly as it was at the row's slot. */
  predicate Shows(pda: Pda, h: History, tag: string, row: Row) {
    row.slot < |h| && CanonicalTag(tag) && IsAscii(tag) &&
    Holds(pda, h[row.slot], Home(pda, tag), tag) &&
    var a := h[row.slot][Home(pda, tag)];
    row.owner == a.owner && row.wallet == a.wallet && row.bump == a.bump
  }

  ghost predicate Mirrors(pda: Pda, h: History, rows: Table) {
    forall tag :: tag in rows ==> Shows(pda, h, tag, rows[tag])
  }

  // ---------------------------------------------------------------------
  // The chain
  // ---------------------------------------------------------------------

  lemma {:induction false} ExecuteAllWellFormed(pda: Pda, ledger: Ledger, run: seq<Instruction>)
    requires WellFormed(pda, ledger)
    ensures WellFormed(pda, ExecuteAll(pda, ledger, run))
  {
    if run != [] {
      ExecuteAllWellFormed(pda, ledger, run[..|run| - 1]);
      ExecuteWellFormed(pda, ExecuteAll(pda, ledger, run[..|run| - 1]), run[|run| - 1]);
    }
  }

  lemma {:induction false} HistoryWellFormed(pda: Pda, h: History, s: nat)
    requires ValidHistory(pda, h) && s < |h|
    ensures WellFormed(pda, h[s])
  {
    if 0 < s {
      HistoryWellFormed(pda, h, s - 1);
      assert Steps(pda, h[s - 1], h[s - 1 + 1]);
      var run :| h[s] == ExecuteAll(pda, h[s - 1], run);
      ExecuteAllWellFormed(pda, h[s - 1], run);
    }
  }

  /** A registered tag stays at its address in every later slot. */
  lemma {:induction false} TagsStay(pda: Pda, h: History, s: nat, t: nat, account: Address, tag: string)
    requires ValidHistory(pda, h) && s <= t < |h| && Holds(pda, h[s], account, tag)
    ensures Holds(pda, h[t], account, tag)
    decreases t - s
  {
    if s < t {
      assert Steps(pda, h[s], h[s + 1]);
      var run :| h[s + 1] == ExecuteAll(pda, h[s], run);
      AccountsStay(pda, h[s], run, account);
      TagsStay(pda, h, s + 1, t, account, tag);
    }
  }

  // ---------------------------------------------------------------------
  // Refinement
  // ---------------------------------------------------------------------

  /** A truthful observation verifies as the change the chain made. */
  lemma TruthfulVerifies(env: Env, h: History, o: Observation)
    requires LowersAscii(env.lower) && ValidHistory(env.pda, h) && Truthful(h, o)
    ensures env.Verify(o).Some?
    ensures var c := env.Verify(o).value; var a := h[o.slot][o.address];
            CanonicalTag(c.tag) && IsAscii(c.tag) && c.slot == o.slot && Home(env.pda, c.tag) == o.address &&
            Holds(env.pda, h[o.slot], o.address, c.tag) &&
            c.owner == a.owner && c.wallet == a.wallet && c.bump == a.bump
  {
    HistoryWellFormed(env.pda, h, o.slot);
    var tag :| Holds(env.pda, h[o.slot], o.address, tag);
    HeldVerifies(env.lower, env.pda, h[o.slot], o.address, tag, o.address, o.slot);
  }

  /** Whatever truthful observations arrive, in whatever order, repeated or lost,
      every row is the chain's account at the row's slot, and the cursor is the
      highest of these slots. */
  lemma {:induction false} ReplicationRefines(env: Env, h: History, os: seq<Observation>)
    requires LowersAscii(env.lower) && ValidHistory(env.pda, h) && AllTruthful(h, os)
    ensures Mirrors(env.pda, h, ProcessedAll(env, EMPTY_DB, os).rows)
    ensures CursorIsNewest(ProcessedAll(env, EMPTY_DB, os))
  {
    if os != [] {
      var front, o := os[..|os| - 1], os[|os| - 1];
      ReplicationRefines(env, h, front);
      TruthfulVerifies(env, h, o);
      ProcessedCursor(env, ProcessedAll(env, EMPTY_DB, front), o);
    }
  }

  /** The cursor is the highest slot in the table, and absent for an empty one. */
  ghost predicate CursorIsNewest(db: Db) {
    if db.cursor.None? then db.rows == map[]
    else (exists tag :: tag in db.rows && db.rows[tag].slot == db.cursor.value) &&
         forall tag :: tag in db.rows ==> db.rows[tag].slot <= db.cursor.value
  }

  lemma ProcessedCursor(env: Env, db: Db, o: Observation)
    requires CursorIsNewest(db)
    ensures CursorIsNewest(Processed(env, db, o))
  {
    if Takes(env, db, o) {
      var after, tag := Processed(env, db, o), env.Verify(o).value.tag;
      assert after.rows[tag].slot == o.slot;
      if db.cursor.Some? && o.slot < db.cursor.value {
        var newest :| newest in db.rows && db.rows[newest].slot == db.cursor.value;
        assert newest in after.rows && after.rows[newest].slot == after.cursor.value;
      }
    }
  }

  /** Neither garbage nor replays move a row or the cursor backwards. */
  lemma {:induction false} SlotsNeverDecrease(env: Env, db: Db, os: seq<Observation>, tag: string)
    requires tag in db.rows
    ensures var after := ProcessedAll(env, db, os);
            tag in after.rows && db.rows[tag].slot <= after.rows[tag].slot &&
            (db.rows[tag].blocked ==> after.rows[tag].blocked) &&
            after.rows[tag].profile == db.rows[tag].profile &&
            (db.cursor.Some? ==> after.cursor.Some? && db.cursor.value <= after.cursor.value)
  {
    if os != [] {
      SlotsNeverDecrease(env, db, os[..|os| - 1], tag);
    }
  }

  // ---------------------------------------------------------------------
  // Sweeps
  // ---------------------------------------------------------------------

  /** All accounts of one slot, in any order. */
  ghost predicate Snapshot(h: History, slot: nat, os: seq<Observation>) {
    slot < |h| && AllTruthful(h, os) && (forall o :: o in os ==> o.slot == slot) &&
    forall a :: a in h[slot] ==> exists o :: o in os && o.address == a
  }

  lemma {:induction false} Reached(env: Env, db: Db, os: seq<Observation>, o: Observation)
    requires o in os && env.Verify(o).Some?
    ensures var after := ProcessedAll(env, db, os); var tag := env.Verify(o).value.tag;
            tag in after.rows && o.slot <= after.rows[tag].slot
  {
    var front, last := os[..|os| - 1], os[|os| - 1];
    assert os == front + [last];
    if last != o {
      Reached(env, db, front, o);
    }
  }

  /** After a complete sweep, whatever came before, between or after it, every
      tag on chain at its slot has a row at least that recent. */
  lemma SweepReaches(env: Env, h: History, db: Db, slot: nat, sweep: seq<Observation>,
                     later: seq<Observation>, tag: string)
    requires LowersAscii(env.lower) && ValidHistory(env.pda, h) && Snapshot(h, slot, sweep)
    requires CanonicalTag(tag) && IsAscii(tag) && Holds(env.pda, h[slot], Home(env.pda, tag), tag)
    ensures var after := ProcessedAll(env, ProcessedAll(env, db, sweep), later);
            tag in after.rows && slot <= after.rows[tag].slot
  {
    var o :| o in sweep && o.address == Home(env.pda, tag);
    TruthfulVerifies(env, h, o);
    HeldTagUnique(env.pda, h[slot], o.address, tag, env.Verify(o).value.tag);
    Reached(env, db, sweep, o);
    SlotsNeverDecrease(env, ProcessedAll(env, db, sweep), later, tag);
  }

  lemma HeldTagUnique(pda: Pda, ledger: Ledger, account: Address, s: string, t: string)
    requires Holds(pda, ledger, account, s) && Holds(pda, ledger, account, t)
    ensures s == t
  {
    assert Padded(BytesOf(s))[..|s|] == BytesOf(s) && Padded(BytesOf(t))[..|t|] == BytesOf(t);
    BytesRoundTrip(s);
    BytesRoundTrip(t);
  }

  function AccountAt(ledger: Ledger, account: Address): Option<Account> {
    if account in ledger then Some(ledger[account]) else None
  }

  /** Once a tag has been still since `slot`, a sweep at `slot` makes its row
      current for good: it equals the chain's latest account. */
  lemma SweptRowIsCurrent(env: Env, h: History, before: seq<Observation>, slot: nat, sweep: seq<Observation>,
                          later: seq<Observation>, tag: string)
    requires LowersAscii(env.lower) && ValidHistory(env.pda, h) && Snapshot(h, slot, sweep)
    requires AllTruthful(h, before) && AllTruthful(h, later)
    requires CanonicalTag(tag) && IsAscii(tag) && Holds(env.pda, h[slot], Home(env.pda, tag), tag)
    requires forall s :: slot <= s < |h| ==>
      AccountAt(h[s], Home(env.pda, tag)) == AccountAt(h[|h| - 1], Home(env.pda, tag))
    ensures var rows := ProcessedAll(env, EMPTY_DB, before + sweep + later).rows;
            var now := AccountAt(h[|h| - 1], Home(env.pda, tag));
            tag in rows && now.Some? &&
            rows[tag].owner == now.value.owner && rows[tag].wallet == now.value.wallet &&
            rows[tag].bump == now.value.bump
  {
    var all := before + sweep + later;
    ProcessedConcat(env, EMPTY_DB, before + sweep, later);
    ProcessedConcat(env, EMPTY_DB, before, sweep);
    SweepReaches(env, h, ProcessedAll(env, EMPTY_DB, before), slot, sweep, later, tag);
    ReplicationRefines(env, h, all);
  }

  lemma {:induction false} ProcessedConcat(env: Env, db: Db, os: seq<Observation>, more: seq<Observation>)
    ensures ProcessedAll(env, db, os + more) == ProcessedAll(env, ProcessedAll(env, db, os), more)
  {
    if more == [] {
      assert os + more == os;
    } else {
      assert (os + more)[..|os + more| - 1] == os + more[..|more| - 1];
      ProcessedConcat(env, db, os, more[..|more| - 1]);
    }
  }

  // ---------------------------------------------------------------------
  // Two indexers that saw the same events agree
  // ---------------------------------------------------------------------

  function Changes(env: Env, os: seq<Observation>): seq<Change> {
    if os == [] then []
    else
      var c := env.Verify(os[|os| - 1]);
      Changes(env, os[..|os| - 1]) + if c.Some? then [c.value] else []
  }

  lemma {:induction false} ChangesMembers(env: Env, os: seq<Observation>, c: Change)
    ensures c in Changes(env, os) <==> exists o :: o in os && env.Verify(o) == Some(c)
  {
    if os != [] {
      var front, last := os[..|os| - 1], os[|os| - 1];
      assert os == front + [last];
      ChangesMembers(env, front, c);
    }
  }

  lemma {:induction false} ProcessedRows(env: Env, db: Db, os: seq<Observation>)
    ensures ProcessedAll(env, db, os).rows == AppliedAll(db.rows, Changes(env, os), env.gate)
  {
    if os != [] {
      ProcessedRows(env, db, os[..|os| - 1]);
      var cs := Changes(env, os);
      if env.Verify(os[|os| - 1]).Some? {
        assert cs[..|cs| - 1] == Changes(env, os[..|os| - 1]);
      } else {
        assert cs == Changes(env, os[..|os| - 1]);
      }
    }
  }

  lemma TruthfulConsistent(env: Env, h: History, os: seq<Observation>)
    requires LowersAscii(env.lower) && ValidHistory(env.pda, h) && AllTruthful(h, os)
    ensures Consistent(Changes(env, os))
  {
    forall c, d | c in Changes(env, os) && d in Changes(env, os) && c.tag == d.tag && c.slot == d.slot
      ensures c == d
    {
      ChangesMembers(env, os, c);
      ChangesMembers(env, os, d);
      var o :| o in os && env.Verify(o) == Some(c);
      var p :| p in os && env.Verify(p) == Some(d);
      TruthfulVerifies(env, h, o);
      TruthfulVerifies(env, h, p);
    }
  }

  /** Delivery order and repetition do not show in the mirror or the cursor. */
  lemma SameEventsSameMirror(env: Env, h: History, os: seq<Observation>, ps: seq<Observation>)
    requires LowersAscii(env.lower) && ValidHistory(env.pda, h) && AllTruthful(h, os)
    requires forall o :: o in os <==> o in ps
    ensures ProcessedAll(env, EMPTY_DB, os) == ProcessedAll(env, EMPTY_DB, ps)
  {
    TruthfulConsistent(env, h, os);
    forall c ensures c in Changes(env, os) <==> c in Changes(env, ps) {
      ChangesMembers(env, os, c);
      ChangesMembers(env, ps, c);
    }
    Converges(map[], Changes(env, os), Changes(env, ps), env.gate);
    ProcessedRows(env, EMPTY_DB, os);
    ProcessedRows(env, EMPTY_DB, ps);
    ReplicationRefines(env, h, os);
    ReplicationRefines(env, h, ps);
    CursorDetermined(ProcessedAll(env, EMPTY_DB, os), ProcessedAll(env, EMPTY_DB, ps));
  }

  lemma CursorDetermined(a: Db, b: Db)
    requires CursorIsNewest(a) && CursorIsNewest(b) && a.rows == b.rows
    ensures a == b
  {
  }
}

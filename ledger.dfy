/**
 * The reconciliation ledger: committing batches of (physical id, accounting id)
 * pairs into `depara` and `conciliados`, with or without the accounting family,
 * and undoing them.
 *
 * Each commit is specified by a left fold over the batch (`SaveAll`,
 * `FamilySave`) that builds the rows and lock rows the transaction inserts;
 * the methods run the loops of `save_pairs` and `save_pairs_with_family` and are
 * proved to compute the fold.
 */
module Ledger {
  import opened Wrappers
  import opened Tables
  import Filters

  /** What a commit reads: the registers, the locks as they were when the
      transaction began, the requested status and the status of family children. */
  datatype Ctx = Ctx(fisico: map<int, Asset>, contabil: map<int, Asset>, conc: map<LockKey, int>,
                     st: string, childSt: string)

  /** The rows being built inside the transaction: the next `PAR_ID`, the ledger
      rows and lock rows to insert, the accounting ids already taken by this batch,
      and the `(NRBRM, physical anchor)` of every committed accounting id. */
  datatype Batch = Batch(next: int, rows: seq<ParRow>, locks: seq<LockRow>,
                         pendingCtb: set<int>, involved: seq<(int, int)>)

  function Start(next: int): Batch { Batch(next, [], [], {}, []) }

  /** The status of a ledger row: the child status exactly when it carries a non-zero INC. */
  function StatusFor(st: string, childSt: string, inc: Option<int>): string {
    if inc.Some? && inc.value != 0 then childSt else st
  }

  /** The lock rows of a pair: one per side whose id is positive. */
  function PairLocks(f: int, c: int, p: int): (r: seq<LockRow>)
    ensures forall j :: 0 <= j < |r| ==> r[j].0.id > 0 && r[j].1 == p
  {
    (if f > 0 then [(LockKey(Fis, f), p)] else []) + (if c > 0 then [(LockKey(Ctb, c), p)] else [])
  }

  /** The lock rows of a sequence of ledger rows, in order. */
  function LocksOf(rows: seq<ParRow>): seq<LockRow> {
    if rows == [] then []
    else
      var last := rows[|rows| - 1];
      LocksOf(rows[..|rows| - 1]) + PairLocks(last.fis, last.ctb, last.parId)
  }

  lemma {:induction false} LocksOfPositive(rows: seq<ParRow>)
    ensures forall j :: 0 <= j < |LocksOf(rows)| ==> LocksOf(rows)[j].0.id > 0
  {
    if rows != [] {
      LocksOfPositive(rows[..|rows| - 1]);
      var last := rows[|rows| - 1];
      var a, b := LocksOf(rows[..|rows| - 1]), PairLocks(last.fis, last.ctb, last.parId);
      assert forall j :: 0 <= j < |a + b| ==> (a + b)[j] == if j < |a| then a[j] else b[j - |a|];
    }
  }

  // ---------------------------------------------------------------------
  // save_pairs

  /** The reasons a pair is passed over without aborting the batch: both ids
      empty, a side already locked, or the row it reads (the accounting row,
      or the physical row of a physical-only pair) missing. */
  predicate Skipped(ctx: Ctx, f: int, c: int) {
    (f <= 0 && c <= 0)
    || (f > 0 && LockKey(Fis, f) in ctx.conc)
    || (c > 0 && LockKey(Ctb, c) in ctx.conc)
    || (c > 0 && c !in ctx.contabil)
    || (c <= 0 && f !in ctx.fisico)
  }

  /** The ledger row of a kept pair: NRBRM and INC come from the accounting row
      when there is one, NRBRM from the physical row otherwise. */
  function PairRow(ctx: Ctx, p: int, f: int, c: int): (r: ParRow)
    requires !Skipped(ctx, f, c)
    ensures r.parId == p && r.fis == f && r.ctb == c
    ensures r.status == StatusFor(ctx.st, ctx.childSt, r.inc)
    ensures c > 0 <==> r.inc.Some?
  {
    if c > 0 then
      var inc := Coalesce(ctx.contabil[c].inc);
      ParRow(p, StatusFor(ctx.st, ctx.childSt, Some(inc)), f, c, Coalesce(ctx.contabil[c].nrbrm), Some(inc))
    else
      ParRow(p, ctx.st, f, c, Coalesce(ctx.fisico[f].nrbrm), None)
  }

  /** Appends the row and lock rows of a kept pair. */
  function Keep(ctx: Ctx, b: Batch, f: int, c: int): Batch
    requires !Skipped(ctx, f, c)
  {
    Batch(b.next + 1, b.rows + [PairRow(ctx, b.next, f, c)], b.locks + PairLocks(f, c, b.next),
          b.pendingCtb + (if c > 0 then {c} else {}), b.involved)
  }

  /** One iteration of the `save_pairs` loop. */
  function SaveStep(ctx: Ctx, b: Batch, pair: (int, int)): Batch {
    if Skipped(ctx, pair.0, pair.1) then b else Keep(ctx, b, pair.0, pair.1)
  }

  /** The batch `save_pairs` builds from `pairs`. */
  function SaveAll(ctx: Ctx, b: Batch, pairs: seq<(int, int)>): Batch {
    if pairs == [] then b
    else SaveStep(ctx, SaveAll(ctx, b, pairs[..|pairs| - 1]), pairs[|pairs| - 1])
  }

  /** The pairs a `save_pairs` batch keeps, in order. */
  function Kept(ctx: Ctx, pairs: seq<(int, int)>): seq<(int, int)> {
    if pairs == [] then []
    else
      var p := pairs[|pairs| - 1];
      Kept(ctx, pairs[..|pairs| - 1]) + (if Skipped(ctx, p.0, p.1) then [] else [p])
  }

  function Ids(rows: seq<ParRow>): (r: seq<(int, int)>)
    ensures |r| == |rows| && forall k :: 0 <= k < |rows| ==> r[k] == (rows[k].fis, rows[k].ctb)
  {
    seq(|rows|, k requires 0 <= k < |rows| => (rows[k].fis, rows[k].ctb))
  }

  /** The shape of every batch `save_pairs` builds: rows numbered from the start,
      each row a kept pair with the requested status, and their lock rows. */
  predicate SaveShape(ctx: Ctx, start: int, b: Batch) {
    && b.next == start + |b.rows|
    && Consecutive(b.rows, start)
    && b.locks == LocksOf(b.rows)
    && forall k :: 0 <= k < |b.rows| ==>
         !Skipped(ctx, b.rows[k].fis, b.rows[k].ctb) && b.rows[k] == PairRow(ctx, start + k, b.rows[k].fis, b.rows[k].ctb)
  }

  lemma SaveStepShape(ctx: Ctx, start: int, b: Batch, pair: (int, int))
    requires SaveShape(ctx, start, b)
    ensures SaveShape(ctx, start, SaveStep(ctx, b, pair))
    ensures Ids(SaveStep(ctx, b, pair).rows) == Ids(b.rows) + (if Skipped(ctx, pair.0, pair.1) then [] else [pair])
  {
    if !Skipped(ctx, pair.0, pair.1) {
      KeepShape(ctx, start, b, pair.0, pair.1);
      KeepIds(ctx, b, pair.0, pair.1);
    }
  }

  lemma KeepShape(ctx: Ctx, start: int, b: Batch, f: int, c: int)
    requires SaveShape(ctx, start, b) && !Skipped(ctx, f, c)
    ensures SaveShape(ctx, start, Keep(ctx, b, f, c))
  {
    var row := PairRow(ctx, b.next, f, c);
    var rows := b.rows + [row];
    assert rows[..|rows| - 1] == b.rows;
    assert LocksOf(rows) == b.locks + PairLocks(f, c, b.next);
    assert forall k :: 0 <= k < |b.rows| ==> rows[k] == b.rows[k];
  }

  lemma KeepIds(ctx: Ctx, b: Batch, f: int, c: int)
    requires !Skipped(ctx, f, c)
    ensures Ids(Keep(ctx, b, f, c).rows) == Ids(b.rows) + [(f, c)]
  {
    var rows := Keep(ctx, b, f, c).rows;
    assert forall k :: 0 <= k < |b.rows| ==> rows[k] == b.rows[k];
  }

  /**
   * A `save_pairs` batch keeps exactly the pairs that are not skipped, in
   * order, one ledger row each with consecutive `PAR_ID`s from the start and
   * the requested status, and writes a lock row per positive id.
   */
  lemma {:induction false} SaveAllSpec(ctx: Ctx, start: int, pairs: seq<(int, int)>)
    requires ctx.childSt == ctx.st
    ensures var b := SaveAll(ctx, Start(start), pairs);
      && SaveShape(ctx, start, b)
      && Ids(b.rows) == Kept(ctx, pairs)
      && (forall k :: 0 <= k < |b.rows| ==> b.rows[k].status == ctx.st)
      && (forall j :: 0 <= j < |b.locks| ==> b.locks[j].0.id > 0)
  {
    if pairs != [] {
      var init := pairs[..|pairs| - 1];
      SaveAllSpec(ctx, start, init);
      SaveStepShape(ctx, start, SaveAll(ctx, Start(start), init), pairs[|pairs| - 1]);
    }
    var b := SaveAll(ctx, Start(start), pairs);
    LocksOfPositive(b.rows);
    assert forall k :: 0 <= k < |b.rows| ==> b.rows[k].status == StatusFor(ctx.st, ctx.childSt, b.rows[k].inc);
  }

  /** Plain `save_pairs` never consults the accounting ids taken earlier in
      the same batch: a kept pair given twice gets two ledger rows. */
  lemma DuplicateInBatchTwice(ctx: Ctx, start: int, f: int, c: int)
    requires !Skipped(ctx, f, c)
    ensures var b := SaveAll(ctx, Start(start), [(f, c), (f, c)]);
      |b.rows| == 2 && b.rows[0].fis == b.rows[1].fis == f && b.rows[0].ctb == b.rows[1].ctb == c
  {
    var b0 := Start(start);
    assert [(f, c)][..0] == [];
    var b1 := Keep(ctx, b0, f, c);
    assert SaveAll(ctx, b0, [(f, c)]) == b1;
    assert [(f, c), (f, c)][..1] == [(f, c)];
    assert SaveAll(ctx, b0, [(f, c), (f, c)]) == Keep(ctx, b1, f, c);
  }

  /** `save_pairs`: commits the batch in one transaction and returns the number
      of ledger rows appended; a store failure rolls everything back. */
  method SavePairs(db: Db, pairs: seq<(int, int)>, st: string, fault: bool) returns (saved: Option<nat>)
    modifies db
    ensures pairs == [] ==> saved == Some(0) && unchanged(db)
    ensures pairs != [] && fault ==> saved == None && unchanged(db)
    ensures pairs != [] && !fault ==>
      var b := SaveAll(Ctx(old(db.fisico), old(db.contabil), old(db.conciliados), st, st),
                       Start(NextParId(old(db.depara))), pairs);
      && saved == Some(|b.rows|)
      && db.depara == old(db.depara) + b.rows
      && db.conciliados == InsertOrIgnore(old(db.conciliados), b.locks)
      && db.fisico == old(db.fisico) && db.contabil == old(db.contabil)
  {
    if pairs == [] {
      return Some(0);
    }
    if fault {
      return None;
    }
    var fisico, contabil, conc := db.fisico, db.contabil, db.conciliados;
    ghost var ctx := Ctx(fisico, contabil, conc, st, st);
    ghost var start := NextParId(db.depara);
    var nextParId := NextParId(db.depara);
    var rows: seq<ParRow> := [];
    var locks: seq<LockRow> := [];
    var pendingCtb: set<int> := {};
    var count: nat := 0;
    var i := 0;
    while i < |pairs|
      invariant 0 <= i <= |pairs|
      invariant Batch(nextParId, rows, locks, pendingCtb, []) == SaveAll(ctx, Start(start), pairs[..i])
      invariant count == |rows|
      invariant unchanged(db)
    {
      assert pairs[..i + 1][..i] == pairs[..i];
      var kept;
      kept, nextParId, rows, locks, pendingCtb := SaveOne(ctx, fisico, contabil, conc, st, nextParId, rows, locks, pendingCtb, pairs[i].0, pairs[i].1);
      if kept {
        count := count + 1;
      }
      i := i + 1;
    }
    assert pairs[..i] == pairs;
    db.depara := db.depara + rows;
    db.conciliados := InsertOrIgnore(db.conciliados, locks);
    saved := Some(count);
  }

  /** One pass of the `save_pairs` loop: skip the pair or append its ledger row and lock rows. */
  method SaveOne(ghost ctx: Ctx, fisico: map<int, Asset>, contabil: map<int, Asset>, conc: map<LockKey, int>, st: string,
                 nextParId: int, rows: seq<ParRow>, locks: seq<LockRow>, pendingCtb: set<int>, f: int, c: int)
    returns (kept: bool, nextParId': int, rows': seq<ParRow>, locks': seq<LockRow>, pendingCtb': set<int>)
    requires ctx == Ctx(fisico, contabil, conc, st, st)
    ensures kept <==> !Skipped(ctx, f, c)
    ensures Batch(nextParId', rows', locks', pendingCtb', []) == SaveStep(ctx, Batch(nextParId, rows, locks, pendingCtb, []), (f, c))
    ensures |rows'| == |rows| + (if kept then 1 else 0)
  {
    kept, nextParId', rows', locks', pendingCtb' := false, nextParId, rows, locks, pendingCtb;
    if f <= 0 && c <= 0 {
      return;
    }
    if f > 0 && LockKey(Fis, f) in conc {
      return;
    }
    if c > 0 && LockKey(Ctb, c) in conc {
      return;
    }
    var nrbrm: int;
    var inc: Option<int>;
    if c > 0 {
      if c !in contabil {
        return;
      }
      nrbrm, inc := Coalesce(contabil[c].nrbrm), Some(Coalesce(contabil[c].inc));
    } else {
      if f !in fisico {
        return;
      }
      nrbrm, inc := Coalesce(fisico[f].nrbrm), None;
    }
    kept := true;
    rows' := rows + [ParRow(nextParId, st, f, c, nrbrm, inc)];
    if f > 0 {
      locks' := locks' + [(LockKey(Fis, f), nextParId)];
    }
    if c > 0 {
      locks' := locks' + [(LockKey(Ctb, c), nextParId)];
      pendingCtb' := pendingCtb' + {c};
    }
    nextParId' := nextParId + 1;
  }
}

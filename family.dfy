/**
 * `save_pairs_with_family`: the commit that, besides the selected pairs,
 * brings in every pending accounting row sharing the NRBRM of a committed
 * accounting id (the parent with INC = 0 and its children with INC != 0).
 *
 * Phase 1 is the `save_pairs` loop with an extra check against accounting ids
 * already taken by the batch; phase 2 walks the recorded `(NRBRM, anchor)`
 * entries and commits each family in `ORDER BY COALESCE(INC,0), ID` order.
 */
module FamilyLedger {
  import opened Wrappers
  import opened Tables
  import opened Ledger
  import Filters

  // ---------------------------------------------------------------------
  // phase 1

  /** Phase 1 also passes over an accounting id already taken by this batch. */
  predicate FirstSkipped(ctx: Ctx, b: Batch, f: int, c: int) {
    Skipped(ctx, f, c) || (c > 0 && c in b.pendingCtb)
  }

  /** One iteration of the phase-1 loop: the kept pair, and for an accounting
      id its `(NRBRM, physical anchor)` entry. */
  function FirstStep(ctx: Ctx, b: Batch, pair: (int, int)): Batch {
    if FirstSkipped(ctx, b, pair.0, pair.1) then b
    else
      var b' := Keep(ctx, b, pair.0, pair.1);
      if pair.1 > 0 then b'.(involved := b.involved + [(Coalesce(ctx.contabil[pair.1].nrbrm), pair.0)]) else b'
  }

  function FirstAll(ctx: Ctx, b: Batch, pairs: seq<(int, int)>): Batch {
    if pairs == [] then b
    else FirstStep(ctx, FirstAll(ctx, b, pairs[..|pairs| - 1]), pairs[|pairs| - 1])
  }

  /** The pairs phase 1 keeps, in input order: those not skipped whose
      positive accounting id no earlier kept pair took. */
  function FirstKept(ctx: Ctx, pairs: seq<(int, int)>): seq<(int, int)> {
    if pairs == [] then []
    else
      var prev := FirstKept(ctx, pairs[..|pairs| - 1]);
      var p := pairs[|pairs| - 1];
      prev + (if Skipped(ctx, p.0, p.1) || (p.1 > 0 && p.1 in KeptCtb(prev)) then [] else [p])
  }

  /** The positive accounting ids of kept pairs. */
  function KeptCtb(kept: seq<(int, int)>): set<int> {
    set q | q in kept && q.1 > 0 :: q.1
  }

  /** Phase 1 writes exactly the kept pairs, in order, and takes their accounting ids. */
  lemma {:induction false} FirstAllKept(ctx: Ctx, start: int, pairs: seq<(int, int)>)
    ensures var b := FirstAll(ctx, Start(start), pairs);
      Ids(b.rows) == FirstKept(ctx, pairs) && b.pendingCtb == KeptCtb(FirstKept(ctx, pairs))
  {
    if pairs != [] {
      var init := pairs[..|pairs| - 1];
      var p := pairs[|pairs| - 1];
      FirstAllKept(ctx, start, init);
      var b := FirstAll(ctx, Start(start), init);
      var prev := FirstKept(ctx, init);
      if !FirstSkipped(ctx, b, p.0, p.1) {
        var row := PairRow(ctx, b.next, p.0, p.1);
        assert Ids(b.rows + [row]) == Ids(b.rows) + [p];
        assert forall q :: q in prev + [p] <==> q in prev || q == p;
        assert KeptCtb(prev + [p]) == KeptCtb(prev) + (if p.1 > 0 then {p.1} else {});
      }
    }
  }

  /** Every pair that is not skipped is written by phase 1, unless its
      accounting id was already written for an earlier pair of the batch; and
      phase 1 writes nothing else. */
  lemma {:induction false} FirstKeptCovers(ctx: Ctx, pairs: seq<(int, int)>)
    ensures forall q :: q in FirstKept(ctx, pairs) ==> q in pairs && !Skipped(ctx, q.0, q.1)
    ensures forall p :: p in pairs && !Skipped(ctx, p.0, p.1) ==>
      p in FirstKept(ctx, pairs) || (p.1 > 0 && p.1 in KeptCtb(FirstKept(ctx, pairs)))
  {
    if pairs != [] {
      var init := pairs[..|pairs| - 1];
      FirstKeptCovers(ctx, init);
      var prev := FirstKept(ctx, init);
      var kept := FirstKept(ctx, pairs);
      assert forall q :: q in prev ==> q in kept;
      assert KeptCtb(prev) <= KeptCtb(kept);
      assert forall p :: p in pairs ==> p in init || p == pairs[|pairs| - 1];
    }
  }

  // ---------------------------------------------------------------------
  // phase 2

  /** `(COALESCE(INC,0), ID)` of every accounting row with `COALESCE(NRBRM,0) = n`. */
  ghost function FamilyOf(contabil: map<int, Asset>, n: int): set<(int, int)> {
    set id | id in contabil && Coalesce(contabil[id].nrbrm) == n :: (Coalesce(contabil[id].inc), id)
  }

  /** The family query, in its `ORDER BY`. */
  ghost function Family(contabil: map<int, Asset>, n: int): seq<(int, int)> {
    SortedPairs(FamilyOf(contabil, n))
  }

  /** One family member `m = (inc, id)`: committed to the anchor unless taken or locked. */
  function MemberStep(ctx: Ctx, anchor: int, n: int, b: Batch, m: (int, int)): Batch {
    if m.1 in b.pendingCtb || LockKey(Ctb, m.1) in ctx.conc then b
    else
      Batch(b.next + 1,
            b.rows + [ParRow(b.next, StatusFor(ctx.st, ctx.childSt, Some(m.0)), anchor, m.1, n, Some(m.0))],
            b.locks + (if anchor > 0 then [(LockKey(Fis, anchor), b.next)] else []) + [(LockKey(Ctb, m.1), b.next)],
            b.pendingCtb + {m.1}, b.involved)
  }

  function MembersAll(ctx: Ctx, anchor: int, n: int, b: Batch, ms: seq<(int, int)>): Batch {
    if ms == [] then b
    else MemberStep(ctx, anchor, n, MembersAll(ctx, anchor, n, b, ms[..|ms| - 1]), ms[|ms| - 1])
  }

  /** One `(NRBRM, anchor)` entry: the whole family when NRBRM is positive. */
  ghost function SecondStep(ctx: Ctx, b: Batch, e: (int, int)): Batch {
    if e.0 <= 0 then b else MembersAll(ctx, e.1, e.0, b, Family(ctx.contabil, e.0))
  }

  ghost function SecondAll(ctx: Ctx, b: Batch, es: seq<(int, int)>): Batch {
    if es == [] then b
    else SecondStep(ctx, SecondAll(ctx, b, es[..|es| - 1]), es[|es| - 1])
  }

  /** The batch `save_pairs_with_family` builds. */
  ghost function FamilySave(ctx: Ctx, start: int, pairs: seq<(int, int)>): Batch {
    var b1 := FirstAll(ctx, Start(start), pairs);
    SecondAll(ctx, b1, b1.involved)
  }

  // ---------------------------------------------------------------------
  // invariants

  function CtbSet(rows: seq<ParRow>): set<int> {
    set r | r in rows :: r.ctb
  }

  function Nrbrms(es: seq<(int, int)>): set<int> {
    set e | e in es :: e.0
  }

  /** A committed row: the status law, and neither side locked before the commit. */
  predicate RowOk(ctx: Ctx, row: ParRow) {
    && row.status == StatusFor(ctx.st, ctx.childSt, row.inc)
    && (row.ctb > 0 ==> LockKey(Ctb, row.ctb) !in ctx.conc)
    && (row.fis > 0 ==> LockKey(Fis, row.fis) !in ctx.conc)
  }

  /** No accounting id twice. */
  predicate CtbDistinct(rows: seq<ParRow>) {
    forall i, j :: 0 <= i < j < |rows| && rows[i].ctb > 0 ==> rows[i].ctb != rows[j].ctb
  }

  /** The accounting ids taken are those of the rows. */
  predicate Taken(b: Batch) {
    && b.pendingCtb <= CtbSet(b.rows)
    && forall k :: 0 <= k < |b.rows| && b.rows[k].ctb > 0 ==> b.rows[k].ctb in b.pendingCtb
  }

  /** Every row with an accounting side has its NRBRM among the recorded entries. */
  predicate Traced(b: Batch) {
    forall k :: 0 <= k < |b.rows| && b.rows[k].inc.Some? ==> b.rows[k].nrbrm in Nrbrms(b.involved)
  }

  /** Lock rows for positive ids, or for an accounting row's own id. */
  predicate LocksOk(ctx: Ctx, locks: seq<LockRow>) {
    forall j :: 0 <= j < |locks| ==> locks[j].0.id > 0 || (locks[j].0.side == Ctb && locks[j].0.id in ctx.contabil)
  }

  predicate AnchorsOk(ctx: Ctx, es: seq<(int, int)>) {
    forall e :: e in es && e.1 > 0 ==> LockKey(Fis, e.1) !in ctx.conc
  }

  /** Holds of every batch the family commit builds. */
  predicate FamilyShape(ctx: Ctx, start: int, b: Batch) {
    && b.next == start + |b.rows|
    && Consecutive(b.rows, start)
    && (forall k :: 0 <= k < |b.rows| ==> RowOk(ctx, b.rows[k]))
    && CtbDistinct(b.rows)
    && Taken(b)
    && Traced(b)
    && LocksOk(ctx, b.locks)
    && AnchorsOk(ctx, b.involved)
  }

  lemma AppendRows(rows: seq<ParRow>, row: ParRow)
    ensures forall k :: 0 <= k < |rows| ==> (rows + [row])[k] == rows[k]
    ensures (rows + [row])[|rows|] == row
    ensures CtbSet(rows + [row]) == CtbSet(rows) + {row.ctb}
  {
    assert forall r :: r in rows + [row] <==> r in rows || r == row;
  }

  lemma AppendLocks(ctx: Ctx, locks: seq<LockRow>, added: seq<LockRow>)
    requires LocksOk(ctx, locks) && LocksOk(ctx, added)
    ensures LocksOk(ctx, locks + added)
  {
    assert forall j :: 0 <= j < |locks + added| ==>
      (locks + added)[j] == if j < |locks| then locks[j] else added[j - |locks|];
  }

  /** Appending one admissible row keeps the shape. */
  lemma AppendRow(ctx: Ctx, start: int, b: Batch, row: ParRow, added: seq<LockRow>,
                  taken: set<int>, inv: seq<(int, int)>)
    requires FamilyShape(ctx, start, b)
    requires row.parId == b.next && RowOk(ctx, row)
    requires row.ctb > 0 ==> row.ctb !in b.pendingCtb && row.ctb in taken
    requires taken <= {row.ctb}
    requires Nrbrms(b.involved) <= Nrbrms(inv) && (row.inc.Some? ==> row.nrbrm in Nrbrms(inv))
    requires AnchorsOk(ctx, inv) && LocksOk(ctx, added)
    ensures FamilyShape(ctx, start, Batch(b.next + 1, b.rows + [row], b.locks + added, b.pendingCtb + taken, inv))
  {
    var b' := Batch(b.next + 1, b.rows + [row], b.locks + added, b.pendingCtb + taken, inv);
    AppendLocks(ctx, b.locks, added);
    AppendRowsOk(ctx, start, b.rows, row);
    AppendTaken(b, row, taken, b');
    AppendTraced(b, row, inv, b');
    AppendDistinct(b.rows, row, b.pendingCtb);
  }

  lemma AppendRowsOk(ctx: Ctx, start: int, rows: seq<ParRow>, row: ParRow)
    requires Consecutive(rows, start) && forall k :: 0 <= k < |rows| ==> RowOk(ctx, rows[k])
    requires row.parId == start + |rows| && RowOk(ctx, row)
    ensures Consecutive(rows + [row], start) && forall k :: 0 <= k < |rows + [row]| ==> RowOk(ctx, (rows + [row])[k])
  {
    AppendRows(rows, row);
  }

  lemma AppendTaken(b: Batch, row: ParRow, taken: set<int>, b': Batch)
    requires Taken(b) && taken <= {row.ctb} && (row.ctb > 0 ==> row.ctb in taken)
    requires b'.rows == b.rows + [row] && b'.pendingCtb == b.pendingCtb + taken
    ensures Taken(b')
  {
    AppendRows(b.rows, row);
  }

  lemma AppendTraced(b: Batch, row: ParRow, inv: seq<(int, int)>, b': Batch)
    requires Traced(b) && Nrbrms(b.involved) <= Nrbrms(inv) && (row.inc.Some? ==> row.nrbrm in Nrbrms(inv))
    requires b'.rows == b.rows + [row] && b'.involved == inv
    ensures Traced(b')
  {
    AppendRows(b.rows, row);
  }

  lemma AppendDistinct(rows: seq<ParRow>, row: ParRow, pending: set<int>)
    requires CtbDistinct(rows)
    requires forall k :: 0 <= k < |rows| && rows[k].ctb > 0 ==> rows[k].ctb in pending
    requires row.ctb > 0 ==> row.ctb !in pending
    ensures CtbDistinct(rows + [row])
  {
    AppendRows(rows, row);
  }

  lemma FirstStepShape(ctx: Ctx, start: int, b: Batch, pair: (int, int))
    requires FamilyShape(ctx, start, b)
    ensures FamilyShape(ctx, start, FirstStep(ctx, b, pair))
  {
    var (f, c) := pair;
    if !FirstSkipped(ctx, b, f, c) {
      var row := PairRow(ctx, b.next, f, c);
      var inv := if c > 0 then b.involved + [(row.nrbrm, f)] else b.involved;
      assert Nrbrms(inv) == Nrbrms(b.involved) + (if c > 0 then {row.nrbrm} else {}) by {
        assert forall e :: e in inv <==> e in b.involved || (c > 0 && e == (row.nrbrm, f));
      }
      assert AnchorsOk(ctx, inv) by {
        assert forall e :: e in inv ==> e in b.involved || e == (row.nrbrm, f);
      }
      AppendRow(ctx, start, b, row, PairLocks(f, c, b.next), if c > 0 then {c} else {}, inv);
    }
  }

  lemma {:induction false} FirstAllShape(ctx: Ctx, start: int, pairs: seq<(int, int)>)
    ensures FamilyShape(ctx, start, FirstAll(ctx, Start(start), pairs))
  {
    if pairs != [] {
      FirstAllShape(ctx, start, pairs[..|pairs| - 1]);
      FirstStepShape(ctx, start, FirstAll(ctx, Start(start), pairs[..|pairs| - 1]), pairs[|pairs| - 1]);
    }
  }

  lemma MemberStepShape(ctx: Ctx, start: int, anchor: int, n: int, b: Batch, m: (int, int))
    requires FamilyShape(ctx, start, b)
    requires anchor > 0 ==> LockKey(Fis, anchor) !in ctx.conc
    requires n in Nrbrms(b.involved) && m.1 in ctx.contabil
    ensures FamilyShape(ctx, start, MemberStep(ctx, anchor, n, b, m))
  {
    if !(m.1 in b.pendingCtb || LockKey(Ctb, m.1) in ctx.conc) {
      var row := ParRow(b.next, StatusFor(ctx.st, ctx.childSt, Some(m.0)), anchor, m.1, n, Some(m.0));
      var added := (if anchor > 0 then [(LockKey(Fis, anchor), b.next)] else []) + [(LockKey(Ctb, m.1), b.next)];
      assert LocksOk(ctx, added);
      AppendRow(ctx, start, b, row, added, {m.1}, b.involved);
    }
  }

  /** After a family pass every listed member is taken by the batch or was locked;
      what the batch had taken stays taken. */
  lemma {:induction false} MembersAllShape(ctx: Ctx, start: int, anchor: int, n: int, b: Batch, ms: seq<(int, int)>)
    requires FamilyShape(ctx, start, b)
    requires anchor > 0 ==> LockKey(Fis, anchor) !in ctx.conc
    requires n in Nrbrms(b.involved) && forall m :: m in ms ==> m.1 in ctx.contabil
    ensures var r := MembersAll(ctx, anchor, n, b, ms);
      && FamilyShape(ctx, start, r) && r.involved == b.involved && b.pendingCtb <= r.pendingCtb
      && forall m :: m in ms ==> m.1 in r.pendingCtb || LockKey(Ctb, m.1) in ctx.conc
  {
    if ms != [] {
      var init := ms[..|ms| - 1];
      assert forall m :: m in init ==> m in ms;
      MembersAllShape(ctx, start, anchor, n, b, init);
      var mid := MembersAll(ctx, anchor, n, b, init);
      MemberStepShape(ctx, start, anchor, n, mid, ms[|ms| - 1]);
      assert forall m :: m in ms ==> m in init || m == ms[|ms| - 1];
    }
  }

  lemma FamilyMembers(contabil: map<int, Asset>, n: int)
    ensures forall m :: m in Family(contabil, n) ==> m.1 in contabil && Coalesce(contabil[m.1].nrbrm) == n
    ensures forall id :: id in contabil && Coalesce(contabil[id].nrbrm) == n ==> (Coalesce(contabil[id].inc), id) in Family(contabil, n)
  {
  }

  /** Phase 2: every family named by a processed entry is taken or was locked. */
  lemma {:induction false} SecondAllShape(ctx: Ctx, start: int, b: Batch, es: seq<(int, int)>)
    requires FamilyShape(ctx, start, b)
    requires forall e :: e in es ==> e in b.involved
    ensures var r := SecondAll(ctx, b, es);
      && FamilyShape(ctx, start, r) && r.involved == b.involved && b.pendingCtb <= r.pendingCtb
      && forall e, id :: e in es && e.0 > 0 && id in ctx.contabil && Coalesce(ctx.contabil[id].nrbrm) == e.0 ==>
           id in r.pendingCtb || LockKey(Ctb, id) in ctx.conc
  {
    if es != [] {
      var init := es[..|es| - 1];
      var e := es[|es| - 1];
      assert forall x :: x in init ==> x in es;
      SecondAllShape(ctx, start, b, init);
      var mid := SecondAll(ctx, b, init);
      if e.0 > 0 {
        FamilyMembers(ctx.contabil, e.0);
        assert e in b.involved;
        assert e.0 in Nrbrms(mid.involved);
        MembersAllShape(ctx, start, e.1, e.0, mid, Family(ctx.contabil, e.0));
      }
      assert forall x :: x in es ==> x in init || x == e;
    }
  }

  /** Phase 2 only appends: the rows it starts from stay in front. */
  lemma {:induction false} MembersAllPrefix(ctx: Ctx, anchor: int, n: int, b: Batch, ms: seq<(int, int)>)
    ensures var r := MembersAll(ctx, anchor, n, b, ms); |b.rows| <= |r.rows| && r.rows[..|b.rows|] == b.rows
  {
    if ms != [] {
      MembersAllPrefix(ctx, anchor, n, b, ms[..|ms| - 1]);
    }
  }

  lemma {:induction false} SecondAllPrefix(ctx: Ctx, b: Batch, es: seq<(int, int)>)
    ensures var r := SecondAll(ctx, b, es); |b.rows| <= |r.rows| && r.rows[..|b.rows|] == b.rows
  {
    if es != [] {
      var e := es[|es| - 1];
      var mid := SecondAll(ctx, b, es[..|es| - 1]);
      SecondAllPrefix(ctx, b, es[..|es| - 1]);
      if e.0 > 0 {
        MembersAllPrefix(ctx, e.1, e.0, mid, Family(ctx.contabil, e.0));
        var r := SecondAll(ctx, b, es);
        assert r.rows[..|b.rows|] == r.rows[..|mid.rows|][..|b.rows|];
      }
    }
  }

  /**
   * What `save_pairs_with_family` commits:
   *   - consecutive `PAR_ID`s from the start;
   *   - the child status exactly on rows with a non-zero INC;
   *   - no accounting id twice, and none that was locked;
   *   - lock rows only for positive ids, or for a family member's own id;
   *   - family completeness: for every committed accounting row with a positive
   *     NRBRM, every accounting row with that NRBRM is committed by this batch
   *     or was already locked;
   *   - the first rows are exactly the pairs phase 1 keeps, in input order.
   */
  lemma FamilySaveSpec(ctx: Ctx, start: int, pairs: seq<(int, int)>)
    ensures var b := FamilySave(ctx, start, pairs);
      var kept := FirstKept(ctx, pairs);
      && FamilyShape(ctx, start, b)
      && |kept| <= |b.rows| && Ids(b.rows[..|kept|]) == kept
      && forall k, id ::
           (0 <= k < |b.rows| && b.rows[k].inc.Some? && b.rows[k].nrbrm > 0 &&
            id in ctx.contabil && Coalesce(ctx.contabil[id].nrbrm) == b.rows[k].nrbrm) ==>
           id in CtbSet(b.rows) || LockKey(Ctb, id) in ctx.conc
  {
    FirstAllShape(ctx, start, pairs);
    var b1 := FirstAll(ctx, Start(start), pairs);
    SecondAllShape(ctx, start, b1, b1.involved);
    FirstAllKept(ctx, start, pairs);
    SecondAllPrefix(ctx, b1, b1.involved);
  }

  /** With positive register ids every lock row is for a positive id. */
  lemma FamilyLocksPositive(ctx: Ctx, start: int, pairs: seq<(int, int)>)
    requires forall id :: id in ctx.contabil ==> id > 0
    ensures var b := FamilySave(ctx, start, pairs);
      forall j :: 0 <= j < |b.locks| ==> b.locks[j].0.id > 0
  {
    FamilySaveSpec(ctx, start, pairs);
  }

  // ---------------------------------------------------------------------
  // the commit

  /** `SELECT ID, COALESCE(INC,0) FROM contabil WHERE COALESCE(NRBRM,0)=? ORDER BY COALESCE(INC,0), ID`. */
  method FamilyQuery(contabil: map<int, Asset>, n: int) returns (fam: seq<(int, int)>)
    ensures fam == Family(contabil, n)
  {
    fam := SortPairs(set id | id in contabil && Coalesce(contabil[id].nrbrm) == n :: (Coalesce(contabil[id].inc), id));
  }

  /** The phase-1 loop of `save_pairs_with_family`. */
  method FirstPhase(ctx: Ctx, start: int, pairs: seq<(int, int)>) returns (b: Batch)
    ensures b == FirstAll(ctx, Start(start), pairs)
  {
    var nextParId := start;
    var rows: seq<ParRow> := [];
    var locks: seq<LockRow> := [];
    var pendingCtb: set<int> := {};
    var involved: seq<(int, int)> := [];
    var i := 0;
    while i < |pairs|
      invariant 0 <= i <= |pairs|
      invariant Batch(nextParId, rows, locks, pendingCtb, involved) == FirstAll(ctx, Start(start), pairs[..i])
    {
      assert pairs[..i + 1][..i] == pairs[..i];
      var f, c := pairs[i].0, pairs[i].1;
      i := i + 1;
      if f <= 0 && c <= 0 {
        continue;
      }
      if f > 0 && LockKey(Fis, f) in ctx.conc {
        continue;
      }
      if c > 0 && (c in pendingCtb || LockKey(Ctb, c) in ctx.conc) {
        continue;
      }
      var nrbrm: int;
      var inc: Option<int>;
      if c > 0 {
        if c !in ctx.contabil {
          continue;
        }
        nrbrm, inc := Coalesce(ctx.contabil[c].nrbrm), Some(Coalesce(ctx.contabil[c].inc));
        involved := involved + [(nrbrm, f)];
      } else {
        if f !in ctx.fisico {
          continue;
        }
        nrbrm, inc := Coalesce(ctx.fisico[f].nrbrm), None;
      }
      var stForRow := ctx.st;
      if c > 0 && inc.value != 0 {
        stForRow := ctx.childSt;
      }
      rows := rows + [ParRow(nextParId, stForRow, f, c, nrbrm, inc)];
      if f > 0 {
        locks := locks + [(LockKey(Fis, f), nextParId)];
      }
      if c > 0 {
        locks := locks + [(LockKey(Ctb, c), nextParId)];
        pendingCtb := pendingCtb + {c};
      }
      nextParId := nextParId + 1;
    }
    assert pairs[..i] == pairs;
    b := Batch(nextParId, rows, locks, pendingCtb, involved);
  }

  /** One family of phase 2: every member not yet taken nor locked goes to the anchor. */
  method FamilyPass(ctx: Ctx, anchor: int, n: int, b: Batch, fam: seq<(int, int)>) returns (r: Batch)
    ensures r == MembersAll(ctx, anchor, n, b, fam)
  {
    var nextParId, rows, locks, pendingCtb := b.next, b.rows, b.locks, b.pendingCtb;
    var m := 0;
    while m < |fam|
      invariant 0 <= m <= |fam|
      invariant Batch(nextParId, rows, locks, pendingCtb, b.involved) == MembersAll(ctx, anchor, n, b, fam[..m])
    {
      assert fam[..m + 1][..m] == fam[..m];
      var incVal, ctbId := fam[m].0, fam[m].1;
      m := m + 1;
      if ctbId in pendingCtb || LockKey(Ctb, ctbId) in ctx.conc {
        continue;
      }
      var stForRow := if incVal != 0 then ctx.childSt else ctx.st;
      rows := rows + [ParRow(nextParId, stForRow, anchor, ctbId, n, Some(incVal))];
      if anchor > 0 {
        locks := locks + [(LockKey(Fis, anchor), nextParId)];
      }
      locks := locks + [(LockKey(Ctb, ctbId), nextParId)];
      pendingCtb := pendingCtb + {ctbId};
      nextParId := nextParId + 1;
    }
    assert fam[..m] == fam;
    r := Batch(nextParId, rows, locks, pendingCtb, b.involved);
  }

  /** The phase-2 loop over the recorded `(NRBRM, anchor)` entries. */
  method SecondPhase(ctx: Ctx, b1: Batch) returns (b: Batch)
    ensures b == SecondAll(ctx, b1, b1.involved)
  {
    b := b1;
    var e := 0;
    while e < |b1.involved|
      invariant 0 <= e <= |b1.involved|
      invariant b == SecondAll(ctx, b1, b1.involved[..e])
    {
      assert b1.involved[..e + 1][..e] == b1.involved[..e];
      var n, anchor := b1.involved[e].0, b1.involved[e].1;
      e := e + 1;
      if n <= 0 {
        continue;
      }
      var fam := FamilyQuery(ctx.contabil, n);
      b := FamilyPass(ctx, anchor, n, b, fam);
    }
    assert b1.involved[..e] == b1.involved;
  }

  /** `save_pairs_with_family`: commits the pairs and their families in one
      transaction and returns the number of ledger rows appended; a store
      failure rolls everything back. */
  method SavePairsWithFamily(db: Db, pairs: seq<(int, int)>, st: string, fault: bool) returns (saved: Option<nat>)
    modifies db
    ensures pairs == [] ==> saved == Some(0) && unchanged(db)
    ensures pairs != [] && fault ==> saved == None && unchanged(db)
    ensures pairs != [] && !fault ==>
      var b := FamilySave(Ctx(old(db.fisico), old(db.contabil), old(db.conciliados), st, Filters.ChildStatusForOrigin(st)),
                          NextParId(old(db.depara)), pairs);
      && saved == Some(|b.rows|)
      && db.depara == old(db.depara) + b.rows
      && db.conciliados == InsertOrIgnore(old(db.conciliados), b.locks)
      && db.fisico == old(db.fisico) && db.contabil == old(db.contabil)
  {
    if pairs == [] {
      return Some(0);
    }
    if fault {
      return None;
    }
    var ctx := Ctx(db.fisico, db.contabil, db.conciliados, st, Filters.ChildStatusForOrigin(st));
    var b1 := FirstPhase(ctx, NextParId(db.depara), pairs);
    var b := SecondPhase(ctx, b1);
    db.depara := db.depara + b.rows;
    db.conciliados := InsertOrIgnore(db.conciliados, b.locks);
    saved := Some(|b.rows|);
  }

  /** `save_manual_pairs`: the family commit with origin "MANUAL", whose children get "CM - INC". */
  method SaveManualPairs(db: Db, pairs: seq<(int, int)>, fault: bool) returns (saved: Option<nat>)
    modifies db
    ensures pairs != [] && !fault ==>
      var b := FamilySave(Ctx(old(db.fisico), old(db.contabil), old(db.conciliados), "MANUAL",
                              Filters.ChildStatusForOrigin("MANUAL")), NextParId(old(db.depara)), pairs);
      saved == Some(|b.rows|) && db.depara == old(db.depara) + b.rows
      && db.conciliados == InsertOrIgnore(old(db.conciliados), b.locks)
      && db.fisico == old(db.fisico) && db.contabil == old(db.contabil)
    ensures pairs == [] ==> saved == Some(0) && unchanged(db)
    ensures pairs != [] && fault ==> saved == None && unchanged(db)
  {
    saved := SavePairsWithFamily(db, pairs, "MANUAL", fault);
  }

  /** `save_direct_pairs`: the family commit with origin "DIRETA", whose children get "CD - INC". */
  method SaveDirectPairs(db: Db, pairs: seq<(int, int)>, fault: bool) returns (saved: Option<nat>)
    modifies db
    ensures pairs != [] && !fault ==>
      var b := FamilySave(Ctx(old(db.fisico), old(db.contabil), old(db.conciliados), "DIRETA",
                              Filters.ChildStatusForOrigin("DIRETA")), NextParId(old(db.depara)), pairs);
      saved == Some(|b.rows|) && db.depara == old(db.depara) + b.rows
      && db.conciliados == InsertOrIgnore(old(db.conciliados), b.locks)
      && db.fisico == old(db.fisico) && db.contabil == old(db.contabil)
    ensures pairs == [] ==> saved == Some(0) && unchanged(db)
    ensures pairs != [] && fault ==> saved == None && unchanged(db)
  {
    saved := SavePairsWithFamily(db, pairs, "DIRETA", fault);
  }

  /** `save_nao_chapeavel_pairs`: the family commit with origin "NÃO CHAPEÁVEL", whose children get "CN - INC". */
  method SaveNaoChapeavelPairs(db: Db, pairs: seq<(int, int)>, fault: bool) returns (saved: Option<nat>)
    modifies db
    ensures pairs != [] && !fault ==>
      var b := FamilySave(Ctx(old(db.fisico), old(db.contabil), old(db.conciliados), "NÃO CHAPEÁVEL",
                              Filters.ChildStatusForOrigin("NÃO CHAPEÁVEL")), NextParId(old(db.depara)), pairs);
      saved == Some(|b.rows|) && db.depara == old(db.depara) + b.rows
      && db.conciliados == InsertOrIgnore(old(db.conciliados), b.locks)
      && db.fisico == old(db.fisico) && db.contabil == old(db.contabil)
    ensures pairs == [] ==> saved == Some(0) && unchanged(db)
    ensures pairs != [] && fault ==> saved == None && unchanged(db)
  {
    saved := SavePairsWithFamily(db, pairs, "NÃO CHAPEÁVEL", fault);
  }

  // ---------------------------------------------------------------------
  // find_children_ctb_ids

  /** A pending accounting child of NRBRM `n` other than `exclude`: `NRBRM = n`
      (a null NRBRM never matches), `COALESCE(INC,0) <> 0`, and no lock row. */
  predicate PendingChild(contabil: map<int, Asset>, conc: map<LockKey, int>, n: int, exclude: int, id: int) {
    id in contabil && contabil[id].nrbrm == Some(n) && Coalesce(contabil[id].inc) != 0
    && id != exclude && LockKey(Ctb, id) !in conc
  }

  /** `find_children_ctb_ids`: the pending children in `ORDER BY ID`, cut at `limit`:
      the `limit` smallest of them, or all of them when there are fewer. */
  method FindChildrenCtbIds(contabil: map<int, Asset>, conc: map<LockKey, int>, n: int, exclude: int, limit: nat)
    returns (ids: seq<int>)
    ensures |ids| <= limit
    ensures forall i :: 0 <= i < |ids| ==> PendingChild(contabil, conc, n, exclude, ids[i])
    ensures forall i, j :: 0 <= i < j < |ids| ==> ids[i] < ids[j]
    ensures forall id :: PendingChild(contabil, conc, n, exclude, id) && id !in ids ==>
      |ids| == limit && forall i :: 0 <= i < |ids| ==> ids[i] < id
  {
    ghost var found := set id | id in contabil && PendingChild(contabil, conc, n, exclude, id);
    var all := SortIds(set id | id in contabil && PendingChild(contabil, conc, n, exclude, id));
    ids := Take(all, limit);
    forall i | 0 <= i < |ids| ensures PendingChild(contabil, conc, n, exclude, ids[i]) {
      assert ids[i] == all[i];
      assert all[i] in found;
    }
    forall id | PendingChild(contabil, conc, n, exclude, id) && id !in ids
      ensures |ids| == limit && forall i :: 0 <= i < |ids| ==> ids[i] < id
    {
      assert id in found;
      assert id in all;
      var k :| 0 <= k < |all| && all[k] == id;
      assert k >= |ids|;
    }
  }
}

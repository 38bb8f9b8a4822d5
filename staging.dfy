/**
 * The staging buffer of the manual reconciliation window: the pairs the
 * operator has picked but not yet committed, grouped in batches (one batch per
 * click or per automatic run), with reference counts per id and per grid row
 * that decide which ids may still be picked and which rows are highlighted.
 */
module Staging {
  import opened Wrappers
  import opened Tables
  import FamilyLedger
  import Ledger
  import Filters

  /** `role`: the pair the operator picked, or an accounting child staged with it. */
  datatype Role = Pai | Filho

  /** One pending entry: the two ids, the role, the grid rows it highlights and its batch. */
  datatype Entry = Entry(fis: int, ctb: int, role: Role, fisRow: int, ctbRow: int, batch: int)

  /** A grid row as the window reads it: its id (0 when it has none) and, on the
      accounting grid, its NRBRM and INC (0 when missing or unparsable). */
  datatype GridRow = GridRow(pk: int, nrbrm: int, inc: int)

  /** The four counted columns of an entry. */
  datatype Field = FisId | CtbId | FisRow | CtbRow

  function Get(e: Entry, f: Field): int {
    match f
    case FisId => e.fis
    case CtbId => e.ctb
    case FisRow => e.fisRow
    case CtbRow => e.ctbRow
  }

  /** One column of the pending list, in order. */
  function Proj(es: seq<Entry>, f: Field): seq<int> {
    seq(|es|, i requires 0 <= i < |es| => Get(es[i], f))
  }

  lemma ProjAppend(a: seq<Entry>, b: seq<Entry>, f: Field)
    ensures Proj(a + b, f) == Proj(a, f) + Proj(b, f)
  {
  }

  lemma ProjRemove(es: seq<Entry>, k: nat, f: Field)
    requires k < |es|
    ensures multiset(Proj(es[..k] + es[k + 1..], f)) == multiset(Proj(es, f)) - multiset{Get(es[k], f)}
  {
    assert es == es[..k] + [es[k]] + es[k + 1..];
    ProjAppend(es[..k] + [es[k]], es[k + 1..], f);
    ProjAppend(es[..k], [es[k]], f);
    ProjAppend(es[..k], es[k + 1..], f);
  }

  // ---------------------------------------------------------------------
  // reference counts

  /** A reference-count map: every value present in `ms`, with its multiplicity. */
  function Counts(ms: multiset<int>): map<int, nat> {
    map x | x in ms :: ms[x]
  }

  /** `d.get(x, 0)`. */
  function Count(m: map<int, nat>, x: int): nat { if x in m then m[x] else 0 }

  /** `d[x] = d.get(x, 0) + 1`. */
  function Inc(m: map<int, nat>, x: int): map<int, nat> { m[x := Count(m, x) + 1] }

  /** `d[x] = max(0, d.get(x, 0) - 1)`, and the key dropped when it reaches 0. */
  function Dec(m: map<int, nat>, x: int): map<int, nat> {
    var v := if Count(m, x) - 1 < 0 then 0 else Count(m, x) - 1;
    if v == 0 then m - {x} else m[x := v]
  }

  lemma IncCounts(ms: multiset<int>, x: int)
    ensures Inc(Counts(ms), x) == Counts(ms + multiset{x})
  {
    var l, r := Inc(Counts(ms), x), Counts(ms + multiset{x});
    assert l.Keys == r.Keys;
    forall y | y in l ensures l[y] == r[y] { }
  }

  lemma DecCounts(ms: multiset<int>, x: int)
    requires x in ms
    ensures Dec(Counts(ms), x) == Counts(ms - multiset{x})
  {
    var l, r := Dec(Counts(ms), x), Counts(ms - multiset{x});
    assert l.Keys == r.Keys;
    forall y | y in l ensures l[y] == r[y] { }
  }

  /** No accounting id occurs twice. */
  predicate CtbDistinct(es: seq<Entry>) {
    forall i, j :: 0 <= i < j < |es| ==> es[i].ctb != es[j].ctb
  }

  /** The `(fis_id, ctb_id)` pairs handed to the commit, in order. */
  function PairsOf(es: seq<Entry>): (r: seq<(int, int)>)
    ensures |r| == |es| && forall i :: 0 <= i < |es| ==> r[i] == (es[i].fis, es[i].ctb)
  {
    seq(|es|, i requires 0 <= i < |es| => (es[i].fis, es[i].ctb))
  }

  // ---------------------------------------------------------------------
  // the entries each operation appends or removes

  /** The `FILHO` entries a confirmed click appends: one per found child, in
      order, except those already staged (`staged`) or appended earlier. */
  function ChildEntries(kids: seq<int>, staged: seq<int>, f: int, rowF: int, rowC: int, batch: int): seq<Entry> {
    if kids == [] then []
    else
      var init, c := kids[..|kids| - 1], kids[|kids| - 1];
      ChildEntries(init, staged, f, rowF, rowC, batch)
        + (if c in staged || c in init then [] else [Entry(f, c, Filho, rowF, rowC, batch)])
  }

  /** The children appended are exactly the found ids not staged before, each once,
      all tied to the picked physical id, its rows and the batch. */
  lemma {:induction false} ChildEntriesSpec(kids: seq<int>, staged: seq<int>, f: int, rowF: int, rowC: int, batch: int)
    ensures var r := ChildEntries(kids, staged, f, rowF, rowC, batch);
      && (forall c :: c in Proj(r, CtbId) <==> c in kids && c !in staged)
      && CtbDistinct(r)
      && (forall i :: 0 <= i < |r| ==> r[i] == Entry(f, r[i].ctb, Filho, rowF, rowC, batch))
  {
    if kids != [] {
      var init, c := kids[..|kids| - 1], kids[|kids| - 1];
      ChildEntriesSpec(init, staged, f, rowF, rowC, batch);
      var a := ChildEntries(init, staged, f, rowF, rowC, batch);
      var b := if c in staged || c in init then [] else [Entry(f, c, Filho, rowF, rowC, batch)];
      ProjAppend(a, b, CtbId);
      assert kids == init + [c];
      assert forall c' :: c' in kids <==> c' in init || c' == c;
      if b == [] {
        assert Proj(b, CtbId) == [];
      } else {
        assert Proj(b, CtbId) == [c];
        assert c !in Proj(a, CtbId);
        forall i | 0 <= i < |a| ensures a[i].ctb != c {
          assert a[i].ctb == Proj(a, CtbId)[i];
        }
      }
    }
  }

  /** `_id_map`: each positive id of a grid, with the first row holding it. */
  function IdMap(grid: seq<GridRow>): (m: map<int, int>)
    ensures forall id :: id in m <==> id > 0 && exists i :: 0 <= i < |grid| && grid[i].pk == id
    ensures forall id :: id in m ==>
      (0 <= m[id] < |grid| && grid[m[id]].pk == id && forall j :: 0 <= j < m[id] ==> grid[j].pk != id)
  {
    if grid == [] then map[]
    else
      var init := grid[..|grid| - 1];
      var m := IdMap(init);
      var id := grid[|grid| - 1].pk;
      assert forall i :: 0 <= i < |init| ==> init[i] == grid[i];
      if id > 0 && id !in m then m[id := |grid| - 1] else m
  }

  /** The entries `_stage_auto02_pairs` appends to the cleared buffer: one `PAI`
      per pair whose ids are both on the grids and not yet taken by an earlier pair. */
  function AutoStage(pairs: seq<(int, int)>, mf: map<int, int>, mc: map<int, int>, batch: int): seq<Entry> {
    if pairs == [] then []
    else
      var prev := AutoStage(pairs[..|pairs| - 1], mf, mc, batch);
      var p := pairs[|pairs| - 1];
      if p.0 !in mf || p.1 !in mc || p.0 in Proj(prev, FisId) || p.1 in Proj(prev, CtbId) then prev
      else prev + [Entry(p.0, p.1, Pai, mf[p.0], mc[p.1], batch)]
  }

  /** Every entry is a given pair with both ids on the grids, at their first rows. */
  predicate FromGrids(r: seq<Entry>, pairs: seq<(int, int)>, mf: map<int, int>, mc: map<int, int>, batch: int) {
    forall i :: 0 <= i < |r| ==>
      (r[i].fis, r[i].ctb) in pairs && r[i].fis in mf && r[i].ctb in mc
      && r[i] == Entry(r[i].fis, r[i].ctb, Pai, mf[r[i].fis], mc[r[i].ctb], batch)
  }

  /** No physical and no accounting id occurs twice. */
  predicate IdsOnce(r: seq<Entry>) {
    forall i, j :: 0 <= i < j < |r| ==> r[i].fis != r[j].fis && r[i].ctb != r[j].ctb
  }

  /** A given pair with both ids on the grids is left out only because one of its ids is taken. */
  predicate NoneMissed(r: seq<Entry>, pairs: seq<(int, int)>, mf: map<int, int>, mc: map<int, int>) {
    forall p :: p in pairs && p.0 in mf && p.1 in mc ==> p.0 in Proj(r, FisId) || p.1 in Proj(r, CtbId)
  }

  /** Every staged entry is a given pair with both ids on the grids at their first
      rows; no id is staged twice; and a given pair with both ids on the grids is
      left out only because one of its ids was already staged. */
  lemma {:induction false} AutoStageSpec(pairs: seq<(int, int)>, mf: map<int, int>, mc: map<int, int>, batch: int)
    ensures FromGrids(AutoStage(pairs, mf, mc, batch), pairs, mf, mc, batch)
    ensures IdsOnce(AutoStage(pairs, mf, mc, batch))
    ensures NoneMissed(AutoStage(pairs, mf, mc, batch), pairs, mf, mc)
  {
    if pairs != [] {
      var init, p := pairs[..|pairs| - 1], pairs[|pairs| - 1];
      AutoStageSpec(init, mf, mc, batch);
      var prev := AutoStage(init, mf, mc, batch);
      assert pairs == init + [p];
      assert forall q :: q in pairs <==> q in init || q == p;
      if !(p.0 !in mf || p.1 !in mc || p.0 in Proj(prev, FisId) || p.1 in Proj(prev, CtbId)) {
        var e := Entry(p.0, p.1, Pai, mf[p.0], mc[p.1], batch);
        AutoStageGrow(prev, e);
        var r := prev + [e];
        assert AutoStage(pairs, mf, mc, batch) == r;
        forall i | 0 <= i < |r| ensures (r[i].fis, r[i].ctb) in pairs {
          if i < |prev| { assert r[i] == prev[i]; }
        }
      } else {
        assert AutoStage(pairs, mf, mc, batch) == prev;
      }
    }
  }

  /** Appending an entry with fresh ids keeps every id once and keeps the ids present. */
  lemma AutoStageGrow(prev: seq<Entry>, e: Entry)
    requires e.fis !in Proj(prev, FisId) && e.ctb !in Proj(prev, CtbId)
    ensures forall i :: 0 <= i < |prev| ==> prev[i].fis != e.fis && prev[i].ctb != e.ctb
    ensures forall x :: x in Proj(prev, FisId) ==> x in Proj(prev + [e], FisId)
    ensures forall x :: x in Proj(prev, CtbId) ==> x in Proj(prev + [e], CtbId)
    ensures e.fis in Proj(prev + [e], FisId) && e.ctb in Proj(prev + [e], CtbId)
  {
    ProjAppend(prev, [e], FisId);
    ProjAppend(prev, [e], CtbId);
    assert Proj(prev + [e], FisId)[|prev|] == e.fis && Proj(prev + [e], CtbId)[|prev|] == e.ctb;
    forall i | 0 <= i < |prev| ensures prev[i].fis != e.fis && prev[i].ctb != e.ctb {
      assert Proj(prev, FisId)[i] == prev[i].fis && Proj(prev, CtbId)[i] == prev[i].ctb;
    }
  }

  /** `pending` without the entries in `gone`, order kept. */
  function Drop(es: seq<Entry>, gone: set<Entry>): seq<Entry> {
    if es == [] then []
    else (if es[0] in gone then [] else [es[0]]) + Drop(es[1..], gone)
  }

  /** `Drop` keeps exactly the entries not in `gone`. */
  lemma {:induction false} DropSpec(es: seq<Entry>, gone: set<Entry>)
    ensures forall e :: e in Drop(es, gone) <==> e in es && e !in gone
  {
    if es != [] {
      DropSpec(es[1..], gone);
      assert forall e :: e in es <==> e == es[0] || e in es[1..];
    }
  }

  lemma {:induction false} DropNothing(es: seq<Entry>, gone: set<Entry>)
    requires forall e :: e in es ==> e !in gone
    ensures Drop(es, gone) == es
  {
    if es != [] {
      DropNothing(es[1..], gone);
      assert es == [es[0]] + es[1..];
    }
  }

  lemma {:induction false} DropIgnores(es: seq<Entry>, gone: set<Entry>, x: Entry)
    requires x !in es
    ensures Drop(es, gone + {x}) == Drop(es, gone)
  {
    if es != [] {
      DropIgnores(es[1..], gone, x);
    }
  }

  lemma DistinctTail(es: seq<Entry>)
    requires CtbDistinct(es) && es != []
    ensures CtbDistinct(es[1..]) && es[0] !in es[1..]
  {
    forall i, j | 0 <= i < j < |es[1..]| ensures es[1..][i].ctb != es[1..][j].ctb {
      assert es[1..][i] == es[i + 1] && es[1..][j] == es[j + 1];
    }
    forall j | 0 <= j < |es[1..]| ensures es[1..][j] != es[0] {
      assert es[1..][j] == es[j + 1];
    }
  }

  /** Removing the occurrence of `x` from the filtered list extends the filter by `x`. */
  lemma {:induction false} DropOne(es: seq<Entry>, gone: set<Entry>, x: Entry, k: nat)
    requires CtbDistinct(es) && x in es && x !in gone
    requires k < |Drop(es, gone)| && Drop(es, gone)[k] == x
    ensures Drop(es, gone)[..k] + Drop(es, gone)[k + 1..] == Drop(es, gone + {x})
  {
    DistinctTail(es);
    if es[0] == x {
      DropOneHead(es, gone, x, k);
    } else if es[0] in gone {
      assert Drop(es, gone) == Drop(es[1..], gone);
      assert Drop(es, gone + {x}) == Drop(es[1..], gone + {x});
      DropOne(es[1..], gone, x, k);
    } else {
      var d1 := Drop(es[1..], gone);
      assert Drop(es, gone) == [es[0]] + d1;
      DropOne(es[1..], gone, x, k - 1);
      DropKeep(es, gone, x, k);
    }
  }

  /** `DropOne` when `x` heads the list. */
  lemma DropOneHead(es: seq<Entry>, gone: set<Entry>, x: Entry, k: nat)
    requires es != [] && es[0] == x && x !in es[1..] && x !in gone
    requires k < |Drop(es, gone)| && Drop(es, gone)[k] == x
    ensures Drop(es, gone)[..k] + Drop(es, gone)[k + 1..] == Drop(es, gone + {x})
  {
    var d, d1 := Drop(es, gone), Drop(es[1..], gone);
    DropSpec(es[1..], gone);
    DropIgnores(es[1..], gone, x);
    assert d == [x] + d1;
    assert k == 0;
  }

  /** `DropOne` one step past a kept entry other than `x`. */
  lemma DropKeep(es: seq<Entry>, gone: set<Entry>, x: Entry, k: nat)
    requires es != [] && es[0] != x && es[0] !in gone && 0 < k
    requires k - 1 < |Drop(es[1..], gone)|
    requires Drop(es[1..], gone)[..k - 1] + Drop(es[1..], gone)[k..] == Drop(es[1..], gone + {x})
    ensures Drop(es, gone)[..k] + Drop(es, gone)[k + 1..] == Drop(es, gone + {x})
  {
    var d1 := Drop(es[1..], gone);
    assert Drop(es, gone) == [es[0]] + d1;
    assert Drop(es, gone + {x}) == [es[0]] + Drop(es[1..], gone + {x});
    ConsCut(es[0], d1, k);
  }

  /** Cutting position `k > 0` out of `[e] + s` cuts position `k - 1` out of `s`. */
  lemma ConsCut(e: Entry, s: seq<Entry>, k: nat)
    requires 0 < k <= |s|
    ensures ([e] + s)[..k] + ([e] + s)[k + 1..] == [e] + (s[..k - 1] + s[k..])
  {
    assert ([e] + s)[..k] == [e] + s[..k - 1];
    assert ([e] + s)[k + 1..] == s[k..];
  }

  /** The highest batch among the pending entries (0 for none). */
  function MaxBatch(es: seq<Entry>): (b: int)
    ensures es == [] ==> b == 0
    ensures forall i :: 0 <= i < |es| ==> es[i].batch <= b
    ensures es != [] ==> exists i :: 0 <= i < |es| && es[i].batch == b
  {
    if es == [] then 0
    else if |es| == 1 then es[0].batch
    else
      var m := MaxBatch(es[1..]);
      assert forall i :: 1 <= i < |es| ==> es[i] == es[1..][i - 1];
      if es[0].batch > m then es[0].batch else m
  }

  /** The entries of the last batch. */
  function LastBatch(es: seq<Entry>): set<Entry> {
    set e | e in es && e.batch == MaxBatch(es)
  }

  /**
   * Undoing right after a click restores the list as it was before the click:
   * every earlier entry has a lower batch than the appended ones.
   */
  lemma UndoAfterStage(before: seq<Entry>, added: seq<Entry>, b: int)
    requires added != [] && forall i :: 0 <= i < |added| ==> added[i].batch == b
    requires forall i :: 0 <= i < |before| ==> before[i].batch < b
    ensures Drop(before + added, LastBatch(before + added)) == before
  {
    var es := before + added;
    MaxOfAppend(before, added, b);
    var gone := LastBatch(es);
    DropAppend(before, added, gone);
    forall e | e in before ensures e !in gone {
      assert e.batch < b;
    }
    DropNothing(before, gone);
    forall e | e in added ensures e in gone {
      assert e in es;
    }
    DropAll(added, gone);
  }

  lemma MaxOfAppend(before: seq<Entry>, added: seq<Entry>, b: int)
    requires added != [] && forall i :: 0 <= i < |added| ==> added[i].batch == b
    requires forall i :: 0 <= i < |before| ==> before[i].batch < b
    ensures MaxBatch(before + added) == b
  {
    var es := before + added;
    assert es[|before|] == added[0];
    assert forall i :: 0 <= i < |es| ==> es[i].batch <= b by {
      forall i | 0 <= i < |es| ensures es[i].batch <= b {
        if i < |before| { assert es[i] == before[i]; } else { assert es[i] == added[i - |before|]; }
      }
    }
  }

  lemma {:induction false} DropAll(es: seq<Entry>, gone: set<Entry>)
    requires forall e :: e in es ==> e in gone
    ensures Drop(es, gone) == []
  {
    if es != [] {
      DropAll(es[1..], gone);
    }
  }

  lemma {:induction false} DropAppend(a: seq<Entry>, b: seq<Entry>, gone: set<Entry>)
    ensures Drop(a + b, gone) == Drop(a, gone) + Drop(b, gone)
  {
    if a != [] {
      DropAppend(a[1..], b, gone);
      assert (a + b)[1..] == a[1..] + b;
    } else {
      assert a + b == b;
    }
  }

  /** Every entry has two non-zero ids and a batch in `1..batchSeq`, and no
      accounting id is staged twice. */
  predicate EntriesOk(es: seq<Entry>, batchSeq: int) {
    && (forall i :: 0 <= i < |es| ==> es[i].fis != 0 && es[i].ctb != 0 && 1 <= es[i].batch <= batchSeq)
    && CtbDistinct(es)
  }

  lemma CountPush(es: seq<Entry>, e: Entry, f: Field)
    ensures Counts(multiset(Proj(es + [e], f))) == Inc(Counts(multiset(Proj(es, f))), Get(e, f))
  {
    ProjAppend(es, [e], f);
    IncCounts(multiset(Proj(es, f)), Get(e, f));
  }

  lemma CountRemove(es: seq<Entry>, k: nat, f: Field)
    requires k < |es|
    ensures Counts(multiset(Proj(es[..k] + es[k + 1..], f))) == Dec(Counts(multiset(Proj(es, f))), Get(es[k], f))
  {
    ProjRemove(es, k, f);
    assert Proj(es, f)[k] == Get(es[k], f);
    DecCounts(multiset(Proj(es, f)), Get(es[k], f));
  }

  /** Each counter holds, for every value present, the number of pending entries
      with it; and the entries are well formed. */
  ghost predicate ValidState(es: seq<Entry>, batchSeq: int,
                             fi: map<int, nat>, ci: map<int, nat>, fr: map<int, nat>, cr: map<int, nat>) {
    && fi == Counts(multiset(Proj(es, FisId)))
    && ci == Counts(multiset(Proj(es, CtbId)))
    && fr == Counts(multiset(Proj(es, FisRow)))
    && cr == Counts(multiset(Proj(es, CtbRow)))
    && batchSeq >= 0
    && EntriesOk(es, batchSeq)
  }

  lemma PushKeeps(es: seq<Entry>, e: Entry, batchSeq: int,
                  fi: map<int, nat>, ci: map<int, nat>, fr: map<int, nat>, cr: map<int, nat>)
    requires ValidState(es, batchSeq, fi, ci, fr, cr)
    requires e.fis != 0 && e.ctb != 0 && 1 <= e.batch <= batchSeq && e.ctb !in Proj(es, CtbId)
    ensures ValidState(es + [e], batchSeq, Inc(fi, e.fis), Inc(ci, e.ctb), Inc(fr, e.fisRow), Inc(cr, e.ctbRow))
  {
    CountPush(es, e, FisId);
    CountPush(es, e, CtbId);
    CountPush(es, e, FisRow);
    CountPush(es, e, CtbRow);
    EntriesPush(es, e, batchSeq);
  }

  lemma EntriesPush(es: seq<Entry>, e: Entry, batchSeq: int)
    requires EntriesOk(es, batchSeq) && e.fis != 0 && e.ctb != 0 && 1 <= e.batch <= batchSeq
    requires e.ctb !in Proj(es, CtbId)
    ensures EntriesOk(es + [e], batchSeq)
  {
    forall i | 0 <= i < |es| ensures es[i].ctb != e.ctb {
      assert Proj(es, CtbId)[i] == es[i].ctb;
    }
    assert forall i :: 0 <= i < |es| ==> (es + [e])[i] == es[i];
  }

  lemma RemoveKeeps(es: seq<Entry>, k: nat, batchSeq: int,
                    fi: map<int, nat>, ci: map<int, nat>, fr: map<int, nat>, cr: map<int, nat>)
    requires ValidState(es, batchSeq, fi, ci, fr, cr) && k < |es|
    ensures ValidState(es[..k] + es[k + 1..], batchSeq,
                       Dec(fi, es[k].fis), Dec(ci, es[k].ctb), Dec(fr, es[k].fisRow), Dec(cr, es[k].ctbRow))
  {
    CountRemove(es, k, FisId);
    CountRemove(es, k, CtbId);
    CountRemove(es, k, FisRow);
    CountRemove(es, k, CtbRow);
    EntriesRemove(es, k, batchSeq);
  }

  lemma EntriesRemove(es: seq<Entry>, k: nat, batchSeq: int)
    requires EntriesOk(es, batchSeq) && k < |es|
    ensures EntriesOk(es[..k] + es[k + 1..], batchSeq)
  {
    var r := es[..k] + es[k + 1..];
    assert forall i :: 0 <= i < |r| ==> r[i] == if i < k then es[i] else es[i + 1];
  }

  /** A counter is positive exactly for the values present. */
  lemma CountPositive(es: seq<Entry>, f: Field, x: int)
    ensures Count(Counts(multiset(Proj(es, f))), x) > 0 <==> x in Proj(es, f)
  {
  }

  /** `[it for it in pending if it["batch"] == b]`. */
  function OfBatch(es: seq<Entry>, b: int): seq<Entry> {
    if es == [] then []
    else (if es[0].batch == b then [es[0]] else []) + OfBatch(es[1..], b)
  }

  lemma {:induction false} OfBatchSpec(es: seq<Entry>, b: int)
    requires CtbDistinct(es)
    ensures forall e :: e in OfBatch(es, b) <==> e in es && e.batch == b
    ensures CtbDistinct(OfBatch(es, b))
  {
    if es != [] {
      DistinctTail(es);
      OfBatchSpec(es[1..], b);
      var t := OfBatch(es[1..], b);
      assert forall e :: e in es <==> e == es[0] || e in es[1..];
      if es[0].batch == b {
        forall j | 0 <= j < |t| ensures t[j].ctb != es[0].ctb {
          assert t[j] in es[1..];
          var m :| 0 <= m < |es[1..]| && es[1..][m] == t[j];
          assert es[1..][m] == es[m + 1];
        }
        var r := [es[0]] + t;
        forall i, j | 0 <= i < j < |r| ensures r[i].ctb != r[j].ctb {
          if i > 0 { assert r[i] == t[i - 1] && r[j] == t[j - 1]; } else { assert r[j] == t[j - 1]; }
        }
      }
    }
  }

  /** One step of the children loop: a found id is already staged exactly when it
      was staged before or found earlier, and the fold grows accordingly. */
  lemma ChildStep(kids: seq<int>, i: nat, staged: seq<int>, base: seq<Entry>, f: int, rowF: int, rowC: int, batch: int)
    requires i < |kids| && Proj(base, CtbId) == staged
    ensures var done := ChildEntries(kids[..i], staged, f, rowF, rowC, batch);
      && (kids[i] in Proj(base + done, CtbId) <==> kids[i] in staged || kids[i] in kids[..i])
      && ChildEntries(kids[..i + 1], staged, f, rowF, rowC, batch)
         == done + (if kids[i] in staged || kids[i] in kids[..i] then [] else [Entry(f, kids[i], Filho, rowF, rowC, batch)])
  {
    var done := ChildEntries(kids[..i], staged, f, rowF, rowC, batch);
    var next := kids[..i + 1];
    assert next[..|next| - 1] == kids[..i] && next[|next| - 1] == kids[i];
    ChildEntriesSpec(kids[..i], staged, f, rowF, rowC, batch);
    ProjAppend(base, done, CtbId);
  }

  /** One step of the undo loop: the next entry of the last batch is still in the list. */
  lemma UndoStep(orig: seq<Entry>, gone: set<Entry>, toRemove: seq<Entry>, i: nat)
    requires i < |toRemove| && CtbDistinct(toRemove) && forall e :: e in toRemove ==> e in orig
    requires forall e :: e in gone <==> e in toRemove[..i]
    ensures toRemove[i] !in gone && toRemove[i] in Drop(orig, gone)
    ensures forall e :: e in gone + {toRemove[i]} <==> e in toRemove[..i + 1]
  {
    forall j | 0 <= j < i ensures toRemove[j] != toRemove[i] {
      assert toRemove[j].ctb != toRemove[i].ctb;
    }
    assert toRemove[..i + 1] == toRemove[..i] + [toRemove[i]];
    DropSpec(orig, gone);
  }

  /** After the undo loop the removed set is the whole last batch. */
  lemma UndoDone(orig: seq<Entry>, gone: set<Entry>, toRemove: seq<Entry>, last: int)
    requires last == MaxBatch(orig)
    requires forall e :: e in toRemove <==> e in orig && e.batch == last
    requires forall e :: e in gone <==> e in toRemove[..|toRemove|]
    ensures gone == LastBatch(orig)
    ensures forall e :: e in Drop(orig, gone) <==> e in orig && e.batch != last
  {
    assert toRemove[..|toRemove|] == toRemove;
    DropSpec(orig, gone);
  }

  /** `list.index`: the first position of `x`, or -1. */
  function IndexOf(es: seq<Entry>, x: Entry): (k: int)
    ensures -1 <= k < |es|
    ensures k >= 0 ==> es[k] == x
    ensures k < 0 ==> x !in es
  {
    if es == [] then -1
    else if es[0] == x then 0
    else
      var k := IndexOf(es[1..], x);
      if k < 0 then -1 else k + 1
  }

  /** `_id_map`, row by row. */
  method IdMapOf(grid: seq<GridRow>) returns (m: map<int, int>)
    ensures m == IdMap(grid)
  {
    m := map[];
    var i := 0;
    while i < |grid|
      invariant 0 <= i <= |grid|
      invariant m == IdMap(grid[..i])
    {
      assert grid[..i + 1][..i] == grid[..i];
      var rid := grid[i].pk;
      if rid > 0 && rid !in m {
        m := m[rid := i];
      }
      i := i + 1;
    }
    assert grid[..i] == grid;
  }

  /** Why `_create_pair_rows` refuses a click: an empty grid, a missing id, or
      an id already staged. */
  predicate Refused(es: seq<Entry>, gridF: seq<GridRow>, gridC: seq<GridRow>, rowF: int, rowC: int)
    requires |gridF| > 0 && |gridC| > 0 ==> 0 <= rowF < |gridF| && 0 <= rowC < |gridC|
  {
    || |gridF| == 0 || |gridC| == 0
    || gridF[rowF].pk == 0 || gridC[rowC].pk == 0
    || gridF[rowF].pk in Proj(es, FisId)
    || gridC[rowC].pk in Proj(es, CtbId)
  }

  // ---------------------------------------------------------------------
  // the buffer

  class StagingBuffer {
    /** `pending_pairs`. */
    var pending: seq<Entry>
    /** `_batch_seq`: the number of the last batch handed out. */
    var batchSeq: int
    var fisIdCount: map<int, nat>
    var ctbIdCount: map<int, nat>
    var fisRowCount: map<int, nat>
    var ctbRowCount: map<int, nat>

    /** The buffer invariant: the counters agree with the list, every entry has
        two non-zero ids and a batch already handed out, and no accounting id
        is staged twice. */
    ghost predicate Valid()
      reads this
    {
      ValidState(pending, batchSeq, fisIdCount, ctbIdCount, fisRowCount, ctbRowCount)
    }

    constructor ()
      ensures Valid() && pending == [] && batchSeq == 0
    {
      pending := [];
      batchSeq := 0;
      fisIdCount, ctbIdCount, fisRowCount, ctbRowCount := map[], map[], map[], map[];
    }

    /** Appends one entry and counts it. */
    method Push(e: Entry)
      requires Valid() && e.fis != 0 && e.ctb != 0 && 1 <= e.batch <= batchSeq
      requires e.ctb !in Proj(pending, CtbId)
      modifies this
      ensures Valid() && pending == old(pending) + [e] && batchSeq == old(batchSeq)
    {
      PushKeeps(pending, e, batchSeq, fisIdCount, ctbIdCount, fisRowCount, ctbRowCount);
      pending := pending + [e];
      fisIdCount := Inc(fisIdCount, e.fis);
      ctbIdCount := Inc(ctbIdCount, e.ctb);
      fisRowCount := Inc(fisRowCount, e.fisRow);
      ctbRowCount := Inc(ctbRowCount, e.ctbRow);
    }

    /** Removes the entry at `k` and uncounts it. */
    method RemoveAt(k: nat)
      requires Valid() && k < |pending|
      modifies this
      ensures Valid() && pending == old(pending)[..k] + old(pending)[k + 1..] && batchSeq == old(batchSeq)
    {
      var e := pending[k];
      RemoveKeeps(pending, k, batchSeq, fisIdCount, ctbIdCount, fisRowCount, ctbRowCount);
      pending := pending[..k] + pending[k + 1..];
      fisIdCount := Dec(fisIdCount, e.fis);
      ctbIdCount := Dec(ctbIdCount, e.ctb);
      fisRowCount := Dec(fisRowCount, e.fisRow);
      ctbRowCount := Dec(ctbRowCount, e.ctbRow);
    }

    /** `_clear_pending`: empties the list and every counter; the batch number is kept. */
    method ClearPending()
      requires Valid()
      modifies this
      ensures Valid() && pending == [] && batchSeq == old(batchSeq)
      ensures fisIdCount == map[] && ctbIdCount == map[] && fisRowCount == map[] && ctbRowCount == map[]
    {
      pending := [];
      fisIdCount, ctbIdCount, fisRowCount, ctbRowCount := map[], map[], map[], map[];
    }

    /**
     * `_create_pair_rows`: stages the picked pair as a new batch. When the
     * accounting row is a parent (NRBRM set, INC 0) its pending children are
     * looked up and, if the operator accepts, staged as `FILHO` entries of the
     * same batch. `kids` is the accepted child list (empty when none).
     */
    method CreatePairRows(gridF: seq<GridRow>, gridC: seq<GridRow>, rowF: int, rowC: int,
                          contabil: map<int, Asset>, conc: map<LockKey, int>, queryFault: bool, accept: bool)
      returns (ok: bool, kids: seq<int>)
      requires Valid() && 0 !in contabil
      requires |gridF| > 0 && |gridC| > 0 ==> 0 <= rowF < |gridF| && 0 <= rowC < |gridC|
      modifies this
      ensures Valid()
      ensures !ok <==> Refused(old(pending), gridF, gridC, rowF, rowC)
      ensures !ok ==> unchanged(this) && kids == []
      ensures ok ==>
        var idF, c := gridF[rowF].pk, gridC[rowC];
        && batchSeq == old(batchSeq) + 1
        && pending == old(pending) + [Entry(idF, c.pk, Pai, rowF, rowC, batchSeq)]
             + ChildEntries(kids, Proj(old(pending), CtbId) + [c.pk], idF, rowF, rowC, batchSeq)
        && (kids != [] ==> c.nrbrm != 0 && c.inc == 0 && !queryFault && accept)
        && (forall i :: 0 <= i < |kids| ==> FamilyLedger.PendingChild(contabil, conc, c.nrbrm, c.pk, kids[i]))
        && (c.nrbrm != 0 && c.inc == 0 && !queryFault && accept ==>
              forall id :: FamilyLedger.PendingChild(contabil, conc, c.nrbrm, c.pk, id) && id !in kids ==> |kids| == 2000)
    {
      ok, kids := false, [];
      if |gridF| == 0 || |gridC| == 0 {
        return;
      }
      var idF, idC := gridF[rowF].pk, gridC[rowC].pk;
      if idF == 0 || idC == 0 {
        return;
      }
      CountPositive(pending, FisId, idF);
      CountPositive(pending, CtbId, idC);
      if Count(fisIdCount, idF) > 0 {
        return;
      }
      if Count(ctbIdCount, idC) > 0 {
        return;
      }
      batchSeq := batchSeq + 1;
      var batch := batchSeq;
      ghost var staged := Proj(pending, CtbId) + [idC];
      Push(Entry(idF, idC, Pai, rowF, rowC, batch));
      ghost var base := pending;
      ProjAppend(old(pending), [Entry(idF, idC, Pai, rowF, rowC, batch)], CtbId);
      assert Proj(base, CtbId) == staged;
      kids := StageChildren(gridC[rowC], idF, rowF, rowC, contabil, conc, queryFault, accept, staged, base);
      ok := true;
    }

    /** The children half of `_create_pair_rows`: look up the pending children
        of a parent accounting row and stage them when the user accepts. */
    method StageChildren(c: GridRow, idF: int, rowF: int, rowC: int,
                         contabil: map<int, Asset>, conc: map<LockKey, int>, queryFault: bool, accept: bool,
                         ghost staged: seq<int>, ghost base: seq<Entry>)
      returns (kids: seq<int>)
      requires Valid() && batchSeq >= 1 && idF != 0 && 0 !in contabil
      requires pending == base && Proj(base, CtbId) == staged
      modifies this
      ensures Valid() && batchSeq == old(batchSeq)
      ensures pending == base + ChildEntries(kids, staged, idF, rowF, rowC, batchSeq)
      ensures kids != [] ==> c.nrbrm != 0 && c.inc == 0 && !queryFault && accept
      ensures forall i :: 0 <= i < |kids| ==> FamilyLedger.PendingChild(contabil, conc, c.nrbrm, c.pk, kids[i])
      ensures c.nrbrm != 0 && c.inc == 0 && !queryFault && accept ==>
                forall id :: FamilyLedger.PendingChild(contabil, conc, c.nrbrm, c.pk, id) && id !in kids ==> |kids| == 2000
    {
      kids := [];
      if c.nrbrm != 0 && c.inc == 0 {
        var found: seq<int> := [];
        if !queryFault {
          found := FamilyLedger.FindChildrenCtbIds(contabil, conc, c.nrbrm, c.pk, 2000);
        }
        if found != [] && accept {
          kids := found;
          AddChildren(kids, staged, base, idF, rowF, rowC, batchSeq);
        }
      }
    }

    /** The loop of `_create_pair_rows` over the accepted children. */
    method AddChildren(kids: seq<int>, ghost staged: seq<int>, ghost base: seq<Entry>, idF: int, rowF: int, rowC: int, batch: int)
      requires Valid() && batchSeq == batch >= 1 && idF != 0 && 0 !in kids
      requires pending == base && Proj(base, CtbId) == staged
      modifies this
      ensures Valid() && batchSeq == batch
      ensures pending == base + ChildEntries(kids, staged, idF, rowF, rowC, batch)
    {
      var i := 0;
      while i < |kids|
        invariant 0 <= i <= |kids|
        invariant Valid() && batchSeq == batch
        invariant pending == base + ChildEntries(kids[..i], staged, idF, rowF, rowC, batch)
      {
        var cid := kids[i];
        ChildStep(kids, i, staged, base, idF, rowF, rowC, batch);
        CountPositive(pending, CtbId, cid);
        i := i + 1;
        if Count(ctbIdCount, cid) > 0 {
          continue;
        }
        Push(Entry(idF, cid, Filho, rowF, rowC, batch));
      }
      assert kids[..i] == kids;
    }

    /**
     * `_stage_auto02_pairs`: clears the buffer, then stages, as one new batch,
     * every pair whose ids are on the grids and not yet taken by an earlier pair.
     * An empty result or an empty grid leaves the buffer empty and uses no batch.
     */
    method StageAuto02Pairs(pairs: seq<(int, int)>, gridF: seq<GridRow>, gridC: seq<GridRow>)
      requires Valid()
      modifies this
      ensures Valid()
      ensures pairs == [] || gridF == [] || gridC == [] ==> pending == [] && batchSeq == old(batchSeq)
      ensures pairs != [] && gridF != [] && gridC != [] ==>
        batchSeq == old(batchSeq) + 1 && pending == AutoStage(pairs, IdMap(gridF), IdMap(gridC), batchSeq)
    {
      ClearPending();
      if pairs == [] || gridF == [] || gridC == [] {
        return;
      }
      var mf := IdMapOf(gridF);
      var mc := IdMapOf(gridC);
      batchSeq := batchSeq + 1;
      var batch := batchSeq;
      var i := 0;
      while i < |pairs|
        invariant 0 <= i <= |pairs|
        invariant Valid() && batchSeq == batch
        invariant pending == AutoStage(pairs[..i], mf, mc, batch)
      {
        assert pairs[..i + 1][..i] == pairs[..i];
        var f, c := pairs[i].0, pairs[i].1;
        i := i + 1;
        if f !in mf || c !in mc {
          continue;
        }
        CountPositive(pending, FisId, f);
        CountPositive(pending, CtbId, c);
        if Count(fisIdCount, f) > 0 {
          continue;
        }
        if Count(ctbIdCount, c) > 0 {
          continue;
        }
        Push(Entry(f, c, Pai, mf[f], mc[c], batch));
      }
      assert pairs[..i] == pairs;
    }

    /**
     * `_undo_last_pending`: removes exactly the entries of the highest batch,
     * keeping the others in order; an empty buffer is left as it is.
     */
    method UndoLastPending()
      requires Valid()
      modifies this
      ensures Valid() && batchSeq == old(batchSeq)
      ensures pending == Drop(old(pending), LastBatch(old(pending)))
      ensures forall e :: e in pending <==> e in old(pending) && e.batch != MaxBatch(old(pending))
    {
      ghost var orig := pending;
      if pending == [] {
        return;
      }
      var last := MaxBatch(pending);
      var toRemove := OfBatch(pending, last);
      OfBatchSpec(orig, last);
      ghost var gone: set<Entry> := {};
      DropNothing(orig, gone);
      var i := 0;
      while i < |toRemove|
        invariant 0 <= i <= |toRemove|
        invariant Valid() && batchSeq == old(batchSeq)
        invariant forall e :: e in gone <==> e in toRemove[..i]
        invariant pending == Drop(orig, gone)
      {
        var it := toRemove[i];
        UndoStep(orig, gone, toRemove, i);
        var k := IndexOf(pending, it);
        if k >= 0 {
          DropOne(orig, gone, it, k);
          RemoveAt(k);
        }
        gone := gone + {it};
        i := i + 1;
      }
      UndoDone(orig, gone, toRemove, last);
    }

    /** `_remove_selected_pending`: drops the selected entry and uncounts it; no
        selection or an index out of range changes nothing. */
    method RemoveSelectedPending(sel: Option<int>)
      requires Valid()
      modifies this
      ensures Valid() && batchSeq == old(batchSeq)
      ensures sel.None? || sel.value < 0 || sel.value >= |old(pending)| ==> unchanged(this)
      ensures sel.Some? && 0 <= sel.value < |old(pending)| ==>
        pending == old(pending)[..sel.value] + old(pending)[sel.value + 1..]
    {
      if sel.None? {
        return;
      }
      var idx := sel.value;
      if idx < 0 || idx >= |pending| {
        return;
      }
      RemoveAt(idx);
    }

    /**
     * `_save_pairs`: commits every staged pair with the family rule and origin
     * MANUAL. A failed commit keeps the buffer; a successful one empties it.
     * `saved` is the number of ledger rows written, None when nothing was written.
     */
    method SaveStaged(db: Db, fault: bool) returns (saved: Option<nat>)
      requires Valid()
      modifies this, db
      ensures Valid()
      ensures old(pending) == [] || fault ==> saved == None && unchanged(this) && unchanged(db)
      ensures old(pending) != [] && !fault ==>
        var b := FamilyLedger.FamilySave(
          Ledger.Ctx(old(db.fisico), old(db.contabil), old(db.conciliados), "MANUAL", Filters.ChildStatusForOrigin("MANUAL")),
          NextParId(old(db.depara)), PairsOf(old(pending)));
        && saved == Some(|b.rows|)
        && db.depara == old(db.depara) + b.rows
        && db.conciliados == InsertOrIgnore(old(db.conciliados), b.locks)
        && pending == [] && batchSeq == old(batchSeq)
        && fisIdCount == map[] && ctbIdCount == map[] && fisRowCount == map[] && ctbRowCount == map[]
    {
      if pending == [] {
        return None;
      }
      var pairs := PairsOf(pending);
      saved := FamilyLedger.SaveManualPairs(db, pairs, fault);
      if saved.None? {
        return;
      }
      ClearPending();
    }
  }
}

/**
 * `undo_pairs`: reversing reconciliations by key. A key `(fis, ctb)` with
 * both sides positive names an exact pair, `(fis, 0)` everything of a physical
 * id and `(0, ctb)` everything of an accounting id; a parent accounting id
 * (NRBRM > 0, INC = 0) also takes its NRBRM family along.
 */
module Undo {
  import opened Wrappers
  import opened Tables

  /** The four counters `undo_pairs` returns. */
  datatype UndoCounts = UndoCounts(removedDepara: nat, removedConc: nat, unmarkedFis: nat, unmarkedCtb: nat)

  const NoCounts := UndoCounts(0, 0, 0, 0)

  // ---------------------------------------------------------------------
  // keys

  /** The keys in first-occurrence order, without repeats and without keys
      whose sides are both empty. */
  function NormKeys(pairs: seq<(int, int)>): seq<(int, int)> {
    if pairs == [] then []
    else
      var init, p := pairs[..|pairs| - 1], pairs[|pairs| - 1];
      if p in init || (p.0 <= 0 && p.1 <= 0) then NormKeys(init) else NormKeys(init) + [p]
  }

  /** Every key is a requested pair with a positive side, each appears once,
      and every requested pair with a positive side is a key. */
  lemma {:induction false} NormKeysSpec(pairs: seq<(int, int)>)
    ensures var ks := NormKeys(pairs);
      && (forall k :: k in ks <==> k in pairs && (k.0 > 0 || k.1 > 0))
      && forall i, j :: 0 <= i < j < |ks| ==> ks[i] != ks[j]
  {
    if pairs != [] {
      var init, p := pairs[..|pairs| - 1], pairs[|pairs| - 1];
      NormKeysSpec(init);
      assert forall k :: k in pairs <==> k in init || k == p;
    }
  }

  /** The normalisation loop of `undo_pairs`. */
  method NormalizeKeys(pairs: seq<(int, int)>) returns (keys: seq<(int, int)>)
    ensures keys == NormKeys(pairs)
  {
    keys := [];
    var seen: set<(int, int)> := {};
    var i := 0;
    while i < |pairs|
      invariant 0 <= i <= |pairs|
      invariant keys == NormKeys(pairs[..i])
      invariant forall k :: k in seen <==> k in pairs[..i]
    {
      assert pairs[..i + 1][..i] == pairs[..i];
      var key := pairs[i];
      i := i + 1;
      if key in seen {
        continue;
      }
      seen := seen + {key};
      if key.0 <= 0 && key.1 <= 0 {
        continue;
      }
      keys := keys + [key];
    }
    assert pairs[..i] == pairs;
  }

  // ---------------------------------------------------------------------
  // what a key reaches

  /** The NRBRM of an accounting id that is a parent (NRBRM > 0, INC = 0). */
  function ParentNrbrm(contabil: map<int, Asset>, c: int): Option<int> {
    if c in contabil && Coalesce(contabil[c].nrbrm) > 0 && Coalesce(contabil[c].inc) == 0
    then Some(Coalesce(contabil[c].nrbrm)) else None
  }

  /** The ledger rows a key selects. */
  predicate Matches(contabil: map<int, Asset>, key: (int, int), r: ParRow) {
    var (f, c) := key;
    var fam := ParentNrbrm(contabil, c);
    if f > 0 && c > 0 then
      (r.fis == f && r.ctb == c) || (fam.Some? && r.nrbrm == fam.value && r.fis == f)
    else if f > 0 then
      r.fis == f
    else
      r.ctb == c || (fam.Some? && r.nrbrm == fam.value)
  }

  function KeyParIds(depara: seq<ParRow>, contabil: map<int, Asset>, key: (int, int)): set<int> {
    set r | r in depara && Matches(contabil, key, r) :: r.parId
  }

  /** `par_ids`: the union over the keys. */
  function ParIds(depara: seq<ParRow>, contabil: map<int, Asset>, keys: seq<(int, int)>): set<int> {
    if keys == [] then {}
    else ParIds(depara, contabil, keys[..|keys| - 1]) + KeyParIds(depara, contabil, keys[|keys| - 1])
  }

  lemma {:induction false} ParIdsCover(depara: seq<ParRow>, contabil: map<int, Asset>, keys: seq<(int, int)>)
    ensures forall key, r :: key in keys && r in depara && Matches(contabil, key, r) ==> r.parId in ParIds(depara, contabil, keys)
    ensures forall p :: p in ParIds(depara, contabil, keys) ==>
      exists key, r :: key in keys && r in depara && Matches(contabil, key, r) && r.parId == p
  {
    if keys != [] {
      ParIdsCover(depara, contabil, keys[..|keys| - 1]);
      assert forall key :: key in keys <==> key in keys[..|keys| - 1] || key == keys[|keys| - 1];
    }
  }

  /** `fis_ids`: the requested physical ids and those of the removed rows (positive ones). */
  function FisIds(depara: seq<ParRow>, keys: seq<(int, int)>, parIds: set<int>): set<int> {
    (set k | k in keys && k.0 > 0 :: k.0) + (set r | r in depara && r.parId in parIds && r.fis > 0 :: r.fis)
  }

  /** `ctb_ids`: the requested accounting ids and those of the removed rows (positive ones). */
  function CtbIds(depara: seq<ParRow>, keys: seq<(int, int)>, parIds: set<int>): set<int> {
    (set k | k in keys && k.1 > 0 :: k.1) + (set r | r in depara && r.parId in parIds && r.ctb > 0 :: r.ctb)
  }

  /** `DELETE FROM depara WHERE PAR_ID IN (...)`: the other rows, in order. */
  function Without(depara: seq<ParRow>, parIds: set<int>): (r: seq<ParRow>)
    ensures forall x :: x in r <==> x in depara && x.parId !in parIds
    ensures |r| <= |depara|
  {
    if depara == [] then []
    else
      var init, last := depara[..|depara| - 1], depara[|depara| - 1];
      assert forall x :: x in depara <==> x in init || x == last;
      Without(init, parIds) + (if last.parId in parIds then [] else [last])
  }

  /** The three `DELETE FROM conciliados`: by `PAR_ID`, by physical id, by accounting id. */
  function Release(conc: map<LockKey, int>, parIds: set<int>, fis: set<int>, ctb: set<int>): map<LockKey, int> {
    map k | k in conc && conc[k] !in parIds && !(k.side == Fis && k.id in fis) && !(k.side == Ctb && k.id in ctb) :: conc[k]
  }

  /** `UPDATE ... SET FRAG=NULL WHERE ID IN (...)` (null text is ""). */
  function ClearFrag(table: map<int, Asset>, ids: set<int>): map<int, Asset> {
    map id | id in table :: if id in ids then table[id].(frag := "") else table[id]
  }

  // ---------------------------------------------------------------------
  // properties

  /** After an undo no lock row is left for a requested id, for an id of a removed
      ledger row, or pointing at a removed `PAR_ID`; the other lock rows stay. */
  lemma ReleaseSpec(depara: seq<ParRow>, contabil: map<int, Asset>, conc: map<LockKey, int>, keys: seq<(int, int)>)
    ensures var p := ParIds(depara, contabil, keys);
      var after := Release(conc, p, FisIds(depara, keys, p), CtbIds(depara, keys, p));
      && (forall k :: k in keys && k.0 > 0 ==> LockKey(Fis, k.0) !in after)
      && (forall k :: k in keys && k.1 > 0 ==> LockKey(Ctb, k.1) !in after)
      && (forall r :: r in depara && r.parId in p && r.fis > 0 ==> LockKey(Fis, r.fis) !in after)
      && (forall r :: r in depara && r.parId in p && r.ctb > 0 ==> LockKey(Ctb, r.ctb) !in after)
      && (forall l :: l in after ==> after[l] !in p && l in conc && conc[l] == after[l])
  {
  }

  /** A parent accounting id takes its family along: with the physical id of the
      key in exact mode, with any physical id in accounting-only mode. */
  lemma FamilyRemoved(depara: seq<ParRow>, contabil: map<int, Asset>, keys: seq<(int, int)>, f: int, c: int, n: int)
    requires (f, c) in keys && c > 0 && ParentNrbrm(contabil, c) == Some(n)
    ensures forall r :: r in Without(depara, ParIds(depara, contabil, keys)) ==>
      !(r.nrbrm == n && (f <= 0 || r.fis == f))
  {
    ParIdsCover(depara, contabil, keys);
  }

  /** The rows a key selects in the remaining ledger were all removed already. */
  lemma NothingLeft(depara: seq<ParRow>, contabil: map<int, Asset>, keys: seq<(int, int)>, contabil': map<int, Asset>)
    requires contabil'.Keys == contabil.Keys
    requires forall id :: id in contabil ==> contabil'[id].nrbrm == contabil[id].nrbrm && contabil'[id].inc == contabil[id].inc
    ensures ParIds(Without(depara, ParIds(depara, contabil, keys)), contabil', keys) == {}
  {
    var p := ParIds(depara, contabil, keys);
    var rest := Without(depara, p);
    ParIdsCover(depara, contabil, keys);
    ParIdsCover(rest, contabil', keys);
    assert forall c: int :: ParentNrbrm(contabil', c) == ParentNrbrm(contabil, c);
    forall x | x in ParIds(rest, contabil', keys) ensures false {
      var key, r :| key in keys && r in rest && Matches(contabil', key, r) && r.parId == x;
      assert Matches(contabil, key, r);
    }
  }

  /**
   * Undoing the same keys again removes no ledger row and no lock row, and
   * finds no row to clear beyond the requested ids.
   */
  lemma UndoTwiceRemovesNothing(depara: seq<ParRow>, contabil: map<int, Asset>, conc: map<LockKey, int>,
                                keys: seq<(int, int)>, contabil': map<int, Asset>)
    requires contabil'.Keys == contabil.Keys
    requires forall id :: id in contabil ==> contabil'[id].nrbrm == contabil[id].nrbrm && contabil'[id].inc == contabil[id].inc
    ensures var p := ParIds(depara, contabil, keys);
      var depara1 := Without(depara, p);
      var conc1 := Release(conc, p, FisIds(depara, keys, p), CtbIds(depara, keys, p));
      var p2 := ParIds(depara1, contabil', keys);
      && p2 == {}
      && Without(depara1, p2) == depara1
      && Release(conc1, p2, FisIds(depara1, keys, p2), CtbIds(depara1, keys, p2)) == conc1
  {
    var p := ParIds(depara, contabil, keys);
    var depara1 := Without(depara, p);
    NothingLeft(depara, contabil, keys, contabil');
    WithoutNothing(depara1);
    var conc1 := Release(conc, p, FisIds(depara, keys, p), CtbIds(depara, keys, p));
    assert FisIds(depara1, keys, {}) <= FisIds(depara, keys, p);
    assert CtbIds(depara1, keys, {}) <= CtbIds(depara, keys, p);
  }

  lemma {:induction false} WithoutNothing(depara: seq<ParRow>)
    ensures Without(depara, {}) == depara
  {
    if depara != [] {
      var init := depara[..|depara| - 1];
      WithoutNothing(init);
      assert depara == init + [depara[|depara| - 1]];
    }
  }

  // ---------------------------------------------------------------------
  // the transaction

  /** The lookup loop of `undo_pairs`: the `PAR_ID`s the keys select, then the
      requested ids together with those of the selected rows. */
  method Collect(depara: seq<ParRow>, contabil: map<int, Asset>, keys: seq<(int, int)>)
    returns (parIds: set<int>, fisIds: set<int>, ctbIds: set<int>)
    ensures parIds == ParIds(depara, contabil, keys)
    ensures fisIds == FisIds(depara, keys, parIds) && ctbIds == CtbIds(depara, keys, parIds)
  {
    parIds, fisIds, ctbIds := {}, {}, {};
    var i := 0;
    while i < |keys|
      invariant 0 <= i <= |keys|
      invariant parIds == ParIds(depara, contabil, keys[..i])
      invariant fisIds == set k | k in keys[..i] && k.0 > 0 :: k.0
      invariant ctbIds == set k | k in keys[..i] && k.1 > 0 :: k.1
    {
      assert keys[..i + 1][..i] == keys[..i];
      assert forall k :: k in keys[..i + 1] <==> k in keys[..i] || k == keys[i];
      var key := keys[i];
      i := i + 1;
      if key.0 > 0 {
        fisIds := fisIds + {key.0};
      }
      if key.1 > 0 {
        ctbIds := ctbIds + {key.1};
      }
      parIds := parIds + KeyParIds(depara, contabil, key);
    }
    assert keys[..i] == keys;
    fisIds := fisIds + set r | r in depara && r.parId in parIds && r.fis > 0 :: r.fis;
    ctbIds := ctbIds + set r | r in depara && r.parId in parIds && r.ctb > 0 :: r.ctb;
  }

  /** Clears `FRAG` of the given ids when the column exists and counts the rows updated. */
  method Unmark(db: Db, fis: set<int>, ctb: set<int>) returns (unmarkedFis: nat, unmarkedCtb: nat)
    modifies db
    ensures db.depara == old(db.depara) && db.conciliados == old(db.conciliados)
    ensures db.fisico == (if db.hasFrag then ClearFrag(old(db.fisico), fis) else old(db.fisico))
    ensures db.contabil == (if db.hasFrag then ClearFrag(old(db.contabil), ctb) else old(db.contabil))
    ensures unmarkedFis == (if db.hasFrag then |fis * old(db.fisico).Keys| else 0)
    ensures unmarkedCtb == (if db.hasFrag then |ctb * old(db.contabil).Keys| else 0)
  {
    unmarkedFis, unmarkedCtb := 0, 0;
    if db.hasFrag {
      unmarkedFis := |fis * db.fisico.Keys|;
      db.fisico := ClearFrag(db.fisico, fis);
      unmarkedCtb := |ctb * db.contabil.Keys|;
      db.contabil := ClearFrag(db.contabil, ctb);
    }
  }

  /** Deletes the selected ledger rows and releases their locks, counting both. */
  method DeleteRows(db: Db, parIds: set<int>, fis: set<int>, ctb: set<int>) returns (removedDepara: int, removedConc: nat)
    modifies db
    ensures db.fisico == old(db.fisico) && db.contabil == old(db.contabil)
    ensures db.depara == Without(old(db.depara), parIds)
    ensures db.conciliados == Release(old(db.conciliados), parIds, fis, ctb)
    ensures removedDepara == |old(db.depara)| - |db.depara|
    ensures removedConc == |old(db.conciliados).Keys - db.conciliados.Keys|
  {
    var before := |db.depara|;
    db.depara := Without(db.depara, parIds);
    removedDepara := before - |db.depara|;
    var concBefore := db.conciliados;
    db.conciliados := Release(db.conciliados, parIds, fis, ctb);
    removedConc := |concBefore.Keys - db.conciliados.Keys|;
  }

  /** The effect of `undo_pairs` for the normalised `keys`, from the tables `d0`, `c0`,
      `f0`, `k0` (ledger, locks, physical, accounting) to `d1`, `c1`, `f1`, `k1`:
      the matched ledger rows are deleted, their locks and those of every requested id
      released, `FRAG` cleared where the column exists, and `counts` reports the
      deleted ledger rows, the released locks and the cleared rows. */
  ghost predicate Undone(keys: seq<(int, int)>, hasFrag: bool,
                         d0: seq<ParRow>, c0: map<LockKey, int>, f0: map<int, Asset>, k0: map<int, Asset>,
                         d1: seq<ParRow>, c1: map<LockKey, int>, f1: map<int, Asset>, k1: map<int, Asset>,
                         counts: UndoCounts)
  {
    var p := ParIds(d0, k0, keys);
    var fis := FisIds(d0, keys, p);
    var ctb := CtbIds(d0, keys, p);
    && d1 == Without(d0, p)
    && c1 == Release(c0, p, fis, ctb)
    && f1 == (if hasFrag then ClearFrag(f0, fis) else f0)
    && k1 == (if hasFrag then ClearFrag(k0, ctb) else k0)
    && counts == UndoCounts(
         |d0| - |d1|,
         |c0.Keys - c1.Keys|,
         if hasFrag then |fis * f0.Keys| else 0,
         if hasFrag then |ctb * k0.Keys| else 0)
  }

  /** The body of `undo_pairs` once the normalised keys are known to be non-empty. */
  method ApplyUndo(db: Db, keys: seq<(int, int)>) returns (counts: UndoCounts)
    modifies db
    ensures Undone(keys, db.hasFrag,
                   old(db.depara), old(db.conciliados), old(db.fisico), old(db.contabil),
                   db.depara, db.conciliados, db.fisico, db.contabil, counts)
  {
    var parIds, fisIds, ctbIds := Collect(db.depara, db.contabil, keys);
    var removedDepara, removedConc := DeleteRows(db, parIds, fisIds, ctbIds);
    var unmarkedFis, unmarkedCtb := Unmark(db, fisIds, ctbIds);
    counts := UndoCounts(removedDepara, removedConc, unmarkedFis, unmarkedCtb);
  }

  /** `undo_pairs`: removes the selected ledger rows, their lock rows and the lock
      rows of every requested id, and clears `FRAG` where the column exists; a
      store failure rolls everything back. */
  method UndoPairs(db: Db, pairs: seq<(int, int)>, fault: bool) returns (out: Option<UndoCounts>)
    modifies db
    ensures NormKeys(pairs) == [] ==> out == Some(NoCounts) && unchanged(db)
    ensures NormKeys(pairs) != [] && fault ==> out == None && unchanged(db)
    ensures NormKeys(pairs) != [] && !fault ==>
      && out.Some?
      && Undone(NormKeys(pairs), db.hasFrag,
                old(db.depara), old(db.conciliados), old(db.fisico), old(db.contabil),
                db.depara, db.conciliados, db.fisico, db.contabil, out.value)
  {
    if pairs == [] {
      return Some(NoCounts);
    }
    var keys := NormalizeKeys(pairs);
    if keys == [] {
      return Some(NoCounts);
    }
    if fault {
      return None;
    }
    var counts := ApplyUndo(db, keys);
    out := Some(counts);
  }
}

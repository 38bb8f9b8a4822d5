/**
 * The automatic matcher ("Automático 01"): the exact-key rules, each pairing
 * the k-th smallest pending physical id with the k-th smallest pending
 * accounting id of every key value, the bulk commit of their pairs, the
 * propagation of accounting children to committed parents, and the fixed
 * order in which the rules run.
 */
module Matcher {
  import opened Wrappers
  import opened Tables
  import opened PyStr

  /** The statistics a rule reports: its status label, the number of pending
      physical and accounting rows it read, and the number of pairs it
      committed. */
  datatype MatchStats = MatchStats(st: string, candidatosFisico: nat, candidatosContabil: nat, conciliados: nat)

  // ---------------------------------------------------------------------
  // _read_pending

  /** A row `_read_pending` returns: no lock row for `(side, ID)` and, when
      the register has a `FRAG` column, `COALESCE(FRAG,'') <> 'Conciliado'`. */
  predicate IsPending(rows: map<int, Asset>, conc: map<LockKey, int>, side: Side, hasFrag: bool, id: int) {
    id in rows && LockKey(side, id) !in conc && (!hasFrag || rows[id].frag != "Conciliado")
  }

  function ReadPending(rows: map<int, Asset>, conc: map<LockKey, int>, side: Side, hasFrag: bool): (r: set<int>)
    ensures forall id :: id in r <==> IsPending(rows, conc, side, hasFrag, id)
  {
    set id | id in rows && IsPending(rows, conc, side, hasFrag, id)
  }

  // ---------------------------------------------------------------------
  // _pair_1to1_by_value

  /** A join key: a number (`NRBRM`, `BEM_ANTERIOR` read as a number) or a
      trimmed text (`SERIE`, `TAG`). */
  datatype KeyVal = Num(n: int) | Text(s: string)

  /** The ids with key `k`. */
  function Group(m: map<int, KeyVal>, k: KeyVal): set<int> {
    set id | id in m && m[id] == k
  }

  /** The 0-based rank of `id` among the ids of `s` (the number of smaller ones). */
  function RankIn(s: set<int>, id: int): nat {
    |set j | j in s && j < id|
  }

  /** `rank(method="first") - 1` of `ID` within its key group. */
  function Rank(m: map<int, KeyVal>, id: int): nat
    requires id in m
  {
    RankIn(Group(m, m[id]), id)
  }

  /** The pairs of `_pair_1to1_by_value`: equal key and equal rank. */
  function PairByValue(fk: map<int, KeyVal>, ck: map<int, KeyVal>): set<(int, int)> {
    set f, c | f in fk && c in ck && fk[f] == ck[c] && Rank(fk, f) == Rank(ck, c) :: (f, c)
  }

  lemma {:induction false} SubsetCard(a: set<int>, b: set<int>)
    requires a <= b
    ensures |a| <= |b|
    decreases |a|
  {
    if a != {} {
      assert exists x :: x in a by {
        if forall x :: x !in a {
          assert false;
        }
      }
      var x :| x in a;
      SubsetCard(a - {x}, b - {x});
    }
  }

  lemma RankLess(s: set<int>, a: int, b: int)
    requires a in s && b in s && a < b
    ensures RankIn(s, a) < RankIn(s, b)
  {
    var sa := set j | j in s && j < a;
    var sb := set j | j in s && j < b;
    SubsetCard(sa, sb - {a});
    assert a in sb;
  }

  lemma RankBound(s: set<int>, a: int)
    requires a in s
    ensures RankIn(s, a) < |s|
  {
    var sa := set j | j in s && j < a;
    SubsetCard(sa, s - {a});
  }

  predicate IsMax(m: int, s: set<int>) {
    m in s && forall x :: x in s ==> x <= m
  }

  lemma {:induction false} MaxExists(s: set<int>)
    requires s != {}
    ensures exists m :: IsMax(m, s)
    decreases |s|
  {
    assert exists y :: y in s by {
      if forall y :: y !in s {
        assert false;
      }
    }
    var y :| y in s;
    if s - {y} == {} {
      forall x | x in s ensures x <= y {
        assert x !in s - {y};
      }
      assert IsMax(y, s);
    } else {
      MaxExists(s - {y});
      var m :| IsMax(m, s - {y});
      if y > m {
        forall x | x in s ensures x <= y {
          if x != y { assert x in s - {y}; }
        }
        assert IsMax(y, s);
      } else {
        forall x | x in s ensures x <= m {
          if x != y { assert x in s - {y}; }
        }
        assert IsMax(m, s);
      }
    }
  }

  /** Every rank below the size of the group is taken by some id. */
  lemma {:induction false} RankOnto(s: set<int>, r: nat)
    requires r < |s|
    ensures exists x :: x in s && RankIn(s, x) == r
    decreases |s|
  {
    MaxExists(s);
    var m :| IsMax(m, s);
    var rest := s - {m};
    if r == |s| - 1 {
      assert (set j | j in s && j < m) == rest;
      assert RankIn(s, m) == r;
    } else {
      RankOnto(rest, r);
      var x :| x in rest && RankIn(rest, x) == r;
      assert (set j | j in s && j < x) == (set j | j in rest && j < x);
      assert RankIn(s, x) == r;
    }
  }

  /** No physical and no accounting id is in two pairs. */
  lemma PairsOneToOne(fk: map<int, KeyVal>, ck: map<int, KeyVal>, p: (int, int), q: (int, int))
    requires p in PairByValue(fk, ck) && q in PairByValue(fk, ck)
    ensures p.0 == q.0 <==> p.1 == q.1
  {
    if p.0 == q.0 && p.1 != q.1 {
      var g := Group(ck, ck[p.1]);
      if p.1 < q.1 { RankLess(g, p.1, q.1); } else { RankLess(g, q.1, p.1); }
    }
    if p.1 == q.1 && p.0 != q.0 {
      var g := Group(fk, fk[p.0]);
      if p.0 < q.0 { RankLess(g, p.0, q.0); } else { RankLess(g, q.0, p.0); }
    }
  }

  /** The k-th smallest physical id of a key is paired exactly when the
      accounting side of that key has more than k ids; so each key yields
      `min(#physical, #accounting)` pairs. */
  lemma FisCoverage(fk: map<int, KeyVal>, ck: map<int, KeyVal>, f: int)
    requires f in fk
    ensures (exists c :: (f, c) in PairByValue(fk, ck)) <==> Rank(fk, f) < |Group(ck, fk[f])|
  {
    var g := Group(ck, fk[f]);
    if Rank(fk, f) < |g| {
      RankOnto(g, Rank(fk, f));
      var c :| c in g && RankIn(g, c) == Rank(fk, f);
      assert (f, c) in PairByValue(fk, ck);
    }
    if exists c :: (f, c) in PairByValue(fk, ck) {
      var c :| (f, c) in PairByValue(fk, ck);
      RankBound(g, c);
    }
  }

  /** The same on the accounting side. */
  lemma CtbCoverage(fk: map<int, KeyVal>, ck: map<int, KeyVal>, c: int)
    requires c in ck
    ensures (exists f :: (f, c) in PairByValue(fk, ck)) <==> Rank(ck, c) < |Group(fk, ck[c])|
  {
    var g := Group(fk, ck[c]);
    if Rank(ck, c) < |g| {
      RankOnto(g, Rank(ck, c));
      var f :| f in g && RankIn(g, f) == Rank(ck, c);
      assert (f, c) in PairByValue(fk, ck);
    }
    if exists f :: (f, c) in PairByValue(fk, ck) {
      var f :| (f, c) in PairByValue(fk, ck);
      RankBound(g, f);
    }
  }

  /** Pairs join ids of the two key maps; with one map empty there is none. */
  lemma PairDomain(fk: map<int, KeyVal>, ck: map<int, KeyVal>)
    ensures forall p :: p in PairByValue(fk, ck) ==> p.0 in fk && p.1 in ck
    ensures |fk| == 0 || |ck| == 0 ==> PairByValue(fk, ck) == {}
  {
  }

  function FisOf(ps: set<(int, int)>): set<int> { set p | p in ps :: p.0 }

  function CtbOf(ps: set<(int, int)>): set<int> { set p | p in ps :: p.1 }

  /** After a rule's pairs are taken out, the remaining ids of both sides
      (or any part of them) form no pair: in every key group one side is used up. */
  lemma SecondRunEmpty(fk: map<int, KeyVal>, ck: map<int, KeyVal>, fk2: map<int, KeyVal>, ck2: map<int, KeyVal>)
    requires forall f :: f in fk2 ==> f in fk && fk2[f] == fk[f] && f !in FisOf(PairByValue(fk, ck))
    requires forall c :: c in ck2 ==> c in ck && ck2[c] == ck[c] && c !in CtbOf(PairByValue(fk, ck))
    ensures PairByValue(fk2, ck2) == {}
  {
    forall p | p in PairByValue(fk2, ck2) ensures false {
      var f, c := p.0, p.1;
      var k := fk[f];
      FisCoverage(fk, ck, f);
      CtbCoverage(fk, ck, c);
      assert forall c' :: (f, c') in PairByValue(fk, ck) ==> f in FisOf(PairByValue(fk, ck));
      assert forall f' :: (f', c) in PairByValue(fk, ck) ==> c in CtbOf(PairByValue(fk, ck));
      RankBound(Group(fk, k), f);
      RankBound(Group(ck, k), c);
    }
  }

  // ---------------------------------------------------------------------
  // the keys of the rules

  datatype ExactKey = Serie | Tag

  /** The exact-key rules of `run_regra_*`. */
  datatype KeyRule =
    | NrbrmPai                      // NRBRM (physical) = NRBRM (accounting)
    | BemAntFisEqNrbrmCtb           // BEM_ANTERIOR (physical) = NRBRM (accounting)
    | NrbrmFisEqBemAntCtb           // NRBRM (physical) = BEM_ANTERIOR (accounting)
    | Exata(key: ExactKey, st: string, incOnly: bool)

  function RuleStatus(rule: KeyRule): string {
    match rule
    case NrbrmPai => "NRBEM_FIS=NRBEM_CTB"
    case BemAntFisEqNrbrmCtb => "BEMANT_FIS=NRBEM_CTB"
    case NrbrmFisEqBemAntCtb => "NRBRM_FIS=NRBEM_CTB"
    case Exata(_, st, _) => st
  }

  function NumKey(x: Option<int>): Option<KeyVal> {
    if x.Some? then Some(Num(x.value)) else None
  }

  /** The raw text trimmed, with an empty result dropped (case is kept). */
  function TextKey(s: string): (r: Option<KeyVal>)
    ensures r.Some? <==> Strip(s) != ""
  {
    var t := Strip(s);
    if t == "" then None else Some(Text(t))
  }

  function ExactField(k: ExactKey, a: Asset): string {
    if k == Serie then a.serie else a.tag
  }

  function FisKey(rule: KeyRule, a: Asset): Option<KeyVal> {
    match rule
    case NrbrmPai => NumKey(a.nrbrm)
    case BemAntFisEqNrbrmCtb => NumKey(a.bemAnterior)
    case NrbrmFisEqBemAntCtb => NumKey(a.nrbrm)
    case Exata(k, _, _) => TextKey(ExactField(k, a))
  }

  function CtbKey(rule: KeyRule, a: Asset): Option<KeyVal> {
    match rule
    case NrbrmPai => NumKey(a.nrbrm)
    case BemAntFisEqNrbrmCtb => NumKey(a.nrbrm)
    case NrbrmFisEqBemAntCtb => NumKey(a.bemAnterior)
    case Exata(k, _, _) => TextKey(ExactField(k, a))
  }

  /** The numeric rules keep accounting parents only; the exact rules do so
      when asked to. */
  predicate CtbIncOk(rule: KeyRule, a: Asset) {
    if rule.Exata? then !rule.incOnly || Coalesce(a.inc) == 0 else Coalesce(a.inc) == 0
  }

  /** The pending physical rows with a key, and their keys. */
  function FisKeys(fisico: map<int, Asset>, conc: map<LockKey, int>, hasFrag: bool, rule: KeyRule): (r: map<int, KeyVal>)
    ensures forall id :: id in r <==> IsPending(fisico, conc, Fis, hasFrag, id) && FisKey(rule, fisico[id]).Some?
  {
    map id | id in fisico && IsPending(fisico, conc, Fis, hasFrag, id) && FisKey(rule, fisico[id]).Some?
      :: FisKey(rule, fisico[id]).value
  }

  /** The pending accounting rows with a key that pass the `INC` filter, and their keys. */
  function CtbKeys(contabil: map<int, Asset>, conc: map<LockKey, int>, hasFrag: bool, rule: KeyRule): (r: map<int, KeyVal>)
    ensures forall id :: id in r <==>
      IsPending(contabil, conc, Ctb, hasFrag, id) && CtbKey(rule, contabil[id]).Some? && CtbIncOk(rule, contabil[id])
  {
    map id | id in contabil && IsPending(contabil, conc, Ctb, hasFrag, id) && CtbKey(rule, contabil[id]).Some?
             && CtbIncOk(rule, contabil[id])
      :: CtbKey(rule, contabil[id]).value
  }

  // ---------------------------------------------------------------------
  // _bulk_insert_pairs

  /** A row of the pairs frame: `ID_FISICO`, `ID_CONTABIL`, `NRBRM`, `INC_CONTABIL`. */
  datatype NewRow = NewRow(fis: int, ctb: int, nrbrm: int, inc: int)

  /** The ledger rows of a batch, numbered from `start` in order. */
  function BulkRows(start: int, st: string, rows: seq<NewRow>): (r: seq<ParRow>)
    ensures |r| == |rows|
  {
    seq(|rows|, i requires 0 <= i < |rows| =>
      ParRow(start + i, st, rows[i].fis, rows[i].ctb, rows[i].nrbrm, Some(rows[i].inc)))
  }

  /** The lock rows of one ledger row: `FIS` only for a positive physical id, `CTB` always. */
  function RowLocks(p: int, r: NewRow): seq<LockRow> {
    (if r.fis > 0 then [(LockKey(Fis, r.fis), p)] else []) + [(LockKey(Ctb, r.ctb), p)]
  }

  function BulkLocks(start: int, rows: seq<NewRow>): seq<LockRow>
    decreases |rows|
  {
    if rows == [] then []
    else BulkLocks(start, rows[..|rows| - 1]) + RowLocks(start + |rows| - 1, rows[|rows| - 1])
  }

  /** `UPDATE ... SET FRAG='Conciliado' WHERE ID IN ids`. */
  function MarkFrag(m: map<int, Asset>, ids: set<int>): map<int, Asset> {
    map id | id in m :: if id in ids then m[id].(frag := "Conciliado") else m[id]
  }

  function FisMarked(rows: seq<NewRow>): set<int> { set r | r in rows && r.fis > 0 :: r.fis }

  function CtbMarked(rows: seq<NewRow>): set<int> { set r | r in rows :: r.ctb }

  /** The state after `_bulk_insert_pairs` of `rows` from the state
      `(d0, c0, f0, t0)`: nothing changes for an empty batch; otherwise the
      ledger rows are appended from `MAX(PAR_ID)+1`, the lock rows inserted
      or ignored, and `FRAG` marked when the registers have it. */
  ghost predicate BulkEffect(d0: seq<ParRow>, c0: map<LockKey, int>, f0: map<int, Asset>, t0: map<int, Asset>,
                             hasFrag: bool, st: string, rows: seq<NewRow>,
                             d1: seq<ParRow>, c1: map<LockKey, int>, f1: map<int, Asset>, t1: map<int, Asset>)
  {
    if rows == [] then d1 == d0 && c1 == c0 && f1 == f0 && t1 == t0
    else
      && d1 == d0 + BulkRows(NextParId(d0), st, rows)
      && c1 == InsertOrIgnore(c0, BulkLocks(NextParId(d0), rows))
      && f1 == (if hasFrag then MarkFrag(f0, FisMarked(rows)) else f0)
      && t1 == (if hasFrag then MarkFrag(t0, CtbMarked(rows)) else t0)
  }

  /** The ledger rows of a batch carry consecutive fresh `PAR_ID`s and the
      batch's status. */
  lemma BulkRowsShape(d0: seq<ParRow>, st: string, rows: seq<NewRow>)
    ensures Consecutive(BulkRows(NextParId(d0), st, rows), NextParId(d0))
    ensures forall i :: 0 <= i < |rows| ==> BulkRows(NextParId(d0), st, rows)[i].status == st
    ensures forall i, j :: 0 <= i < j < |d0| + |rows| && j >= |d0| ==>
      (d0 + BulkRows(NextParId(d0), st, rows))[i].parId != (d0 + BulkRows(NextParId(d0), st, rows))[j].parId
  {
    FreshParIds(d0, BulkRows(NextParId(d0), st, rows));
  }

  /** Every lock row of a batch is a `CTB` lock or a `FIS` lock of a positive id,
      and every accounting id and every positive physical id of the batch has one. */
  lemma {:induction false} BulkLocksSpec(start: int, rows: seq<NewRow>)
    ensures forall j :: 0 <= j < |BulkLocks(start, rows)| && BulkLocks(start, rows)[j].0.side == Fis ==>
      BulkLocks(start, rows)[j].0.id > 0
    ensures forall i :: 0 <= i < |rows| ==> exists j :: 0 <= j < |BulkLocks(start, rows)| && BulkLocks(start, rows)[j].0 == LockKey(Ctb, rows[i].ctb)
    ensures forall i :: 0 <= i < |rows| && rows[i].fis > 0 ==>
      exists j :: 0 <= j < |BulkLocks(start, rows)| && BulkLocks(start, rows)[j].0 == LockKey(Fis, rows[i].fis)
    decreases |rows|
  {
    if rows != [] {
      var init := rows[..|rows| - 1];
      var last := rows[|rows| - 1];
      BulkLocksSpec(start, init);
      var a := BulkLocks(start, init);
      var b := RowLocks(start + |rows| - 1, last);
      var ab: seq<LockRow> := a + b;
      assert BulkLocks(start, rows) == ab;
      forall i | 0 <= i < |rows|
        ensures exists j :: 0 <= j < |ab| && ab[j].0 == LockKey(Ctb, rows[i].ctb)
        ensures rows[i].fis > 0 ==> exists j :: 0 <= j < |ab| && ab[j].0 == LockKey(Fis, rows[i].fis)
      {
        if i < |init| {
          assert rows[i] == init[i];
          var j :| 0 <= j < |a| && a[j].0 == LockKey(Ctb, init[i].ctb);
          assert ab[j] == a[j];
          if rows[i].fis > 0 {
            var j' :| 0 <= j' < |a| && a[j'].0 == LockKey(Fis, init[i].fis);
            assert ab[j'] == a[j'];
          }
        } else {
          assert ab[|ab| - 1] == b[|b| - 1];
          if last.fis > 0 {
            assert ab[|a|] == b[0];
          }
        }
      }
    }
  }

  /** After the batch every accounting id and every positive physical id of
      it is locked; a lock that existed keeps its `PAR_ID`. */
  lemma BulkLocked(c0: map<LockKey, int>, start: int, rows: seq<NewRow>)
    ensures forall k :: k in c0 ==> k in InsertOrIgnore(c0, BulkLocks(start, rows))
    ensures forall i :: 0 <= i < |rows| ==> LockKey(Ctb, rows[i].ctb) in InsertOrIgnore(c0, BulkLocks(start, rows))
    ensures forall i :: 0 <= i < |rows| && rows[i].fis > 0 ==>
      LockKey(Fis, rows[i].fis) in InsertOrIgnore(c0, BulkLocks(start, rows))
  {
    BulkLocksSpec(start, rows);
  }

  lemma BulkStep(start: int, st: string, rows: seq<NewRow>, i: nat)
    requires i < |rows|
    ensures BulkRows(start, st, rows[..i + 1]) == BulkRows(start, st, rows[..i])
      + [ParRow(start + i, st, rows[i].fis, rows[i].ctb, rows[i].nrbrm, Some(rows[i].inc))]
    ensures BulkLocks(start, rows[..i + 1]) == BulkLocks(start, rows[..i]) + RowLocks(start + i, rows[i])
  {
    assert rows[..i + 1][..i] == rows[..i];
  }

  /** `_bulk_insert_pairs`: appends the ledger rows with consecutive
      `PAR_ID`s from `MAX(PAR_ID)+1`, inserts their lock rows ignoring
      conflicts, marks `FRAG`, and returns the number of pairs. */
  method BulkInsertPairs(db: Db, rows: seq<NewRow>, st: string) returns (created: nat)
    modifies db
    ensures created == |rows|
    ensures BulkEffect(old(db.depara), old(db.conciliados), old(db.fisico), old(db.contabil), db.hasFrag, st, rows,
                       db.depara, db.conciliados, db.fisico, db.contabil)
  {
    if rows == [] {
      return 0;
    }
    ghost var d0, c0 := db.depara, db.conciliados;
    var start := NextParId(db.depara);
    var deparaRows: seq<ParRow> := [];
    var concRows: seq<LockRow> := [];
    var i := 0;
    while i < |rows|
      invariant i <= |rows|
      invariant deparaRows == BulkRows(start, st, rows[..i])
      invariant concRows == BulkLocks(start, rows[..i])
      invariant unchanged(db)
    {
      BulkStep(start, st, rows, i);
      var par := start + i;
      deparaRows := deparaRows + [ParRow(par, st, rows[i].fis, rows[i].ctb, rows[i].nrbrm, Some(rows[i].inc))];
      if rows[i].fis > 0 {
        concRows := concRows + [(LockKey(Fis, rows[i].fis), par)];
      }
      concRows := concRows + [(LockKey(Ctb, rows[i].ctb), par)];
      i := i + 1;
    }
    assert rows[..i] == rows;
    db.depara := db.depara + deparaRows;
    db.conciliados := InsertOrIgnore(db.conciliados, concRows);
    if db.hasFrag {
      db.fisico := MarkFrag(db.fisico, FisMarked(rows));
      db.contabil := MarkFrag(db.contabil, CtbMarked(rows));
    }
    created := |rows|;
  }

  // ---------------------------------------------------------------------
  // the rules

  /** `NRBRM` of a rule's ledger row as written: the merged frame has an
      `NRBRM` column only when both sides were joined on `NRBRM` itself;
      otherwise `m.get("NRBRM_F", m.get("NRBRM", 0))` falls back to 0. */
  function LedgerNrbrmAsWritten(rule: KeyRule, key: KeyVal): int {
    if rule.NrbrmPai? && key.Num? then key.n else 0
  }

  /** `NRBRM` of a rule's ledger row, corrected: the accounting row's `NRBRM`. */
  function LedgerNrbrm(contabil: map<int, Asset>, c: int): int
    requires c in contabil
  {
    Coalesce(contabil[c].nrbrm)
  }

  /** The pairs frame of a rule, with `INC_CONTABIL` set to 0. */
  function RuleRows(order: seq<(int, int)>, contabil: map<int, Asset>): (r: seq<NewRow>)
    requires forall i :: 0 <= i < |order| ==> order[i].1 in contabil
    ensures |r| == |order|
  {
    seq(|order|, i requires 0 <= i < |order| => NewRow(order[i].0, order[i].1, LedgerNrbrm(contabil, order[i].1), 0))
  }

  /** For the `NRBRM = NRBRM` rule the written and the corrected ledger `NRBRM` agree. */
  lemma AsWrittenAgreesOnNrbrmPai(fisico: map<int, Asset>, contabil: map<int, Asset>, conc: map<LockKey, int>,
                                  hasFrag: bool, p: (int, int))
    requires p in PairByValue(FisKeys(fisico, conc, hasFrag, NrbrmPai), CtbKeys(contabil, conc, hasFrag, NrbrmPai))
    ensures p.1 in contabil
    ensures LedgerNrbrmAsWritten(NrbrmPai, FisKeys(fisico, conc, hasFrag, NrbrmPai)[p.0]) == LedgerNrbrm(contabil, p.1)
  {
  }

  /** The reading half of a `run_regra_*`: the numbers of pending rows of
      both registers and the rule's pairs in `(ID_FISICO, ID_CONTABIL)` order;
      no pair when one side has no row with a key left. */
  method RulePairs(fisico: map<int, Asset>, contabil: map<int, Asset>, conc: map<LockKey, int>,
                   hasFrag: bool, rule: KeyRule)
    returns (candF: nat, candC: nat, order: seq<(int, int)>)
    ensures candF == |ReadPending(fisico, conc, Fis, hasFrag)| && candC == |ReadPending(contabil, conc, Ctb, hasFrag)|
    ensures order == SortedPairs(PairByValue(FisKeys(fisico, conc, hasFrag, rule), CtbKeys(contabil, conc, hasFrag, rule)))
    ensures forall i :: 0 <= i < |order| ==> order[i].0 in fisico && order[i].1 in contabil
  {
    candF := |ReadPending(fisico, conc, Fis, hasFrag)|;
    candC := |ReadPending(contabil, conc, Ctb, hasFrag)|;
    var fk := FisKeys(fisico, conc, hasFrag, rule);
    var ck := CtbKeys(contabil, conc, hasFrag, rule);
    PairDomain(fk, ck);
    if |fk| == 0 || |ck| == 0 {
      order := SortPairs({});
      return;
    }
    var ps := PairByValue(fk, ck);
    order := SortPairs(ps);
    forall i | 0 <= i < |order| ensures order[i].0 in fisico && order[i].1 in contabil {
      assert order[i] in ps;
    }
  }

  /** One `run_regra_*`: reads the pending rows of both registers (their
      numbers are the statistics), keeps those with a key (and, on the
      accounting side, `INC = 0` where the rule asks for it), pairs them by
      `_pair_1to1_by_value` and commits the pairs; when one side has no row
      left nothing is written. */
  method RunKeyRule(db: Db, rule: KeyRule) returns (stats: MatchStats, order: seq<(int, int)>)
    modifies db
    ensures stats.st == RuleStatus(rule)
    ensures stats.candidatosFisico == |ReadPending(old(db.fisico), old(db.conciliados), Fis, db.hasFrag)|
    ensures stats.candidatosContabil == |ReadPending(old(db.contabil), old(db.conciliados), Ctb, db.hasFrag)|
    ensures order == SortedPairs(PairByValue(FisKeys(old(db.fisico), old(db.conciliados), db.hasFrag, rule),
                                             CtbKeys(old(db.contabil), old(db.conciliados), db.hasFrag, rule)))
    ensures stats.conciliados == |order|
    ensures forall i :: 0 <= i < |order| ==> order[i].1 in old(db.contabil)
    ensures BulkEffect(old(db.depara), old(db.conciliados), old(db.fisico), old(db.contabil), db.hasFrag,
                       RuleStatus(rule), RuleRows(order, old(db.contabil)),
                       db.depara, db.conciliados, db.fisico, db.contabil)
  {
    var st := RuleStatus(rule);
    var candF, candC;
    candF, candC, order := RulePairs(db.fisico, db.contabil, db.conciliados, db.hasFrag, rule);
    var created := BulkInsertPairs(db, RuleRows(order, db.contabil), st);
    stats := MatchStats(st, candF, candC, created);
  }

  /** The rows of a register after a commit: the same ids, each row unchanged
      or with `FRAG` set to `Conciliado`. */
  predicate FragOnly(f0: map<int, Asset>, f1: map<int, Asset>) {
    f1.Keys == f0.Keys && forall id :: id in f0 ==> f1[id] == f0[id] || f1[id] == f0[id].(frag := "Conciliado")
  }

  lemma MarkFragOnly(m: map<int, Asset>, ids: set<int>)
    ensures FragOnly(m, MarkFrag(m, ids))
    ensures forall id :: id in m && id in ids ==> MarkFrag(m, ids)[id].frag == "Conciliado"
  {
  }

  /** A row pending after a commit was pending before, with the same keys. */
  lemma FisKeysShrink(f0: map<int, Asset>, f1: map<int, Asset>, c0: map<LockKey, int>, c1: map<LockKey, int>,
                      hasFrag: bool, rule: KeyRule)
    requires FragOnly(f0, f1) && c0.Keys <= c1.Keys
    ensures forall f :: f in FisKeys(f1, c1, hasFrag, rule) ==>
      f in FisKeys(f0, c0, hasFrag, rule) && FisKeys(f1, c1, hasFrag, rule)[f] == FisKeys(f0, c0, hasFrag, rule)[f]
      && LockKey(Fis, f) !in c1
  {
    var k0, k1 := FisKeys(f0, c0, hasFrag, rule), FisKeys(f1, c1, hasFrag, rule);
    forall f | f in k1 ensures f in k0 && k1[f] == k0[f] {
      KeysIgnoreFrag(rule, f0[f], f1[f]);
    }
  }

  lemma CtbKeysShrink(t0: map<int, Asset>, t1: map<int, Asset>, c0: map<LockKey, int>, c1: map<LockKey, int>,
                      hasFrag: bool, rule: KeyRule)
    requires FragOnly(t0, t1) && c0.Keys <= c1.Keys
    ensures forall c :: c in CtbKeys(t1, c1, hasFrag, rule) ==>
      c in CtbKeys(t0, c0, hasFrag, rule) && CtbKeys(t1, c1, hasFrag, rule)[c] == CtbKeys(t0, c0, hasFrag, rule)[c]
      && LockKey(Ctb, c) !in c1
  {
    var k0, k1 := CtbKeys(t0, c0, hasFrag, rule), CtbKeys(t1, c1, hasFrag, rule);
    forall c | c in k1 ensures c in k0 && k1[c] == k0[c] {
      KeysIgnoreFrag(rule, t0[c], t1[c]);
    }
  }

  /** The match keys and the `INC` filter do not look at `FRAG`. */
  lemma KeysIgnoreFrag(rule: KeyRule, a: Asset, b: Asset)
    requires b == a || b == a.(frag := "Conciliado")
    ensures FisKey(rule, a) == FisKey(rule, b) && CtbKey(rule, a) == CtbKey(rule, b)
    ensures CtbIncOk(rule, a) == CtbIncOk(rule, b)
  {
  }

  /** After a commit of a rule's pairs the registers differ only in `FRAG`
      and every paired id is locked (a physical id when it is positive). */
  lemma RuleCommitLocks(d0: seq<ParRow>, c0: map<LockKey, int>, f0: map<int, Asset>, t0: map<int, Asset>,
                        hasFrag: bool, st: string, order: seq<(int, int)>,
                        d1: seq<ParRow>, c1: map<LockKey, int>, f1: map<int, Asset>, t1: map<int, Asset>)
    requires forall i :: 0 <= i < |order| ==> order[i].1 in t0
    requires BulkEffect(d0, c0, f0, t0, hasFrag, st, RuleRows(order, t0), d1, c1, f1, t1)
    ensures FragOnly(f0, f1) && FragOnly(t0, t1) && c0.Keys <= c1.Keys
    ensures forall i :: 0 <= i < |order| ==> LockKey(Ctb, order[i].1) in c1
    ensures forall i :: 0 <= i < |order| && order[i].0 > 0 ==> LockKey(Fis, order[i].0) in c1
  {
    var rows := RuleRows(order, t0);
    if rows != [] {
      assert forall i :: 0 <= i < |order| ==> rows[i].ctb == order[i].1 && rows[i].fis == order[i].0;
      BulkLocked(c0, NextParId(d0), rows);
      MarkFragOnly(f0, FisMarked(rows));
      MarkFragOnly(t0, CtbMarked(rows));
    }
  }

  /** Running a rule a second time commits nothing: every key group left
      has one side used up, as long as the physical ids are positive (a
      physical id 0 or below gets no lock and stays pending). */
  lemma RuleIdempotent(d0: seq<ParRow>, c0: map<LockKey, int>, f0: map<int, Asset>, t0: map<int, Asset>,
                       hasFrag: bool, rule: KeyRule,
                       d1: seq<ParRow>, c1: map<LockKey, int>, f1: map<int, Asset>, t1: map<int, Asset>)
    requires forall f :: f in f0 ==> f > 0
    requires var order := SortedPairs(PairByValue(FisKeys(f0, c0, hasFrag, rule), CtbKeys(t0, c0, hasFrag, rule)));
      && (forall i :: 0 <= i < |order| ==> order[i].1 in t0)
      && BulkEffect(d0, c0, f0, t0, hasFrag, RuleStatus(rule), RuleRows(order, t0), d1, c1, f1, t1)
    ensures PairByValue(FisKeys(f1, c1, hasFrag, rule), CtbKeys(t1, c1, hasFrag, rule)) == {}
  {
    var fk, ck := FisKeys(f0, c0, hasFrag, rule), CtbKeys(t0, c0, hasFrag, rule);
    var ps := PairByValue(fk, ck);
    assert forall p :: p in ps ==> p.0 in f0;
    RuleLocksAll(d0, c0, f0, t0, hasFrag, RuleStatus(rule), ps, d1, c1, f1, t1);
    FisKeysShrink(f0, f1, c0, c1, hasFrag, rule);
    CtbKeysShrink(t0, t1, c0, c1, hasFrag, rule);
    LockedNotPending(fk, ck, FisKeys(f1, c1, hasFrag, rule), CtbKeys(t1, c1, hasFrag, rule), c1);
  }

  /** Committing the sorted pairs of a set with positive physical ids locks both
      ids of every pair and changes the registers only in `FRAG`. */
  lemma RuleLocksAll(d0: seq<ParRow>, c0: map<LockKey, int>, f0: map<int, Asset>, t0: map<int, Asset>,
                     hasFrag: bool, st: string, ps: set<(int, int)>,
                     d1: seq<ParRow>, c1: map<LockKey, int>, f1: map<int, Asset>, t1: map<int, Asset>)
    requires forall p :: p in ps ==> p.0 > 0
    requires forall i :: 0 <= i < |SortedPairs(ps)| ==> SortedPairs(ps)[i].1 in t0
    requires BulkEffect(d0, c0, f0, t0, hasFrag, st, RuleRows(SortedPairs(ps), t0), d1, c1, f1, t1)
    ensures FragOnly(f0, f1) && FragOnly(t0, t1) && c0.Keys <= c1.Keys
    ensures forall p :: p in ps ==> LockKey(Fis, p.0) in c1 && LockKey(Ctb, p.1) in c1
  {
    RuleCommitLocks(d0, c0, f0, t0, hasFrag, st, SortedPairs(ps), d1, c1, f1, t1);
    OrderLocked(ps, c1);
  }

  /** Every pair of a committed order has its locks, given positive physical ids. */
  lemma OrderLocked(ps: set<(int, int)>, c1: map<LockKey, int>)
    requires forall p :: p in ps ==> p.0 > 0
    requires forall i :: 0 <= i < |SortedPairs(ps)| ==> LockKey(Ctb, SortedPairs(ps)[i].1) in c1
    requires forall i :: 0 <= i < |SortedPairs(ps)| && SortedPairs(ps)[i].0 > 0 ==> LockKey(Fis, SortedPairs(ps)[i].0) in c1
    ensures forall p :: p in ps ==> LockKey(Fis, p.0) in c1 && LockKey(Ctb, p.1) in c1
  {
    var order := SortedPairs(ps);
    forall p | p in ps ensures LockKey(Fis, p.0) in c1 && LockKey(Ctb, p.1) in c1 {
      var i :| 0 <= i < |order| && order[i] == p;
    }
  }

  /** Once every pair of the first run is locked, the keys still pending form no pair. */
  lemma LockedNotPending(fk: map<int, KeyVal>, ck: map<int, KeyVal>, fk2: map<int, KeyVal>, ck2: map<int, KeyVal>,
                         c1: map<LockKey, int>)
    requires forall p :: p in PairByValue(fk, ck) ==> LockKey(Fis, p.0) in c1 && LockKey(Ctb, p.1) in c1
    requires forall f :: f in fk2 ==> f in fk && fk2[f] == fk[f] && LockKey(Fis, f) !in c1
    requires forall c :: c in ck2 ==> c in ck && ck2[c] == ck[c] && LockKey(Ctb, c) !in c1
    ensures PairByValue(fk2, ck2) == {}
  {
    var ps := PairByValue(fk, ck);
    assert forall f :: f in fk2 ==> f !in FisOf(ps);
    assert forall c :: c in ck2 ==> c !in CtbOf(ps);
    SecondRunEmpty(fk, ck, fk2, ck2);
  }

  /** Two runs of the same rule in a row: the second commits no pair. */
  method RunKeyRuleTwice(db: Db, rule: KeyRule) returns (first: MatchStats, second: MatchStats)
    modifies db
    ensures (forall f :: f in old(db.fisico) ==> f > 0) ==> second.conciliados == 0
  {
    ghost var d0, c0, f0, t0 := db.depara, db.conciliados, db.fisico, db.contabil;
    var order;
    first, order := RunKeyRule(db, rule);
    if forall f :: f in f0 ==> f > 0 {
      RuleIdempotent(d0, c0, f0, t0, db.hasFrag, rule, db.depara, db.conciliados, db.fisico, db.contabil);
    }
    var order2;
    second, order2 := RunKeyRule(db, rule);
  }

  // ---------------------------------------------------------------------
  // run_propagacao_incorporados

  /** The parents: ledger rows with `COALESCE(INC_CONTABIL, 0) = 0`, in ledger order. */
  function Parents(depara: seq<ParRow>): (r: seq<ParRow>)
    ensures forall p :: p in r <==> p in depara && Coalesce(p.inc) == 0
    decreases |depara|
  {
    if depara == [] then []
    else
      var last := depara[|depara| - 1];
      Parents(depara[..|depara| - 1]) + (if Coalesce(last.inc) == 0 then [last] else [])
  }

  /** A pending accounting row with `INC <> 0` and an `NRBRM`. */
  predicate IsChild(contabil: map<int, Asset>, conc: map<LockKey, int>, hasFrag: bool, id: int) {
    IsPending(contabil, conc, Ctb, hasFrag, id) && Coalesce(contabil[id].inc) != 0 && contabil[id].nrbrm.Some?
  }

  /** The merged rows of one child: one per parent with its `NRBRM`, in the parents' order. */
  function ChildRows(k: int, a: Asset, parents: seq<ParRow>): seq<NewRow>
    requires a.nrbrm.Some?
    decreases |parents|
  {
    if parents == [] then []
    else
      var last := parents[|parents| - 1];
      ChildRows(k, a, parents[..|parents| - 1])
        + (if last.nrbrm == a.nrbrm.value then [NewRow(last.fis, k, last.nrbrm, Coalesce(a.inc))] else [])
  }

  /** The inner merge of the children (in order) with the parents on `NRBRM`. */
  function PropRows(kids: seq<int>, contabil: map<int, Asset>, parents: seq<ParRow>): seq<NewRow>
    requires forall i :: 0 <= i < |kids| ==> kids[i] in contabil && contabil[kids[i]].nrbrm.Some?
    decreases |kids|
  {
    if kids == [] then []
    else
      var k := kids[|kids| - 1];
      PropRows(kids[..|kids| - 1], contabil, parents) + ChildRows(k, contabil[k], parents)
  }

  /** Each merged row of a child links it to a parent with the same `NRBRM`
      and carries the child's `INC`; each such parent gives one. */
  lemma {:induction false} ChildRowsSpec(k: int, a: Asset, parents: seq<ParRow>)
    requires a.nrbrm.Some?
    ensures forall r :: r in ChildRows(k, a, parents) ==>
      r.ctb == k && r.nrbrm == a.nrbrm.value && r.inc == Coalesce(a.inc)
      && exists p :: p in parents && p.fis == r.fis && p.nrbrm == r.nrbrm
    ensures forall p :: p in parents && p.nrbrm == a.nrbrm.value ==>
      NewRow(p.fis, k, p.nrbrm, Coalesce(a.inc)) in ChildRows(k, a, parents)
    decreases |parents|
  {
    if parents != [] {
      var init := parents[..|parents| - 1];
      var last := parents[|parents| - 1];
      ChildRowsSpec(k, a, init);
      assert forall p :: p in parents ==> p in init || p == last;
      assert forall p :: p in init ==> p in parents;
    }
  }

  /** Soundness and completeness of the merge: a row is produced exactly for
      every child and every parent sharing its `NRBRM`. */
  lemma {:induction false} PropRowsSpec(kids: seq<int>, contabil: map<int, Asset>, parents: seq<ParRow>)
    requires forall i :: 0 <= i < |kids| ==> kids[i] in contabil && contabil[kids[i]].nrbrm.Some?
    ensures forall r :: r in PropRows(kids, contabil, parents) ==>
      r.ctb in kids && r.nrbrm == contabil[r.ctb].nrbrm.value && r.inc == Coalesce(contabil[r.ctb].inc)
      && exists p :: p in parents && p.fis == r.fis && p.nrbrm == r.nrbrm
    ensures forall k, p :: k in kids && p in parents && p.nrbrm == contabil[k].nrbrm.value ==>
      NewRow(p.fis, k, p.nrbrm, Coalesce(contabil[k].inc)) in PropRows(kids, contabil, parents)
    decreases |kids|
  {
    if kids != [] {
      var init := kids[..|kids| - 1];
      var k := kids[|kids| - 1];
      PropRowsSpec(init, contabil, parents);
      ChildRowsSpec(k, contabil[k], parents);
      assert forall x :: x in kids ==> x in init || x == k;
      assert forall x :: x in init ==> x in kids;
    }
  }

  /** The (physical id, `NRBRM`) link of each parent row, in ledger order. */
  function Links(parents: seq<ParRow>): (r: seq<(int, int)>)
    ensures |r| == |parents|
    decreases |parents|
  {
    if parents == [] then []
    else Links(parents[..|parents| - 1]) + [(parents[|parents| - 1].fis, parents[|parents| - 1].nrbrm)]
  }

  /** Multiplicity of the merge for one child: a row occurs once for every
      parent row carrying its physical id and the child's `NRBRM`. */
  lemma {:induction false} ChildRowsCount(k: int, a: Asset, parents: seq<ParRow>, r: NewRow)
    requires a.nrbrm.Some?
    ensures multiset(ChildRows(k, a, parents))[r] ==
      if r.ctb == k && r.nrbrm == a.nrbrm.value && r.inc == Coalesce(a.inc)
      then multiset(Links(parents))[(r.fis, r.nrbrm)] else 0
    decreases |parents|
  {
    if parents != [] {
      ChildRowsCount(k, a, parents[..|parents| - 1], r);
    }
  }

  /** Multiplicity of the whole merge, over distinct children: each row
      occurs exactly as often as parent rows give its physical id and the
      child's `NRBRM`, and no other row occurs. */
  lemma {:induction false} PropRowsCount(kids: seq<int>, contabil: map<int, Asset>, parents: seq<ParRow>, r: NewRow)
    requires forall i :: 0 <= i < |kids| ==> kids[i] in contabil && contabil[kids[i]].nrbrm.Some?
    requires forall i, j :: 0 <= i < j < |kids| ==> kids[i] != kids[j]
    ensures multiset(PropRows(kids, contabil, parents))[r] ==
      if r.ctb in kids && r.nrbrm == contabil[r.ctb].nrbrm.value && r.inc == Coalesce(contabil[r.ctb].inc)
      then multiset(Links(parents))[(r.fis, r.nrbrm)] else 0
    decreases |kids|
  {
    if kids != [] {
      var init := kids[..|kids| - 1];
      var k := kids[|kids| - 1];
      PropRowsCount(init, contabil, parents, r);
      ChildRowsCount(k, contabil[k], parents, r);
      assert forall x :: x in kids <==> x in init || x == k;
    }
  }

  /** The merge does not deduplicate: a child whose `NRBRM` two parents
      share is committed twice, once under each. */
  lemma ChildOfTwoParents(k: int, a: Asset, p1: ParRow, p2: ParRow)
    requires a.nrbrm.Some? && p1.nrbrm == a.nrbrm.value && p2.nrbrm == a.nrbrm.value
    ensures ChildRows(k, a, [p1, p2]) == [NewRow(p1.fis, k, p1.nrbrm, Coalesce(a.inc)), NewRow(p2.fis, k, p2.nrbrm, Coalesce(a.inc))]
  {
    assert [p1, p2][..1] == [p1];
    assert [p1][..0] == [];
    assert ChildRows(k, a, [p1]) == [NewRow(p1.fis, k, p1.nrbrm, Coalesce(a.inc))];
  }

  /** The pending children in ascending order; none when there is no parent
      or nothing is pending. */
  method ChildIds(contabil: map<int, Asset>, conc: map<LockKey, int>, hasFrag: bool,
                  anyParent: bool, pending: set<int>) returns (kids: seq<int>)
    requires pending == ReadPending(contabil, conc, Ctb, hasFrag)
    ensures !anyParent ==> kids == []
    ensures anyParent ==> forall k :: k in kids <==> IsChild(contabil, conc, hasFrag, k)
    ensures forall i, j :: 0 <= i < j < |kids| ==> kids[i] < kids[j]
    ensures forall i :: 0 <= i < |kids| ==> kids[i] in contabil && contabil[kids[i]].nrbrm.Some?
  {
    assert forall k :: IsChild(contabil, conc, hasFrag, k) ==> k in pending;
    kids := [];
    if !anyParent || pending == {} {
      return;
    }
    var children := set id | id in pending && IsChild(contabil, conc, hasFrag, id);
    assert forall k :: IsChild(contabil, conc, hasFrag, k) ==> k in children;
    if children == {} {
      return;
    }
    kids := SortIds(children);
    assert forall i :: 0 <= i < |kids| ==> kids[i] in children;
  }

  /** `run_propagacao_incorporados`: every pending accounting child
      (`INC <> 0`) is committed once per parent ledger row
      (`COALESCE(INC_CONTABIL,0) = 0`) with its `NRBRM`, under status
      `CA - INC`, with the parent's physical id. The statistics are the
      number of distinct physical ids of the parents and the number of
      pending accounting rows. */
  method RunPropagation(db: Db) returns (stats: MatchStats, kids: seq<int>)
    modifies db
    ensures stats.st == "CA - INC"
    ensures stats.candidatosFisico == |set p | p in Parents(old(db.depara)) :: p.fis|
    ensures stats.candidatosContabil == |ReadPending(old(db.contabil), old(db.conciliados), Ctb, db.hasFrag)|
    ensures Parents(old(db.depara)) != [] ==> forall k :: k in kids <==> IsChild(old(db.contabil), old(db.conciliados), db.hasFrag, k)
    ensures forall i, j :: 0 <= i < j < |kids| ==> kids[i] < kids[j]
    ensures forall i :: 0 <= i < |kids| ==> kids[i] in old(db.contabil) && old(db.contabil)[kids[i]].nrbrm.Some?
    ensures stats.conciliados == |PropRows(kids, old(db.contabil), Parents(old(db.depara)))|
    ensures BulkEffect(old(db.depara), old(db.conciliados), old(db.fisico), old(db.contabil), db.hasFrag,
                       "CA - INC", PropRows(kids, old(db.contabil), Parents(old(db.depara))),
                       db.depara, db.conciliados, db.fisico, db.contabil)
  {
    var st := "CA - INC";
    var parents := Parents(db.depara);
    var candF := |set p | p in parents :: p.fis|;
    var pending := ReadPending(db.contabil, db.conciliados, Ctb, db.hasFrag);
    var candC := |pending|;
    kids := ChildIds(db.contabil, db.conciliados, db.hasFrag, parents != [], pending);
    var rows := PropRows(kids, db.contabil, parents);
    if rows == [] {
      return MatchStats(st, candF, candC, 0), kids;
    }
    var created := BulkInsertPairs(db, rows, st);
    stats := MatchStats(st, candF, candC, created);
  }

  // ---------------------------------------------------------------------
  // the ledger NRBRM of the rules and the propagation

  /** With the accounting row's `NRBRM` in the ledger, every pair a rule
      commits becomes a parent of the pending children of its accounting
      row: propagation links each of them to the pair's physical id. */
  lemma RuleParentsAdopt(d0: seq<ParRow>, st: string, order: seq<(int, int)>, contabil: map<int, Asset>,
                         kids: seq<int>, i: nat, k: int)
    requires forall j :: 0 <= j < |order| ==> order[j].1 in contabil
    requires forall j :: 0 <= j < |kids| ==> kids[j] in contabil && contabil[kids[j]].nrbrm.Some?
    requires i < |order| && k in kids && contabil[order[i].1].nrbrm == contabil[k].nrbrm
    ensures NewRow(order[i].0, k, contabil[k].nrbrm.value, Coalesce(contabil[k].inc))
      in PropRows(kids, contabil, Parents(d0 + BulkRows(NextParId(d0), st, RuleRows(order, contabil))))
  {
    var added := BulkRows(NextParId(d0), st, RuleRows(order, contabil));
    var parent := added[i];
    assert parent == (d0 + added)[|d0| + i];
    assert parent in Parents(d0 + added);
    PropRowsSpec(kids, contabil, Parents(d0 + added));
  }

  /** As written, a `BEM_ANTERIOR = NRBRM` pair is stored with `NRBRM` 0, so
      the accounting parent's child (`NRBRM` 7, `INC` 1) is never attached;
      with the accounting `NRBRM` stored it is. */
  lemma NrbrmZeroLosesChildren()
    ensures var parent := Asset(Some(7), Some(0), None, "", "", "", "", "", "", "", "");
            var child := Asset(Some(7), Some(1), None, "", "", "", "", "", "", "", "");
            var contabil := map[1 := parent, 2 := child];
            var st := RuleStatus(BemAntFisEqNrbrmCtb);
            var written := BulkRows(1, st, [NewRow(10, 1, LedgerNrbrmAsWritten(BemAntFisEqNrbrmCtb, Num(7)), 0)]);
            var corrected := BulkRows(1, st, RuleRows([(10, 1)], contabil));
            && PropRows([2], contabil, Parents(written)) == []
            && PropRows([2], contabil, Parents(corrected)) == [NewRow(10, 2, 7, 1)]
  {
    var parent := Asset(Some(7), Some(0), None, "", "", "", "", "", "", "", "");
    var child := Asset(Some(7), Some(1), None, "", "", "", "", "", "", "", "");
    var contabil := map[1 := parent, 2 := child];
    var st := RuleStatus(BemAntFisEqNrbrmCtb);
    var written := BulkRows(1, st, [NewRow(10, 1, 0, 0)]);
    var corrected := BulkRows(1, st, RuleRows([(10, 1)], contabil));
    assert written == [ParRow(1, st, 10, 1, 0, Some(0))];
    assert corrected == [ParRow(1, st, 10, 1, 7, Some(0))];
    assert Parents(written) == written by {
      assert written[..0] == [];
    }
    assert Parents(corrected) == corrected by {
      assert corrected[..0] == [];
    }
    assert ChildRows(2, child, written) == [] by {
      assert written[..0] == [];
    }
    assert ChildRows(2, child, corrected) == [NewRow(10, 2, 7, 1)] by {
      assert corrected[..0] == [];
    }
    assert [2][..0] == [];
  }

  /** The input of the example above is a genuine `BEM_ANTERIOR = NRBRM` pair:
      physical row 10 with `BEM_ANTERIOR` 7 and accounting row 1 with `NRBRM` 7
      and `INC` 0 (row 2 has `INC` 1 and is left out). */
  lemma NrbrmZeroExampleIsRulePair()
    ensures var fisico := map[10 := Asset(None, None, Some(7), "", "", "", "", "", "", "", "")];
            var contabil := map[1 := Asset(Some(7), Some(0), None, "", "", "", "", "", "", "", ""),
                                2 := Asset(Some(7), Some(1), None, "", "", "", "", "", "", "", "")];
            PairByValue(FisKeys(fisico, map[], false, BemAntFisEqNrbrmCtb), CtbKeys(contabil, map[], false, BemAntFisEqNrbrmCtb))
              == {(10, 1)}
  {
    var fisico := map[10 := Asset(None, None, Some(7), "", "", "", "", "", "", "", "")];
    var contabil := map[1 := Asset(Some(7), Some(0), None, "", "", "", "", "", "", "", ""),
                        2 := Asset(Some(7), Some(1), None, "", "", "", "", "", "", "", "")];
    var fk := FisKeys(fisico, map[], false, BemAntFisEqNrbrmCtb);
    var ck := CtbKeys(contabil, map[], false, BemAntFisEqNrbrmCtb);
    assert fk == map[10 := Num(7)];
    assert ck == map[1 := Num(7)];
    assert Group(fk, Num(7)) == {10};
    assert Group(ck, Num(7)) == {1};
    assert (10, 1) in PairByValue(fk, ck);
  }

  // ---------------------------------------------------------------------
  // run_automatico_01

  /** A rule as `run_automatico_01` calls it: only its statistics are kept. */
  method RunRule(db: Db, rule: KeyRule) returns (stats: MatchStats)
    modifies db
    ensures stats.st == RuleStatus(rule)
  {
    var order;
    stats, order := RunKeyRule(db, rule);
  }

  /** `run_automatico_01`: the five key rules and the propagation, in this
      order, each on the state the previous one left. */
  method RunAutomatico01(db: Db) returns (stats: seq<MatchStats>)
    modifies db
    ensures |stats| == 6
    ensures stats[0].st == "NRBEM_FIS=NRBEM_CTB" && stats[1].st == "BEMANT_FIS=NRBEM_CTB"
    ensures stats[2].st == "NRBRM_FIS=NRBEM_CTB" && stats[3].st == "SERIE_FIS_SERIE_CTB"
    ensures stats[4].st == "TAG_FIS_TAG_CTB" && stats[5].st == "CA - INC"
  {
    var s1 := RunRule(db, NrbrmPai);
    var s2 := RunRule(db, BemAntFisEqNrbrmCtb);
    var s3 := RunRule(db, NrbrmFisEqBemAntCtb);
    var s4 := RunRule(db, Exata(Serie, "SERIE_FIS_SERIE_CTB", true));
    var s5 := RunRule(db, Exata(Tag, "TAG_FIS_TAG_CTB", true));
    stats := [s1, s2, s3, s4, s5];
    var s6, kids := RunPropagation(db);
    stats := stats + [s6];
  }
}

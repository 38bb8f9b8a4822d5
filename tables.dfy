/**
 * The database the reconciliation works on: the two registers `fisico` and
 * `contabil`, the ledger `depara` and the lock table `conciliados`, plus the
 * orderings and aggregate queries the core runs against them.
 */
module Tables {
  import opened Wrappers

  /** `BASE` of a lock row: the physical (`FIS`) or the accounting (`CTB`) register. */
  datatype Side = Fis | Ctb

  /** The unique key `(BASE, ID)` of `conciliados`. */
  datatype LockKey = LockKey(side: Side, id: int)

  /** A lock row to insert: key and `PAR_ID`. */
  type LockRow = (LockKey, int)

  /**
   * One row of `fisico` or `contabil`, reduced to the columns the core reads.
   * Nullable integers are `Option`s; text columns are stored by the importer
   * with nulls as "" and the `*_NORM` columns trimmed and upper-cased.
   * `bemAnterior` is `BEM_ANTERIOR` read as a number (None when it is not one).
   */
  datatype Asset = Asset(
    nrbrm: Option<int>, inc: Option<int>, bemAnterior: Option<int>,
    serie: string, tag: string, frag: string,
    descricao: string, descNorm: string, serieNorm: string, modeloNorm: string, tagNorm: string)

  /** `COALESCE(x, 0)`. */
  function Coalesce(x: Option<int>): int { if x.Some? then x.value else 0 }

  /** A ledger row `(PAR_ID, ST_CONCILIACAO, ID_FISICO, ID_CONTABIL, NRBRM, INC_CONTABIL)`;
      an absent side is 0 and `INC_CONTABIL` is null for a pair without accounting row. */
  datatype ParRow = ParRow(parId: int, status: string, fis: int, ctb: int, nrbrm: int, inc: Option<int>)

  /** The database. Rows are keyed by their `ID`. */
  class Db {
    var fisico: map<int, Asset>
    var contabil: map<int, Asset>
    var depara: seq<ParRow>
    var conciliados: map<LockKey, int>
    /** Whether the registers have a `FRAG` column. */
    const hasFrag: bool

    constructor (fisico: map<int, Asset>, contabil: map<int, Asset>, hasFrag: bool)
      ensures this.fisico == fisico && this.contabil == contabil && this.hasFrag == hasFrag
      ensures depara == [] && conciliados == map[]
    {
      this.fisico := fisico;
      this.contabil := contabil;
      this.hasFrag := hasFrag;
      depara := [];
      conciliados := map[];
    }
  }

  // ---------------------------------------------------------------------
  // PAR_ID allocation

  /** `COALESCE(MAX(PAR_ID), 0)`. */
  function MaxParId(rows: seq<ParRow>): (m: int)
    ensures rows == [] ==> m == 0
    ensures forall k :: 0 <= k < |rows| ==> rows[k].parId <= m
    ensures rows != [] ==> exists k :: 0 <= k < |rows| && rows[k].parId == m
  {
    if rows == [] then 0
    else if |rows| == 1 then rows[0].parId
    else
      var m := MaxParId(rows[..|rows| - 1]);
      var last := rows[|rows| - 1].parId;
      assert forall k :: 0 <= k < |rows| - 1 ==> rows[k] == rows[..|rows| - 1][k];
      if last > m then last else m
  }

  /** The first `PAR_ID` a commit allocates: above every existing one. */
  function NextParId(rows: seq<ParRow>): (p: int)
    ensures forall k :: 0 <= k < |rows| ==> rows[k].parId < p
  {
    MaxParId(rows) + 1
  }

  /** Rows numbered `start`, `start + 1`, … in order. */
  predicate Consecutive(rows: seq<ParRow>, start: int) {
    forall k :: 0 <= k < |rows| ==> rows[k].parId == start + k
  }

  /** Appending consecutively numbered rows from `NextParId` never reuses a `PAR_ID`. */
  lemma FreshParIds(old_: seq<ParRow>, added: seq<ParRow>)
    requires Consecutive(added, NextParId(old_))
    ensures forall i, j :: 0 <= i < j < |old_ + added| && j >= |old_| ==>
      (old_ + added)[i].parId != (old_ + added)[j].parId
  {
    forall i, j | 0 <= i < j < |old_ + added| && j >= |old_|
      ensures (old_ + added)[i].parId != (old_ + added)[j].parId
    {
      assert (old_ + added)[j] == added[j - |old_|];
      if i >= |old_| {
        assert (old_ + added)[i] == added[i - |old_|];
      } else {
        assert (old_ + added)[i] == old_[i];
      }
    }
  }

  // ---------------------------------------------------------------------
  // locks

  /** `INSERT OR IGNORE INTO conciliados` of a batch of lock rows, in order: a key
      already present, or inserted earlier in the batch, keeps its first `PAR_ID`. */
  function InsertOrIgnore(m: map<LockKey, int>, rows: seq<LockRow>): (r: map<LockKey, int>)
    ensures forall k :: k in m ==> k in r && r[k] == m[k]
    ensures forall k :: k in r <==> k in m || exists j :: 0 <= j < |rows| && rows[j].0 == k
    decreases |rows|
  {
    if rows == [] then m
    else
      var m1 := if rows[0].0 in m then m else m[rows[0].0 := rows[0].1];
      var r := InsertOrIgnore(m1, rows[1..]);
      assert forall j :: 1 <= j < |rows| ==> rows[j] == rows[1..][j - 1];
      r
  }

  /** A key new to the table takes the `PAR_ID` of its first occurrence in the batch. */
  lemma {:induction false} InsertOrIgnoreFirst(m: map<LockKey, int>, rows: seq<LockRow>, j: nat)
    requires j < |rows| && rows[j].0 !in m
    requires forall i :: 0 <= i < j ==> rows[i].0 != rows[j].0
    ensures InsertOrIgnore(m, rows)[rows[j].0] == rows[j].1
    decreases j
  {
    var m1 := if rows[0].0 in m then m else m[rows[0].0 := rows[0].1];
    if j > 0 {
      assert rows[1..][j - 1] == rows[j];
      InsertOrIgnoreFirst(m1, rows[1..], j - 1);
    }
  }

  // ---------------------------------------------------------------------
  // ORDER BY

  predicate PairLess(a: (int, int), b: (int, int)) { a.0 < b.0 || (a.0 == b.0 && a.1 < b.1) }

  /** Strictly increasing in the lexicographic order. */
  predicate StrictlySorted(s: seq<(int, int)>) {
    forall i, j :: 0 <= i < j < |s| ==> PairLess(s[i], s[j])
  }

  /** `m` is the least element of `s`. */
  predicate IsMinPair(m: (int, int), s: set<(int, int)>) {
    m in s && forall x :: x in s ==> x == m || PairLess(m, x)
  }

  lemma {:induction false} MinPairExists(s: set<(int, int)>)
    requires s != {}
    ensures exists m :: IsMinPair(m, s)
    decreases |s|
  {
    var y :| y in s;
    if s - {y} == {} {
      forall x | x in s ensures x == y {
        assert x !in s - {y};
      }
      assert IsMinPair(y, s);
    } else {
      MinPairExists(s - {y});
      var m :| IsMinPair(m, s - {y});
      if PairLess(y, m) {
        forall x | x in s ensures x == y || PairLess(y, x) {
          if x != y { assert x in s - {y}; }
        }
        assert IsMinPair(y, s);
      } else {
        forall x | x in s ensures x == m || PairLess(m, x) {
          if x != y { assert x in s - {y}; }
        }
        assert IsMinPair(m, s);
      }
    }
  }

  /** `ORDER BY a, b` over a set of distinct pairs. */
  ghost function SortedPairs(s: set<(int, int)>): (r: seq<(int, int)>)
    ensures |r| == |s|
    ensures forall x :: x in r <==> x in s
    ensures StrictlySorted(r)
    decreases |s|
  {
    if s == {} then []
    else
      MinPairExists(s);
      var m :| IsMinPair(m, s);
      var rest := SortedPairs(s - {m});
      assert forall i :: 1 <= i < |[m] + rest| ==> ([m] + rest)[i] == rest[i - 1];
      [m] + rest
  }

  /** The least element comes first. */
  lemma SortedPairsUnfold(s: set<(int, int)>, m: (int, int))
    requires IsMinPair(m, s)
    ensures SortedPairs(s) == [m] + SortedPairs(s - {m})
  {
    MinPairExists(s);
    var m' :| IsMinPair(m', s);
    assert m' == m;
  }

  lemma SortStep(r: seq<(int, int)>, rest: set<(int, int)>, m: (int, int), s: set<(int, int)>)
    requires r + SortedPairs(rest) == SortedPairs(s) && IsMinPair(m, rest)
    ensures (r + [m]) + SortedPairs(rest - {m}) == SortedPairs(s)
  {
    SortedPairsUnfold(rest, m);
    assert (r + [m]) + SortedPairs(rest - {m}) == r + ([m] + SortedPairs(rest - {m}));
  }

  /** Builds the `ORDER BY a, b` result by repeatedly taking the least pair left. */
  method SortPairs(s: set<(int, int)>) returns (r: seq<(int, int)>)
    ensures r == SortedPairs(s)
  {
    r := [];
    var rest := s;
    while rest != {}
      invariant r + SortedPairs(rest) == SortedPairs(s)
      decreases |rest|
    {
      MinPairExists(rest);
      var m :| IsMinPair(m, rest);
      SortStep(r, rest, m, s);
      r := r + [m];
      rest := rest - {m};
    }
  }

  /** `m` is the least element of `s`. */
  predicate IsMinId(m: int, s: set<int>) {
    m in s && forall x :: x in s ==> m <= x
  }

  lemma {:induction false} MinIdExists(s: set<int>)
    requires s != {}
    ensures exists m :: IsMinId(m, s)
    decreases |s|
  {
    assert exists y :: y in s by {
      if forall y :: y !in s {
        assert false;
      }
    }
    var y :| y in s;
    if s - {y} == {} {
      forall x | x in s ensures y <= x {
        assert x !in s - {y};
      }
      assert IsMinId(y, s);
    } else {
      MinIdExists(s - {y});
      var m :| IsMinId(m, s - {y});
      if y < m {
        forall x | x in s ensures y <= x {
          if x != y { assert x in s - {y}; }
        }
        assert IsMinId(y, s);
      } else {
        forall x | x in s ensures m <= x {
          if x != y { assert x in s - {y}; }
        }
        assert IsMinId(m, s);
      }
    }
  }

  /** `ORDER BY ID` over a set of ids, by repeatedly taking the least id left. */
  method SortIds(s: set<int>) returns (r: seq<int>)
    ensures forall x :: x in r <==> x in s
    ensures forall i, j :: 0 <= i < j < |r| ==> r[i] < r[j]
  {
    r := [];
    var rest := s;
    while rest != {}
      invariant forall x :: x in s <==> x in r || x in rest
      invariant forall x :: x in r ==> x !in rest
      invariant forall i, j :: 0 <= i < j < |r| ==> r[i] < r[j]
      invariant forall i, x :: 0 <= i < |r| && x in rest ==> r[i] < x
      decreases |rest|
    {
      MinIdExists(rest);
      var m :| IsMinId(m, rest);
      r := r + [m];
      rest := rest - {m};
    }
  }

  /** `LIMIT n`. */
  function Take<T>(s: seq<T>, n: nat): (r: seq<T>)
    ensures |r| <= n && |r| <= |s| && r == s[..|r|]
    ensures |r| < n ==> r == s
  {
    if |s| <= n then s else s[..n]
  }
}

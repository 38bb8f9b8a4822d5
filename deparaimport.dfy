/**
 * The de-para import: a spreadsheet of (physical trio, accounting trio) rows,
 * each trio being `ID`, `NRBEM` and `INC`, validated row by row against the
 * registers and the locks, then committed as "DIRETA" pairs (both sides) and
 * "NÃO CHAPEÁVEL" pairs (one side), optionally with the pending children of
 * each accounting parent.
 */
module DeparaImport {
  import opened Wrappers
  import opened Tables
  import opened PyStr
  import FamilyLedger

  // ---------------------------------------------------------------------
  // cells and blanks

  /** A spreadsheet cell read as text: missing (NaN) or a string. */
  datatype Cell = Missing | Text(s: string)

  /** `_to_int`: missing and blank cells, and text that `int(float(.))` rejects, are None. */
  function ToInt(x: Cell): (r: Option<int>)
    ensures x.Missing? ==> r.None?
    ensures x.Text? && IsBlank(x.s) ==> r.None?
  {
    if x.Missing? then None
    else
      var s := Strip(x.s);
      StripEmptyIffBlank(x.s);
      if s == "" then None else ParseSigned(s)
  }

  /** What `str(n)` writes, `_to_int` reads back. */
  lemma ToIntOfIntToString(n: int)
    ensures ToInt(Text(IntToString(n))) == Some(n)
  {
    ParseSignedOfIntToString(n);
    var t := IntToString(n);
    assert t != [] && !IsSpace(t[0]) && !IsSpace(t[|t| - 1]);
    StripOfTrimmed(t);
  }

  /** A Python value `_is_blank` is asked about. */
  datatype PyVal = PNone | PInt(i: int) | PStr(s: string)

  /** `_is_blank`: None and whitespace-only strings are blank, and so are the
      int 0 and the string "0" unless zero is allowed. */
  predicate Blank(x: PyVal, allowZero: bool) {
    || x.PNone?
    || (x.PStr? && IsBlank(x.s))
    || (!allowZero && (x == PInt(0) || x == PStr("0")))
  }

  /** An `_to_int` result as a Python value. */
  function Lift(o: Option<int>): PyVal {
    if o.Some? then PInt(o.value) else PNone
  }

  /** On `_to_int` results a value is blank when absent, or zero where zero is not allowed. */
  lemma BlankOfLift(o: Option<int>, allowZero: bool)
    ensures Blank(Lift(o), allowZero) <==> o.None? || (!allowZero && o == Some(0))
  {
  }

  /** `_trio_any`: some field is filled; `ID` 0 and `NRBEM` 0 do not count, `INC` 0 does. */
  predicate TrioAny(id: PyVal, nr: PyVal, inc: PyVal) {
    !Blank(id, false) || !Blank(nr, false) || !Blank(inc, true)
  }

  /** `_trio_all`: every field is filled, in the same sense. */
  predicate TrioAll(id: PyVal, nr: PyVal, inc: PyVal) {
    !Blank(id, false) && !Blank(nr, false) && !Blank(inc, true)
  }

  /** A complete trio is a filled one. */
  lemma TrioAllAny(id: PyVal, nr: PyVal, inc: PyVal)
    ensures TrioAll(id, nr, inc) ==> TrioAny(id, nr, inc)
  {
  }

  /** `INC` 0 alone fills a trio partially (so the row is incomplete), while
      `ID` 0 and `NRBEM` 0 alone leave it empty; a parent trio with `INC` 0 is complete. */
  lemma TrioZeroes(id: int, nr: int)
    ensures TrioAny(PNone, PNone, PInt(0)) && !TrioAll(PNone, PNone, PInt(0))
    ensures !TrioAny(PInt(0), PInt(0), PNone)
    ensures id != 0 && nr != 0 ==> TrioAll(PInt(id), PInt(nr), PInt(0))
    ensures !TrioAll(PInt(0), PInt(nr), PInt(0)) && !TrioAll(PInt(id), PInt(0), PInt(0))
  {
  }

  // ---------------------------------------------------------------------
  // _first_col

  /** The `(c.strip().upper(), c.strip())` entries of the columns. */
  function ColumnEntries(cols: seq<string>): (r: seq<(string, string)>)
    ensures |r| == |cols|
  {
    seq(|cols|, i requires 0 <= i < |cols| => (Upper(Strip(cols[i])), Strip(cols[i])))
  }

  /** A dictionary built from entries in order: a later entry wins. */
  function DictOf(es: seq<(string, string)>): map<string, string>
    decreases |es|
  {
    if es == [] then map[] else DictOf(es[..|es| - 1])[es[|es| - 1].0 := es[|es| - 1].1]
  }

  /** Entry `i` is the last one with key `k`. */
  predicate LastEntry(es: seq<(string, string)>, k: string, i: int) {
    0 <= i < |es| && es[i].0 == k && forall j :: i < j < |es| ==> es[j].0 != k
  }

  /** Every entry's key is in the dictionary, and every key holds the value
      of the last entry with that key. */
  lemma {:induction false} DictOfSpec(es: seq<(string, string)>)
    ensures forall i :: 0 <= i < |es| ==> es[i].0 in DictOf(es)
    ensures forall k :: k in DictOf(es) ==> exists i :: LastEntry(es, k, i) && DictOf(es)[k] == es[i].1
    decreases |es|
  {
    if es != [] {
      var init := es[..|es| - 1];
      var last := |es| - 1;
      DictOfSpec(init);
      forall k | k in DictOf(es) ensures exists i :: LastEntry(es, k, i) && DictOf(es)[k] == es[i].1 {
        if k != es[last].0 {
          var i :| LastEntry(init, k, i) && DictOf(init)[k] == init[i].1;
          assert es[i] == init[i];
          forall j | i < j < |es| ensures es[j].0 != k {
            if j < last { assert es[j] == init[j]; }
          }
          assert LastEntry(es, k, i);
        } else {
          assert LastEntry(es, k, last);
        }
      }
      forall i | 0 <= i < last ensures es[i].0 in DictOf(es) {
        assert es[i] == init[i];
      }
    }
  }

  /** `cols_upper` of `_first_col`. */
  function ColumnMap(cols: seq<string>): map<string, string> {
    DictOf(ColumnEntries(cols))
  }

  /** `_first_col`: the real name of the first option present among the
      columns, compared after trimming and upper-casing; None when none is. */
  method FirstCol(cols: seq<string>, options: seq<string>) returns (r: Option<string>)
    ensures r.None? <==> forall i :: 0 <= i < |options| ==> Upper(options[i]) !in ColumnMap(cols)
    ensures r.Some? ==>
      exists i :: (0 <= i < |options| && Upper(options[i]) in ColumnMap(cols)
        && r.value == ColumnMap(cols)[Upper(options[i])]
        && forall j :: 0 <= j < i ==> Upper(options[j]) !in ColumnMap(cols))
  {
    var colsUpper := ColumnMap(cols);
    var i := 0;
    while i < |options|
      invariant i <= |options|
      invariant forall j :: 0 <= j < i ==> Upper(options[j]) !in colsUpper
    {
      if Upper(options[i]) in colsUpper {
        r := Some(colsUpper[Upper(options[i])]);
        assert Upper(options[i]) in ColumnMap(cols) && r.value == ColumnMap(cols)[Upper(options[i])];
        return;
      }
      i := i + 1;
    }
    return None;
  }

  /** A name `_first_col` finds for an option is the trimmed name of the
      last column equal to the option up to case and surrounding spaces;
      every column can be found. */
  lemma FirstColIsColumn(cols: seq<string>, opt: string)
    ensures Upper(opt) in ColumnMap(cols) ==>
      exists i :: (0 <= i < |cols| && Upper(Strip(cols[i])) == Upper(opt)
        && ColumnMap(cols)[Upper(opt)] == Strip(cols[i])
        && forall j :: i < j < |cols| ==> Upper(Strip(cols[j])) != Upper(opt))
    ensures forall i :: 0 <= i < |cols| ==> Upper(Strip(cols[i])) in ColumnMap(cols)
  {
    var es := ColumnEntries(cols);
    DictOfSpec(es);
    assert forall i :: 0 <= i < |cols| ==> es[i].0 == Upper(Strip(cols[i])) && es[i].1 == Strip(cols[i]);
    if Upper(opt) in ColumnMap(cols) {
      var i :| LastEntry(es, Upper(opt), i) && DictOf(es)[Upper(opt)] == es[i].1;
    }
  }

  // ---------------------------------------------------------------------
  // _resolve_fis_id / _resolve_ctb_id

  /** Why a complete trio does not resolve. */
  datatype ResolveErr =
    | IdInvalid           // no `ID`
    | NrInvalid           // no `NRBEM`
    | IdMismatch          // unknown `ID`, but some row has this NRBEM/INC
    | NotFound            // unknown `ID`, and no row has this NRBEM/INC
    | AlreadyLocked       // the row has a lock
    | Disagrees           // the row's NRBRM or INC differ from the trio's

  /** The trio `(ID, NRBEM, INC)` of one side of a spreadsheet row. */
  datatype Trio = Trio(id: Option<int>, nr: Option<int>, inc: Option<int>)

  predicate SameNrInc(a: Asset, nr: int, inc: int) {
    Coalesce(a.nrbrm) == nr && Coalesce(a.inc) == inc
  }

  /** `_resolve_*_id` against one register: the trio's `ID` when that row
      exists, has no lock, and has the trio's NRBRM and INC (a missing INC
      is 0); otherwise why not. */
  function Resolve(reg: map<int, Asset>, conc: map<LockKey, int>, side: Side, t: Trio): (r: Result<int, ResolveErr>)
    ensures r.Success? <==>
      t.id.Some? && t.nr.Some? && t.id.value in reg && LockKey(side, t.id.value) !in conc
      && SameNrInc(reg[t.id.value], t.nr.value, Coalesce(t.inc))
    ensures r.Success? ==> r.value == t.id.value
    ensures r == Failure(AlreadyLocked) <==>
      t.id.Some? && t.nr.Some? && t.id.value in reg && LockKey(side, t.id.value) in conc
    ensures r == Failure(NotFound) || r == Failure(IdMismatch) <==>
      t.id.Some? && t.nr.Some? && t.id.value !in reg
  {
    if t.id.None? then Failure(IdInvalid)
    else if t.nr.None? then Failure(NrInvalid)
    else
      var id, nr, inc := t.id.value, t.nr.value, Coalesce(t.inc);
      if id !in reg then
        if exists x :: x in reg && SameNrInc(reg[x], nr, inc) then Failure(IdMismatch) else Failure(NotFound)
      else if LockKey(side, id) in conc then Failure(AlreadyLocked)
      else if !SameNrInc(reg[id], nr, inc) then Failure(Disagrees)
      else Success(id)
  }

  // ---------------------------------------------------------------------
  // _validate_preview

  /** An error message of a row. */
  datatype RowError =
    | FisIncomplete                 // "Físico: preencha ID_FIS, NRBEM_FIS e INC_FIS."
    | CtbIncomplete                 // "Contábil: preencha ID_CTB, NRBEM_CTB e INC_CTB."
    | NoSide                        // "Informe pelo menos um lado completo ..."
    | FisResolve(e: ResolveErr)
    | CtbResolve(e: ResolveErr)
    | FisInvalid                    // a resolution that returned ID 0
    | CtbInvalid

  /** A preview row: status, the resolved ids (0 when absent), and the
      accounting row's NRBRM (0 when absent) and INC (None shown as ""). */
  datatype Preview = Preview(ok: bool, fisId: int, ctbId: int, nrbrmCtb: int, incCtb: Option<int>, errors: seq<RowError>)

  predicate Filled(t: Trio) { TrioAny(Lift(t.id), Lift(t.nr), Lift(t.inc)) }

  predicate Complete(t: Trio) { TrioAll(Lift(t.id), Lift(t.nr), Lift(t.inc)) }

  /** The messages about how the trios are filled: a partially filled side,
      or, when both are fine, no complete side. */
  function ShapeErrors(fis: Trio, ctb: Trio): seq<RowError> {
    var e1 := (if Filled(fis) && !Complete(fis) then [FisIncomplete] else [])
              + (if Filled(ctb) && !Complete(ctb) then [CtbIncomplete] else []);
    e1 + (if e1 == [] && !Complete(fis) && !Complete(ctb) then [NoSide] else [])
  }

  /** The error of a resolution, if any; a resolved ID 0 is falsy and fails too. */
  function ResolveErrors(r: Result<int, ResolveErr>, fis: bool): seq<RowError> {
    if r.Failure? then [if fis then FisResolve(r.error) else CtbResolve(r.error)]
    else if r.value == 0 then [if fis then FisInvalid else CtbInvalid]
    else []
  }

  /** The validation of one row. */
  function ValidateRow(fisico: map<int, Asset>, contabil: map<int, Asset>, conc: map<LockKey, int>,
                       fis: Trio, ctb: Trio): Preview
  {
    var fisAll := Complete(fis);
    var ctbAll := Complete(ctb);
    var e2 := ShapeErrors(fis, ctb);
    var rf := Resolve(fisico, conc, Fis, fis);
    var e3 := e2 + (if e2 == [] && fisAll then ResolveErrors(rf, true) else []);
    var fisId := if e2 == [] && fisAll && rf.Success? && rf.value != 0 then rf.value else 0;
    var rc := Resolve(contabil, conc, Ctb, ctb);
    var e4 := e3 + (if e3 == [] && ctbAll then ResolveErrors(rc, false) else []);
    var ctbId := if e3 == [] && ctbAll && rc.Success? && rc.value != 0 then rc.value else 0;
    var ok := e4 == [];
    var withCtb := ok && ctbId != 0 && ctbId in contabil;
    Preview(ok, fisId, ctbId,
            if withCtb then Coalesce(contabil[ctbId].nrbrm) else 0,
            if withCtb then contabil[ctbId].inc else None,
            e4)
  }

  /** A row is valid exactly when no side is partially filled, some side is
      complete, and every complete side resolves (its row exists, has no lock
      and agrees on NRBRM and INC). A valid row carries the resolved ids of
      its complete sides and 0 for the others. */
  lemma ValidateRowSpec(fisico: map<int, Asset>, contabil: map<int, Asset>, conc: map<LockKey, int>,
                        fis: Trio, ctb: Trio)
    ensures var r := ValidateRow(fisico, contabil, conc, fis, ctb);
      var fisAll := Complete(fis);
      var ctbAll := Complete(ctb);
      && (r.ok <==>
            && (Filled(fis) ==> fisAll)
            && (Filled(ctb) ==> ctbAll)
            && (fisAll || ctbAll)
            && (fisAll ==> Resolve(fisico, conc, Fis, fis).Success?)
            && (ctbAll ==> Resolve(contabil, conc, Ctb, ctb).Success?))
      && (r.ok ==> (r.fisId == if fisAll then fis.id.value else 0) && (r.ctbId == if ctbAll then ctb.id.value else 0))
  {
  }

  /** A valid row's resolved ids name rows that exist and have no lock. */
  lemma ValidRowIdsPending(fisico: map<int, Asset>, contabil: map<int, Asset>, conc: map<LockKey, int>,
                           fis: Trio, ctb: Trio)
    ensures var r := ValidateRow(fisico, contabil, conc, fis, ctb);
      r.ok ==>
        && (r.fisId != 0 ==> r.fisId in fisico && LockKey(Fis, r.fisId) !in conc)
        && (r.ctbId != 0 ==> r.ctbId in contabil && LockKey(Ctb, r.ctbId) !in conc
                             && r.nrbrmCtb == Coalesce(contabil[r.ctbId].nrbrm) && r.incCtb == contabil[r.ctbId].inc)
  {
  }

  // ---------------------------------------------------------------------
  // the error counters

  /** The counters of the preview, in the order they are shown. */
  datatype ErrStats = ErrStats(inconsistencia: nat, jaConciliado: nat, naoEncontrado: nat,
                               incompleto: nat, semLado: nat, outros: nat)

  /** Which phrase each message contains ("não confere"/"não corresponde",
      "já conciliado", "não encontrado", "preencha", "pelo menos um lado
      completo"); the "inválido" messages contain none. */
  datatype Category = Inconsistencia | JaConciliado | NaoEncontrado | Incompleto | SemLado

  function ErrCategory(e: RowError): Option<Category> {
    match e
    case FisIncomplete => Some(Incompleto)
    case CtbIncomplete => Some(Incompleto)
    case NoSide => Some(SemLado)
    case FisInvalid => None
    case CtbInvalid => None
    case FisResolve(r) => ResolveCategory(r)
    case CtbResolve(r) => ResolveCategory(r)
  }

  function ResolveCategory(r: ResolveErr): Option<Category> {
    match r
    case IdInvalid => None
    case NrInvalid => None
    case IdMismatch => Some(Inconsistencia)
    case Disagrees => Some(Inconsistencia)
    case NotFound => Some(NaoEncontrado)
    case AlreadyLocked => Some(JaConciliado)
  }

  /** The categories whose phrase occurs in a row's joined messages. */
  function Categories(errs: seq<RowError>): set<Category> {
    set e | e in errs && ErrCategory(e).Some? :: ErrCategory(e).value
  }

  function Bump(n: nat, b: bool): nat { if b then n + 1 else n }

  /** The counters after one erroneous row: each category found counts once,
      and "outros" counts when none is found. */
  function CountRow(s: ErrStats, cats: set<Category>): ErrStats {
    ErrStats(Bump(s.inconsistencia, Inconsistencia in cats), Bump(s.jaConciliado, JaConciliado in cats),
             Bump(s.naoEncontrado, NaoEncontrado in cats), Bump(s.incompleto, Incompleto in cats),
             Bump(s.semLado, SemLado in cats), Bump(s.outros, cats == {}))
  }

  /** The counters over a preview. */
  function Tally(ps: seq<Preview>): ErrStats
    decreases |ps|
  {
    if ps == [] then ErrStats(0, 0, 0, 0, 0, 0)
    else
      var s := Tally(ps[..|ps| - 1]);
      var p := ps[|ps| - 1];
      if p.ok then s else CountRow(s, Categories(p.errors))
  }

  function OkCount(ps: seq<Preview>): nat
    decreases |ps|
  {
    if ps == [] then 0 else OkCount(ps[..|ps| - 1]) + (if ps[|ps| - 1].ok then 1 else 0)
  }

  function Total(s: ErrStats): nat {
    s.inconsistencia + s.jaConciliado + s.naoEncontrado + s.incompleto + s.semLado + s.outros
  }

  /** A row fails with exactly one category: either it is incomplete (on
      one or both sides), or it has no side, or its first complete side
      fails to resolve for one reason; the "inválido" messages cannot occur
      because a complete trio has a nonzero `ID` and an `NRBEM`. */
  lemma OneCategory(fisico: map<int, Asset>, contabil: map<int, Asset>, conc: map<LockKey, int>,
                    fis: Trio, ctb: Trio)
    ensures var r := ValidateRow(fisico, contabil, conc, fis, ctb);
      (r.ok <==> r.errors == []) && (!r.ok ==> |Categories(r.errors)| == 1)
  {
    var e2 := ShapeErrors(fis, ctb);
    if e2 != [] {
      ShapeCategory(fis, ctb);
      assert ValidateRow(fisico, contabil, conc, fis, ctb).errors == e2;
    } else {
      var rf := Resolve(fisico, conc, Fis, fis);
      var e3 := if Complete(fis) then ResolveErrors(rf, true) else [];
      if e3 != [] {
        ResolveCategoryOne(fisico, conc, Fis, fis, true);
        assert ValidateRow(fisico, contabil, conc, fis, ctb).errors == e3;
      } else if Complete(ctb) {
        ResolveCategoryOne(contabil, conc, Ctb, ctb, false);
        assert ValidateRow(fisico, contabil, conc, fis, ctb).errors
          == ResolveErrors(Resolve(contabil, conc, Ctb, ctb), false);
      }
    }
  }

  /** The shape messages name one category. */
  lemma ShapeCategory(fis: Trio, ctb: Trio)
    ensures ShapeErrors(fis, ctb) != [] ==> |Categories(ShapeErrors(fis, ctb))| == 1
  {
    var e := ShapeErrors(fis, ctb);
    if FisIncomplete in e || CtbIncomplete in e {
      assert Categories(e) == {Incompleto};
    } else if e != [] {
      assert e == [NoSide];
      CategoriesOfOne(NoSide);
    }
  }

  /** A complete trio that does not resolve gives one message with a category. */
  lemma ResolveCategoryOne(reg: map<int, Asset>, conc: map<LockKey, int>, side: Side, t: Trio, fis: bool)
    requires Complete(t)
    ensures var e := ResolveErrors(Resolve(reg, conc, side, t), fis);
      e == [] || (|e| == 1 && |Categories(e)| == 1)
  {
    var r := Resolve(reg, conc, side, t);
    var e := ResolveErrors(r, fis);
    if e != [] {
      assert r.Failure? && r.error != IdInvalid && r.error != NrInvalid;
      CategoriesOfOne(e[0]);
    }
  }

  lemma CategoriesOfOne(e: RowError)
    requires ErrCategory(e).Some?
    ensures Categories([e]) == {ErrCategory(e).value}
  {
    assert e in [e];
    assert ErrCategory(e).value in Categories([e]);
  }

  /** A preview row as `ValidateRow` builds it: valid exactly when it has no
      errors, and otherwise with errors of exactly one category. */
  predicate SingleCause(p: Preview) {
    (p.ok <==> p.errors == []) && (!p.ok ==> |Categories(p.errors)| == 1)
  }

  /** Every row of the preview has a single cause. */
  predicate SingleCauses(ps: seq<Preview>)
    decreases |ps|
  {
    ps == [] || (SingleCauses(ps[..|ps| - 1]) && SingleCause(ps[|ps| - 1]))
  }

  /** Hence over any preview built by `ValidateRow` "outros" stays 0 and the
      counters add up to the number of rows that are not valid. */
  lemma {:induction false} TallyOfValidated(ps: seq<Preview>)
    requires SingleCauses(ps)
    ensures Tally(ps).outros == 0
    ensures Total(Tally(ps)) + OkCount(ps) == |ps|
    decreases |ps|
  {
    if ps != [] {
      var init := ps[..|ps| - 1];
      TallyOfValidated(init);
      var p := ps[|ps| - 1];
      if !p.ok {
        CountOneCategory(Tally(init), p.errors);
      }
    }
  }

  /** A row with one category adds one to one counter other than "outros". */
  lemma CountOneCategory(s: ErrStats, errs: seq<RowError>)
    requires |Categories(errs)| == 1
    ensures CountRow(s, Categories(errs)).outros == s.outros
    ensures Total(CountRow(s, Categories(errs))) == Total(s) + 1
  {
    var cats := Categories(errs);
    var c :| c in cats;
    assert cats == {c} by {
      forall c' | c' in cats ensures c' == c {
        if c' != c {
          assert {c, c'} <= cats;
          assert |{c, c'}| == 2;
          SetCard({c, c'}, cats);
        }
      }
    }
  }

  lemma SetCard(a: set<Category>, b: set<Category>)
    requires a <= b
    ensures |a| <= |b|
  {
    assert b == a + (b - a);
  }

  // ---------------------------------------------------------------------
  // the preview over the spreadsheet

  const FisIdCols: seq<string> := ["ID_FIS", "ID_FISICO", "FIS_ID"]
  const FisNrCols: seq<string> := ["NRBEM_FIS", "NRBRM_FIS", "NRBRM_FISICO", "FIS_NRBEM", "FIS_NRBRM"]
  const FisIncCols: seq<string> := ["INC_FIS", "FIS_INC", "INC_FISICO"]
  const CtbIdCols: seq<string> := ["ID_CTB", "ID_CONT", "ID_CONTABIL", "CTB_ID"]
  const CtbNrCols: seq<string> := ["NRBEM_CTB", "NRBRM_CTB", "NRBRM_CONTABIL", "CTB_NRBEM", "CTB_NRBRM"]
  const CtbIncCols: seq<string> := ["INC_CTB", "INC_CTBN", "CTB_INC", "INC_CONTABIL"]

  /** The first option whose upper-cased name is a key of `m`, mapped through `m`. */
  function FirstKey(m: map<string, string>, options: seq<string>): Option<string>
    decreases |options|
  {
    if options == [] then None
    else if Upper(options[0]) in m then Some(m[Upper(options[0])])
    else FirstKey(m, options[1..])
  }

  lemma {:induction false} FirstKeyIsFirst(m: map<string, string>, options: seq<string>)
    ensures FirstKey(m, options).None? <==> forall i :: 0 <= i < |options| ==> Upper(options[i]) !in m
    ensures forall i :: (0 <= i < |options| && Upper(options[i]) in m
      && (forall j :: 0 <= j < i ==> Upper(options[j]) !in m)) ==>
      FirstKey(m, options) == Some(m[Upper(options[i])])
    decreases |options|
  {
    if options != [] {
      FirstKeyIsFirst(m, options[1..]);
      assert forall i :: 1 <= i < |options| ==> options[i] == options[1..][i - 1];
    }
  }

  /** The column `_first_col` picks, as a function of the columns. */
  function ColumnFor(cols: seq<string>, options: seq<string>): Option<string> {
    FirstKey(ColumnMap(cols), options)
  }

  lemma ColumnForIsFirstCol(cols: seq<string>, options: seq<string>)
    ensures ColumnFor(cols, options).None? <==> forall i :: 0 <= i < |options| ==> Upper(options[i]) !in ColumnMap(cols)
    ensures forall i :: (0 <= i < |options| && Upper(options[i]) in ColumnMap(cols)
      && (forall j :: 0 <= j < i ==> Upper(options[j]) !in ColumnMap(cols))) ==>
      ColumnFor(cols, options) == Some(ColumnMap(cols)[Upper(options[i])])
  {
    FirstKeyIsFirst(ColumnMap(cols), options);
  }

  /** `_to_int(row.get(c)) if c else None`. */
  function CellAt(row: map<string, Cell>, col: Option<string>): Option<int> {
    if col.Some? && col.value in row then ToInt(row[col.value]) else None
  }

  /** The six columns picked for a sheet. */
  datatype Columns = Columns(idF: Option<string>, nrF: Option<string>, incF: Option<string>,
                             idC: Option<string>, nrC: Option<string>, incC: Option<string>)

  function SheetColumns(cols: seq<string>): Columns {
    Columns(ColumnFor(cols, FisIdCols), ColumnFor(cols, FisNrCols), ColumnFor(cols, FisIncCols),
            ColumnFor(cols, CtbIdCols), ColumnFor(cols, CtbNrCols), ColumnFor(cols, CtbIncCols))
  }

  /** The two trios of a spreadsheet row. */
  function RowTrios(cs: Columns, row: map<string, Cell>): (Trio, Trio) {
    (Trio(CellAt(row, cs.idF), CellAt(row, cs.nrF), CellAt(row, cs.incF)),
     Trio(CellAt(row, cs.idC), CellAt(row, cs.nrC), CellAt(row, cs.incC)))
  }

  /** The preview row of a spreadsheet row. */
  function PreviewOf(fisico: map<int, Asset>, contabil: map<int, Asset>, conc: map<LockKey, int>,
                     cs: Columns, row: map<string, Cell>): Preview
  {
    var t := RowTrios(cs, row);
    ValidateRow(fisico, contabil, conc, t.0, t.1)
  }

  method PickColumn(cols: seq<string>, options: seq<string>) returns (r: Option<string>)
    ensures r == ColumnFor(cols, options)
  {
    r := FirstCol(cols, options);
    ColumnForIsFirstCol(cols, options);
  }

  /** The six `_first_col` look-ups of `_validate_preview`. */
  method PickColumns(cols: seq<string>) returns (cs: Columns)
    ensures cs == SheetColumns(cols)
  {
    var idF := PickColumn(cols, FisIdCols);
    var nrF := PickColumn(cols, FisNrCols);
    var incF := PickColumn(cols, FisIncCols);
    var idC := PickColumn(cols, CtbIdCols);
    var nrC := PickColumn(cols, CtbNrCols);
    var incC := PickColumn(cols, CtbIncCols);
    cs := Columns(idF, nrF, incF, idC, nrC, incC);
  }

  /** One row of the preview, extending the preview of the rows before it. */
  method PreviewRow(fisico: map<int, Asset>, contabil: map<int, Asset>, conc: map<LockKey, int>,
                    cs: Columns, rows: seq<map<string, Cell>>, i: nat) returns (p: Preview)
    requires i < |rows|
    ensures Previews(fisico, contabil, conc, cs, rows[..i + 1]) == Previews(fisico, contabil, conc, cs, rows[..i]) + [p]
  {
    var t := RowTrios(cs, rows[i]);
    p := ValidateRow(fisico, contabil, conc, t.0, t.1);
    assert rows[..i + 1][..i] == rows[..i];
  }

  lemma TallyStep(ps: seq<Preview>, p: Preview)
    ensures OkCount(ps + [p]) == OkCount(ps) + (if p.ok then 1 else 0)
    ensures Tally(ps + [p]) == if p.ok then Tally(ps) else CountRow(Tally(ps), Categories(p.errors))
  {
    assert (ps + [p])[..|ps|] == ps;
  }

  /** A valid row adds to `ok`, any other to the counters of its errors. */
  method CountPreview(ok: nat, stats: ErrStats, p: Preview) returns (ok': nat, stats': ErrStats)
    ensures ok' == ok + (if p.ok then 1 else 0)
    ensures stats' == if p.ok then stats else CountRow(stats, Categories(p.errors))
  {
    if p.ok {
      ok', stats' := ok + 1, stats;
    } else {
      ok', stats' := ok, CountRow(stats, Categories(p.errors));
    }
  }

  /** The preview of a run of rows: one preview row per spreadsheet row,
      in order. */
  function Previews(fisico: map<int, Asset>, contabil: map<int, Asset>, conc: map<LockKey, int>,
                    cs: Columns, rows: seq<map<string, Cell>>): (r: seq<Preview>)
    ensures |r| == |rows|
    decreases |rows|
  {
    if rows == [] then []
    else Previews(fisico, contabil, conc, cs, rows[..|rows| - 1]) + [PreviewOf(fisico, contabil, conc, cs, rows[|rows| - 1])]
  }

  /** A preview row has a single cause. */
  lemma PreviewOneCategory(fisico: map<int, Asset>, contabil: map<int, Asset>, conc: map<LockKey, int>,
                           cs: Columns, row: map<string, Cell>)
    ensures SingleCause(PreviewOf(fisico, contabil, conc, cs, row))
  {
    var t := RowTrios(cs, row);
    OneCategory(fisico, contabil, conc, t.0, t.1);
  }

  /** Every row of a preview has a single cause. */
  lemma {:induction false} PreviewsOneCategory(fisico: map<int, Asset>, contabil: map<int, Asset>, conc: map<LockKey, int>,
                                               cs: Columns, rows: seq<map<string, Cell>>)
    ensures SingleCauses(Previews(fisico, contabil, conc, cs, rows))
    decreases |rows|
  {
    if rows != [] {
      var init := rows[..|rows| - 1];
      PreviewsOneCategory(fisico, contabil, conc, cs, init);
      PreviewOneCategory(fisico, contabil, conc, cs, rows[|rows| - 1]);
      var ps := Previews(fisico, contabil, conc, cs, rows);
      assert ps[..|ps| - 1] == Previews(fisico, contabil, conc, cs, init);
    }
  }

  /** The loop of `_validate_preview` over the rows, with the counters. */
  method PreviewRows(fisico: map<int, Asset>, contabil: map<int, Asset>, conc: map<LockKey, int>,
                     cs: Columns, rows: seq<map<string, Cell>>)
    returns (previews: seq<Preview>, ok: nat, stats: ErrStats)
    ensures previews == Previews(fisico, contabil, conc, cs, rows)
    ensures ok == OkCount(previews) && stats == Tally(previews)
  {
    previews, ok, stats := [], 0, ErrStats(0, 0, 0, 0, 0, 0);
    var i := 0;
    while i < |rows|
      invariant i <= |rows| && previews == Previews(fisico, contabil, conc, cs, rows[..i])
      invariant ok == OkCount(previews) && stats == Tally(previews)
    {
      var p := PreviewRow(fisico, contabil, conc, cs, rows, i);
      ok, stats := CountPreview(ok, stats, p);
      TallyStep(previews, p);
      previews := previews + [p];
      i := i + 1;
    }
    assert rows[..i] == rows;
  }

  /** `_validate_preview`: one preview row per spreadsheet row, the number
      of valid rows and the error counters; "outros" stays 0 and the
      counters add up to the rows that are not valid. */
  method ValidatePreview(fisico: map<int, Asset>, contabil: map<int, Asset>, conc: map<LockKey, int>,
                         cols: seq<string>, rows: seq<map<string, Cell>>)
    returns (previews: seq<Preview>, ok: nat, stats: ErrStats)
    ensures previews == Previews(fisico, contabil, conc, SheetColumns(cols), rows)
    ensures ok == OkCount(previews) && stats == Tally(previews)
    ensures stats.outros == 0 && Total(stats) + ok == |rows|
  {
    var cs := PickColumns(cols);
    previews, ok, stats := PreviewRows(fisico, contabil, conc, cs, rows);
    PreviewsOneCategory(fisico, contabil, conc, cs, rows);
    TallyOfValidated(previews);
  }

  // ---------------------------------------------------------------------
  // _execute_save

  /** How the children of accounting parents are included: not at all,
      all at once, or parent by parent as the answers say. */
  datatype IncludeMode = IncludeNone | IncludeAll | OneByOne

  /** A valid row whose accounting side is a parent (`INC` 0, nonzero NRBRM). */
  predicate IsParentRow(r: Preview) {
    r.ctbId > 0 && r.nrbrmCtb != 0 && r.incCtb == Some(0)
  }

  /** A parent row with its pending children. */
  datatype Cand = Cand(row: nat, fis: int, ctb: int, nrbrm: int, children: seq<int>)

  /** The valid rows, in order. */
  function OkRows(ps: seq<Preview>): (r: seq<Preview>)
    ensures forall x :: x in r <==> x in ps && x.ok
    decreases |ps|
  {
    if ps == [] then [] else OkRows(ps[..|ps| - 1]) + (if ps[|ps| - 1].ok then [ps[|ps| - 1]] else [])
  }

  /** The pair of every valid row. */
  function BasePairs(rs: seq<Preview>): (r: seq<(int, int)>)
    ensures |r| == |rs|
  {
    seq(|rs|, i requires 0 <= i < |rs| => (rs[i].fisId, rs[i].ctbId))
  }

  /** A parent row with pending children in the ledger. */
  ghost predicate HasChildren(contabil: map<int, Asset>, conc: map<LockKey, int>, r: Preview) {
    IsParentRow(r) && exists id :: FamilyLedger.PendingChild(contabil, conc, r.nrbrmCtb, r.ctbId, id)
  }

  /** A candidate of row `c.row`: that parent's pending children in `ID`
      order, all of them unless 2000 smaller ones were found first. */
  ghost predicate CandOf(contabil: map<int, Asset>, conc: map<LockKey, int>, rs: seq<Preview>, c: Cand) {
    && c.row < |rs| && IsParentRow(rs[c.row])
    && c.fis == rs[c.row].fisId && c.ctb == rs[c.row].ctbId && c.nrbrm == rs[c.row].nrbrmCtb
    && c.children != [] && |c.children| <= 2000
    && (forall j :: 0 <= j < |c.children| ==> FamilyLedger.PendingChild(contabil, conc, c.nrbrm, c.ctb, c.children[j]))
    && (forall i, j :: 0 <= i < j < |c.children| ==> c.children[i] < c.children[j])
    && (forall id :: FamilyLedger.PendingChild(contabil, conc, c.nrbrm, c.ctb, id) && id !in c.children ==>
          |c.children| == 2000 && forall j :: 0 <= j < |c.children| ==> c.children[j] < id)
  }

  /** What the candidates of the first `n` rows satisfy: in row order, one
      per parent row with pending children. */
  ghost predicate CandsOk(contabil: map<int, Asset>, conc: map<LockKey, int>, rs: seq<Preview>, n: nat, cands: seq<Cand>)
    requires n <= |rs|
  {
    && (forall k :: 0 <= k < |cands| ==> CandOf(contabil, conc, rs, cands[k]) && cands[k].row < n)
    && (forall k, l :: 0 <= k < l < |cands| ==> cands[k].row < cands[l].row)
    && (forall i :: 0 <= i < n && HasChildren(contabil, conc, rs[i]) ==> exists k :: 0 <= k < |cands| && cands[k].row == i)
  }

  lemma CandsAdd(contabil: map<int, Asset>, conc: map<LockKey, int>, rs: seq<Preview>, i: nat, cands: seq<Cand>, c: Cand)
    requires i < |rs| && CandsOk(contabil, conc, rs, i, cands)
    requires CandOf(contabil, conc, rs, c) && c.row == i
    ensures CandsOk(contabil, conc, rs, i + 1, cands + [c])
  {
    var cs := cands + [c];
    forall j | 0 <= j < i + 1 && HasChildren(contabil, conc, rs[j]) ensures exists k :: 0 <= k < |cs| && cs[k].row == j {
      if j == i {
        assert cs[|cands|].row == j;
      } else {
        var k :| 0 <= k < |cands| && cands[k].row == j;
        assert cs[k].row == j;
      }
    }
  }

  lemma CandsSkip(contabil: map<int, Asset>, conc: map<LockKey, int>, rs: seq<Preview>, i: nat, cands: seq<Cand>)
    requires i < |rs| && CandsOk(contabil, conc, rs, i, cands)
    requires !HasChildren(contabil, conc, rs[i])
    ensures CandsOk(contabil, conc, rs, i + 1, cands)
  {
  }

  /** The first loop of `_execute_save`: the pair of every valid row and the
      parents whose pending children were found. */
  method CollectCandidates(contabil: map<int, Asset>, conc: map<LockKey, int>, rs: seq<Preview>)
    returns (pairs: seq<(int, int)>, cands: seq<Cand>)
    ensures pairs == BasePairs(rs)
    ensures CandsOk(contabil, conc, rs, |rs|, cands)
  {
    pairs, cands := [], [];
    var i := 0;
    while i < |rs|
      invariant i <= |rs| && pairs == BasePairs(rs[..i])
      invariant CandsOk(contabil, conc, rs, i, cands)
    {
      var r := rs[i];
      pairs := pairs + [(r.fisId, r.ctbId)];
      if IsParentRow(r) {
        var kids := FamilyLedger.FindChildrenCtbIds(contabil, conc, r.nrbrmCtb, r.ctbId, 2000);
        if kids != [] {
          var c := Cand(i, r.fisId, r.ctbId, r.nrbrmCtb, kids);
          CandsAdd(contabil, conc, rs, i, cands, c);
          cands := cands + [c];
        } else {
          assert forall id :: !FamilyLedger.PendingChild(contabil, conc, r.nrbrmCtb, r.ctbId, id);
          CandsSkip(contabil, conc, rs, i, cands);
        }
      } else {
        CandsSkip(contabil, conc, rs, i, cands);
      }
      assert rs[..i + 1][..i] == rs[..i];
      i := i + 1;
    }
    assert rs[..i] == rs;
  }

  /** Parent `k` has its children included. */
  predicate Included(mode: IncludeMode, answers: seq<bool>, k: nat) {
    mode == IncludeAll || (mode == OneByOne && k < |answers| && answers[k])
  }

  /** The children's pairs, each with its parent's physical id. */
  function ChildPairs(cands: seq<Cand>, mode: IncludeMode, answers: seq<bool>): seq<(int, int)>
    decreases |cands|
  {
    if cands == [] then []
    else
      var k := |cands| - 1;
      var c := cands[k];
      ChildPairs(cands[..k], mode, answers)
        + (if Included(mode, answers, k) then FamilyPairs(c) else [])
  }

  /** The pairs of one parent's children. */
  function FamilyPairs(c: Cand): (r: seq<(int, int)>)
    ensures |r| == |c.children|
    ensures forall p :: p in r <==> p.0 == c.fis && p.1 in c.children
  {
    var r := seq(|c.children|, j requires 0 <= j < |c.children| => (c.fis, c.children[j]));
    assert forall j :: 0 <= j < |c.children| ==> r[j] == (c.fis, c.children[j]);
    assert forall p: (int, int) :: p.0 == c.fis && p.1 in c.children ==> p in r by {
      forall p: (int, int) | p.0 == c.fis && p.1 in c.children ensures p in r {
        var j :| 0 <= j < |c.children| && c.children[j] == p.1;
        assert r[j] == p;
      }
    }
    r
  }

  /** Appends one parent's children, one pair at a time. */
  method AppendFamily(pairs: seq<(int, int)>, included: nat, c: Cand) returns (pairs': seq<(int, int)>, included': nat)
    ensures pairs' == pairs + FamilyPairs(c) && included' == included + |c.children|
  {
    pairs', included' := pairs, included;
    var j := 0;
    while j < |c.children|
      invariant j <= |c.children| && included' == included + j
      invariant pairs' == pairs + FamilyPairs(c)[..j]
    {
      assert FamilyPairs(c)[..j + 1] == FamilyPairs(c)[..j] + [(c.fis, c.children[j])];
      pairs' := pairs' + [(c.fis, c.children[j])];
      included' := included' + 1;
      j := j + 1;
    }
    assert FamilyPairs(c)[..j] == FamilyPairs(c);
  }

  /** `p` is the pair of a child of an included parent. */
  ghost predicate Adopted(cands: seq<Cand>, mode: IncludeMode, answers: seq<bool>, p: (int, int)) {
    exists k :: 0 <= k < |cands| && Included(mode, answers, k) && p.0 == cands[k].fis && p.1 in cands[k].children
  }

  /** A child pair is `(parent's physical id, child)` for an included
      parent, and every child of an included parent gets one. */
  lemma {:induction false} ChildPairsSpec(cands: seq<Cand>, mode: IncludeMode, answers: seq<bool>)
    ensures forall p :: p in ChildPairs(cands, mode, answers) <==> Adopted(cands, mode, answers, p)
    decreases |cands|
  {
    if cands != [] {
      var k := |cands| - 1;
      var init := cands[..k];
      ChildPairsSpec(init, mode, answers);
      forall p | Adopted(init, mode, answers, p) ensures Adopted(cands, mode, answers, p) {
        var k' :| 0 <= k' < |init| && Included(mode, answers, k') && p.0 == init[k'].fis && p.1 in init[k'].children;
        assert init[k'] == cands[k'];
      }
      forall p | Adopted(cands, mode, answers, p) && !(Included(mode, answers, k) && p in FamilyPairs(cands[k]))
        ensures Adopted(init, mode, answers, p)
      {
        var k' :| 0 <= k' < |cands| && Included(mode, answers, k') && p.0 == cands[k'].fis && p.1 in cands[k'].children;
        assert k' != k;
        assert init[k'] == cands[k'];
      }
    }
  }

  /** The second loop of `_execute_save`: appends the children of the
      included parents, counting them and the parents asked about. */
  method AddChildren(cands: seq<Cand>, mode: IncludeMode, answers: seq<bool>)
    returns (pairs: seq<(int, int)>, included: nat, asked: nat)
    ensures pairs == ChildPairs(cands, mode, answers) && included == |pairs|
    ensures asked == if mode == OneByOne then |cands| else 0
  {
    pairs, included, asked := [], 0, 0;
    var k := 0;
    while k < |cands|
      invariant k <= |cands| && pairs == ChildPairs(cands[..k], mode, answers) && included == |pairs|
      invariant asked == if mode == OneByOne then k else 0
    {
      var c := cands[k];
      if mode == OneByOne {
        asked := asked + 1;
      }
      if Included(mode, answers, k) {
        pairs, included := AppendFamily(pairs, included, c);
      }
      assert cands[..k + 1][..k] == cands[..k];
      k := k + 1;
    }
    assert cands[..k] == cands;
  }

  /** Each pair once, at its first occurrence. */
  function Dedupe(s: seq<(int, int)>): seq<(int, int)>
    decreases |s|
  {
    if s == [] then []
    else
      var init := s[..|s| - 1];
      Dedupe(init) + (if s[|s| - 1] in init then [] else [s[|s| - 1]])
  }

  /** The deduplicated pairs are the same pairs, each once, and deduplicating
      a prefix gives a prefix: the order of first occurrences is kept. */
  lemma DedupeSpec(s: seq<(int, int)>)
    ensures forall p :: p in Dedupe(s) <==> p in s
    ensures forall i, j :: 0 <= i < j < |Dedupe(s)| ==> Dedupe(s)[i] != Dedupe(s)[j]
    ensures forall n :: 0 <= n <= |s| ==> Dedupe(s[..n]) <= Dedupe(s)
  {
    DedupeMembers(s);
    DedupeDistinct(s);
    DedupePrefix(s);
  }

  lemma {:induction false} DedupeMembers(s: seq<(int, int)>)
    ensures forall p :: p in Dedupe(s) <==> p in s
    decreases |s|
  {
    if s != [] {
      var init := s[..|s| - 1];
      DedupeMembers(init);
      assert s == init + [s[|s| - 1]];
    }
  }

  lemma {:induction false} DedupeDistinct(s: seq<(int, int)>)
    ensures forall i, j :: 0 <= i < j < |Dedupe(s)| ==> Dedupe(s)[i] != Dedupe(s)[j]
    decreases |s|
  {
    if s != [] {
      var init := s[..|s| - 1];
      DedupeDistinct(init);
      DedupeMembers(init);
    }
  }

  lemma {:induction false} DedupePrefix(s: seq<(int, int)>)
    ensures forall n :: 0 <= n <= |s| ==> Dedupe(s[..n]) <= Dedupe(s)
    decreases |s|
  {
    if s != [] {
      var init := s[..|s| - 1];
      DedupePrefix(init);
      forall n | 0 <= n <= |s| ensures Dedupe(s[..n]) <= Dedupe(s) {
        if n < |s| {
          assert s[..n] == init[..n];
        } else {
          assert s[..n] == s;
        }
      }
    }
  }

  /** `seen`/`pairs_unique` loop. */
  method DedupeKeepFirst(s: seq<(int, int)>) returns (u: seq<(int, int)>)
    ensures u == Dedupe(s)
  {
    var seen: set<(int, int)> := {};
    u := [];
    var i := 0;
    while i < |s|
      invariant i <= |s| && u == Dedupe(s[..i])
      invariant forall p :: p in seen <==> p in s[..i]
    {
      assert s[..i + 1][..i] == s[..i];
      if s[i] !in seen {
        seen := seen + {s[i]};
        u := u + [s[i]];
      }
      i := i + 1;
    }
    assert s[..i] == s;
  }

  /** `pairs_direta`: both ids positive. */
  function Direct(s: seq<(int, int)>): (r: seq<(int, int)>)
    ensures forall p :: p in r <==> p in s && p.0 > 0 && p.1 > 0
    decreases |s|
  {
    if s == [] then []
    else
      var p := s[|s| - 1];
      Direct(s[..|s| - 1]) + (if p.0 > 0 && p.1 > 0 then [p] else [])
  }

  /** `pairs_nc`: exactly one id positive. */
  function NaoChapeavel(s: seq<(int, int)>): (r: seq<(int, int)>)
    ensures forall p :: p in r <==> p in s && ((p.0 > 0) != (p.1 > 0))
    decreases |s|
  {
    if s == [] then []
    else
      var p := s[|s| - 1];
      NaoChapeavel(s[..|s| - 1]) + (if (p.0 > 0) != (p.1 > 0) then [p] else [])
  }

  /** The outcome the user is told. */
  datatype SaveOutcome =
    | NotValidated                  // "Clique em 'Validar / Prévia' primeiro."
    | NoValidRows                   // "Nenhuma linha válida para salvar."
    | SaveFailed
    | Saved(saved: nat, included: nat, asked: nat, sent: nat)

  /** The pairs `_execute_save` sends: the valid rows' pairs, then the
      children of the included parents, each pair once. */
  function PlannedPairs(previews: seq<Preview>, cands: seq<Cand>, mode: IncludeMode, answers: seq<bool>): seq<(int, int)> {
    Dedupe(BasePairs(OkRows(previews)) + ChildPairs(cands, mode, answers))
  }

  /** A pair is sent exactly when it is a valid row's pair or the pair of a
      child of an included parent; no pair is sent twice. */
  lemma PlannedPairsSpec(previews: seq<Preview>, cands: seq<Cand>, mode: IncludeMode, answers: seq<bool>)
    ensures forall p :: p in PlannedPairs(previews, cands, mode, answers) <==>
      (exists r :: r in previews && r.ok && p == (r.fisId, r.ctbId)) || Adopted(cands, mode, answers, p)
    ensures var s := PlannedPairs(previews, cands, mode, answers);
      forall i, j :: 0 <= i < j < |s| ==> s[i] != s[j]
  {
    var rs := OkRows(previews);
    var base := BasePairs(rs);
    DedupeSpec(base + ChildPairs(cands, mode, answers));
    ChildPairsSpec(cands, mode, answers);
    forall p | p in base ensures exists r :: r in previews && r.ok && p == (r.fisId, r.ctbId) {
      var i :| 0 <= i < |base| && base[i] == p;
      assert rs[i] in rs;
    }
    forall r | r in previews && r.ok ensures (r.fisId, r.ctbId) in base {
      var i :| 0 <= i < |rs| && rs[i] == r;
      assert base[i] == (r.fisId, r.ctbId);
    }
  }

  /** The pairs `_execute_save` commits, split into direct and one-sided
      pairs, with the children included and the parents asked about. */
  method PlanSave(contabil: map<int, Asset>, conc: map<LockKey, int>, previews: seq<Preview>,
                  mode: IncludeMode, answers: seq<bool>)
    returns (direta: seq<(int, int)>, nc: seq<(int, int)>, included: nat, asked: nat, sent: nat, cands: seq<Cand>)
    ensures CandsOk(contabil, conc, OkRows(previews), |OkRows(previews)|, cands)
    ensures var all := PlannedPairs(previews, cands, mode, answers);
      direta == Direct(all) && nc == NaoChapeavel(all) && sent == |all|
    ensures included == |ChildPairs(cands, mode, answers)|
    ensures asked == if mode == OneByOne && cands != [] then |cands| else 0
  {
    var rs := OkRows(previews);
    var base, cs := CollectCandidates(contabil, conc, rs);
    cands := cs;
    var m := if cands == [] then IncludeNone else mode;
    assert cands == [] ==> ChildPairs(cands, mode, answers) == [] && ChildPairs(cands, m, answers) == [];
    var kids;
    kids, included, asked := AddChildren(cands, m, answers);
    var all := DedupeKeepFirst(base + kids);
    direta := Direct(all);
    nc := NaoChapeavel(all);
    sent := |all|;
  }

  /** `_execute_save` against the database: nothing without a preview or a
      valid row; otherwise the direct pairs are committed as "DIRETA" and
      then the one-sided ones as "NÃO CHAPEÁVEL" (each commit with the
      accounting family, an empty list being skipped); a failing commit
      stops there, the commits before it staying. The ledger only grows,
      existing locks stay and the registers are untouched. */
  method ExecuteSave(db: Db, previews: seq<Preview>, mode: IncludeMode, answers: seq<bool>,
                     faultDirect: bool, faultNc: bool)
    returns (outcome: SaveOutcome)
    modifies db
    ensures previews == [] ==> outcome == NotValidated && unchanged(db)
    ensures previews != [] && OkRows(previews) == [] ==> outcome == NoValidRows && unchanged(db)
    ensures outcome.Saved? ==> OkRows(previews) != [] && outcome.saved == |db.depara| - |old(db.depara)|
    ensures db.fisico == old(db.fisico) && db.contabil == old(db.contabil)
    ensures old(db.depara) <= db.depara
    ensures forall k :: k in old(db.conciliados) ==> k in db.conciliados && db.conciliados[k] == old(db.conciliados)[k]
  {
    if previews == [] {
      return NotValidated;
    }
    if OkRows(previews) == [] {
      return NoValidRows;
    }
    var direta, nc, included, asked, sent, cands := PlanSave(db.contabil, db.conciliados, previews, mode, answers);
    var savedD := SaveGroup(db, direta, false, faultDirect);
    if savedD.None? {
      return SaveFailed;
    }
    var savedN := SaveGroup(db, nc, true, faultNc);
    if savedN.None? {
      return SaveFailed;
    }
    return Saved(savedD.value + savedN.value, included, asked, sent);
  }

  /** One of the two family commits of `_execute_save`, skipped when its group is empty;
      either way it only adds ledger rows and lock rows. */
  method SaveGroup(db: Db, pairs: seq<(int, int)>, naoChapeavel: bool, fault: bool) returns (saved: Option<nat>)
    modifies db
    ensures pairs == [] ==> saved == Some(0)
    ensures saved.Some? ==> saved.value == |db.depara| - |old(db.depara)|
    ensures db.fisico == old(db.fisico) && db.contabil == old(db.contabil)
    ensures old(db.depara) <= db.depara
    ensures forall k :: k in old(db.conciliados) ==> k in db.conciliados && db.conciliados[k] == old(db.conciliados)[k]
  {
    saved := Some(0);
    if pairs != [] {
      if naoChapeavel {
        saved := FamilyLedger.SaveNaoChapeavelPairs(db, pairs, fault);
      } else {
        saved := FamilyLedger.SaveDirectPairs(db, pairs, fault);
      }
    }
  }
}

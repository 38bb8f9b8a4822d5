/**
 * The pure helpers of the manual and assisted matching screens
 * (manual_db_v2_fixed.py): the normalisation applied to LIKE filters, the
 * builders of the SQL filter clauses and their parameters, the status given to
 * incorporated children, and the attribute signature of a description used by
 * rule 6 of the assisted matcher.
 */
module Filters {
  import opened Wrappers
  import opened PyStr

  // ---------------------------------------------------------------------
  // _norm_like

  /** `_norm_like`: upper-cased, split on whitespace, re-joined with single spaces. */
  function NormLike(value: string): string {
    Join(Words(Upper(value)), " ")
  }

  /** The shape `_norm_like` produces: upper-case, no blank at either end, and every
      blank is a single space followed by a non-blank character. */
  predicate Canonical(r: string) {
    UpperFixed(r)
    && (r == [] || (!IsSpace(r[0]) && !IsSpace(r[|r| - 1])))
    && forall i :: 0 <= i < |r| && IsSpace(r[i]) ==> r[i] == ' ' && i + 1 < |r| && !IsSpace(r[i + 1])
  }

  predicate SolidWord(w: string) {
    w != [] && UpperFixed(w) && forall i :: 0 <= i < |w| ==> !IsSpace(w[i])
  }

  lemma {:induction false} JoinCanonical(ws: seq<string>)
    requires forall w :: w in ws ==> SolidWord(w)
    ensures Canonical(Join(ws, " "))
    ensures ws != [] ==> Join(ws, " ") != []
  {
    if ws == [] {
    } else if |ws| == 1 {
      assert ws[0] in ws;
      assert Join(ws, " ") == ws[0];
    } else {
      JoinCanonical(ws[1..]);
      var w, t := ws[0], Join(ws[1..], " ");
      assert SolidWord(w);
      var r := w + " " + t;
      assert r == Join(ws, " ");
      assert r[0] == w[0];
      assert r[|r| - 1] == t[|t| - 1];
      forall i | 0 <= i < |r| && IsSpace(r[i])
        ensures r[i] == ' ' && i + 1 < |r| && !IsSpace(r[i + 1])
      {
        if i > |w| {
          assert r[i] == t[i - |w| - 1];
          assert r[i + 1] == t[i - |w|];
        } else {
          assert i == |w|;
        }
      }
      forall i | 0 <= i < |r| ensures UpperChar(r[i]) == r[i] {
        if i > |w| { assert r[i] == t[i - |w| - 1]; } else if i < |w| { assert r[i] == w[i]; }
      }
    }
  }

  /** `_norm_like` returns an upper-case string with no leading or trailing blanks and
      single spaces between words. */
  lemma NormLikeCanonical(value: string)
    ensures Canonical(NormLike(value))
  {
    var u := Upper(value);
    var ws := Words(u);
    RunsShape(u, NotSpace);
    forall w | w in ws ensures SolidWord(w) {
      forall i | 0 <= i < |w| ensures UpperChar(w[i]) == w[i] {
        assert w[i] in u;
        var k :| 0 <= k < |u| && u[k] == w[i];
        UpperCharIdempotent(value[k]);
      }
    }
    JoinCanonical(ws);
  }

  /** Applying `_norm_like` twice is applying it once. */
  lemma NormLikeIdempotent(value: string)
    ensures NormLike(NormLike(value)) == NormLike(value)
  {
    var u := Upper(value);
    var ws := Words(u);
    RunsShape(u, NotSpace);
    NormLikeCanonical(value);
    var r := NormLike(value);
    UpperOfFixed(r);
    WordsOfJoin(ws);
  }

  // ---------------------------------------------------------------------
  // filter clauses

  /** A bound query parameter. */
  datatype Param = IntParam(n: int) | TextParam(s: string)

  /** The `(sql_fragment, params)` pair every clause builder returns. */
  datatype Clause = Clause(sql: string, params: seq<Param>)

  const NoClause := Clause("", [])

  /** The value bound when a numeric filter does not parse, so that nothing matches. */
  const BadIntSentinel := -999999999

  function LikePattern(v: string): Param { TextParam("%" + NormLike(v) + "%") }

  /** `_apply_like`: a `LIKE '%…%'` filter on the normalised value, or nothing for a blank value. */
  function ApplyLike(field: string, value: string): (r: Clause)
    ensures r == NoClause <==> IsBlank(value)
    ensures !IsBlank(value) ==> r.params == [LikePattern(Strip(value))]
  {
    StripEmptyIffBlank(value);
    var v := Strip(value);
    if v == "" then NoClause else Clause(" AND " + field + " LIKE ? ", [LikePattern(v)])
  }

  /** `_apply_eq_int`: equality with `int(float(value))`, or with the sentinel when the
      value does not parse; nothing for a blank value. */
  function ApplyEqInt(field: string, value: string): (r: Clause)
    ensures r == NoClause <==> IsBlank(value)
    ensures !IsBlank(value) ==> r.params == [IntParam(ParseDecimal(value).GetOr(BadIntSentinel))]
  {
    StripEmptyIffBlank(value);
    StripOfStripped(Strip(value));
    var v := Strip(value);
    if v == "" then NoClause
    else
      match ParseDecimal(v)
      case Some(n) => Clause(" AND " + field + " = ? ", [IntParam(n)])
      case None => Clause(" AND " + field + " = ? ", [IntParam(BadIntSentinel)])
  }

  /** `_eq_text`: case-insensitive equality with the normalised value. */
  function EqText(field: string, value: string): (r: Clause)
    ensures r == NoClause <==> IsBlank(value)
    ensures !IsBlank(value) ==> r.params == [TextParam(NormLike(Strip(value)))]
  {
    StripEmptyIffBlank(value);
    var v := Strip(value);
    if v == "" then NoClause
    else Clause(" AND UPPER(COALESCE(" + field + ",'')) = ? ", [TextParam(NormLike(v))])
  }

  /** `_apply_eq_num_or_text`: numeric equality when the value parses, otherwise the
      `_eq_text` comparison. */
  function ApplyEqNumOrText(field: string, value: string): (r: Clause)
    ensures r == NoClause <==> IsBlank(value)
    ensures !IsBlank(value) && ParseDecimal(value).Some? ==> r.params == [IntParam(ParseDecimal(value).value)]
    ensures ParseDecimal(value).None? ==> r == EqText(field, value)
  {
    StripEmptyIffBlank(value);
    if Strip(value) == "" then NoClause
    else
      // `_parse_decimal` strips its argument again, which leaves it unchanged
      match ParseDecimal(value)
      case Some(n) => Clause(" AND " + field + " = ? ", [IntParam(n)])
      case None => EqText(field, value)
  }

  /** Every description is blank. */
  predicate AllBlank(ds: seq<string>)
    decreases |ds|
  {
    ds == [] || (IsBlank(ds[0]) && AllBlank(ds[1..]))
  }

  /** The non-blank description terms, stripped, in order. */
  function Terms(ds: seq<string>): (r: seq<string>)
    ensures |r| <= |ds|
    ensures r == [] <==> AllBlank(ds)
    ensures forall t :: t in r ==> t != ""
  {
    if ds == [] then []
    else
      StripEmptyIffBlank(ds[0]);
      var rest := Terms(ds[1..]);
      if IsBlank(ds[0]) then rest else [Strip(ds[0])] + rest
  }

  /** `(mode or "E").strip().upper()`, with anything but `OU` falling back to `E` (AND). */
  predicate Disjunctive(mode: string) { Upper(Strip(mode)) == "OU" }

  function LikeClauses(field: string, terms: seq<string>): (r: seq<string>)
    ensures |r| == |terms|
    ensures forall c :: c in r ==> c == field + " LIKE ?"
  {
    seq(|terms|, i requires 0 <= i < |terms| => field + " LIKE ?")
  }

  /** The clause for a list of (non-blank, stripped) terms. */
  function DescClause(field: string, terms: seq<string>, disjunctive: bool): (r: Clause)
    ensures r == NoClause <==> terms == []
    ensures |r.params| == |terms|
    ensures forall i :: 0 <= i < |r.params| ==> r.params[i] == LikePattern(terms[i])
  {
    if terms == [] then NoClause
    else
      var joiner := if disjunctive then " OR " else " AND ";
      Clause(" AND (" + Join(LikeClauses(field, terms), joiner) + ") ",
             seq(|terms|, i requires 0 <= i < |terms| => LikePattern(terms[i])))
  }

  /** `_apply_desc_terms`: one `LIKE` per non-blank term, joined by AND (mode `E` or
      anything unknown) or OR (mode `OU`), or nothing when every term is blank. */
  function ApplyDescTerms(field: string, desc1: string, desc2: string, desc3: string, mode: string): (r: Clause)
    ensures r == NoClause <==> IsBlank(desc1) && IsBlank(desc2) && IsBlank(desc3)
    ensures |r.params| == |Terms([desc1, desc2, desc3])| <= 3
    ensures forall i :: 0 <= i < |r.params| ==> r.params[i] == LikePattern(Terms([desc1, desc2, desc3])[i])
  {
    var ds := [desc1, desc2, desc3];
    assert AllBlank([desc3]) <==> IsBlank(desc3) by { assert [desc3][1..] == []; }
    assert AllBlank([desc2, desc3]) <==> IsBlank(desc2) && AllBlank([desc3]) by {
      assert [desc2, desc3][1..] == [desc3];
    }
    assert AllBlank(ds) <==> IsBlank(desc1) && AllBlank([desc2, desc3]) by {
      assert ds[1..] == [desc2, desc3];
    }
    DescClause(field, Terms(ds), Disjunctive(mode))
  }

  /** An unrecognised mode behaves exactly like `E`. */
  lemma UnknownModeIsAnd(field: string, desc1: string, desc2: string, desc3: string, mode: string)
    requires Upper(Strip(mode)) != "OU"
    ensures ApplyDescTerms(field, desc1, desc2, desc3, mode) == ApplyDescTerms(field, desc1, desc2, desc3, "E")
  {
    ModeEIsConjunctive();
  }

  lemma ModeEIsConjunctive()
    ensures !Disjunctive("E")
  {
    var e: string := "E";
    assert |e| == 1 && e[0] == 'E';
    assert !IsSpace(e[0]);
    StripOfTrimmed(e);
  }

  // ---------------------------------------------------------------------
  // _child_status_for_origin

  /** The status written on an incorporated child (INC != 0) given the status of the pair
      that brought it in: MANUAL, DIRETA and NÃO CHAPEÁVEL have their own child statuses,
      anything else is kept as given. */
  function ChildStatusForOrigin(origin: string): string {
    var o := Upper(Strip(origin));
    if o == "MANUAL" then "CM - INC"
    else if o == "DIRETA" then "CD - INC"
    else if o == "NÃO CHAPEÁVEL" || o == "NAO CHAPEAVEL" then "CN - INC"
    else origin
  }

  /** The three known origins, compared after trimming and upper-casing, and the fallback. */
  lemma ChildStatusForOriginCases(origin: string)
    ensures var r := ChildStatusForOrigin(origin);
      && (Upper(Strip(origin)) == "MANUAL" ==> r == "CM - INC")
      && (Upper(Strip(origin)) == "DIRETA" ==> r == "CD - INC")
      && (Upper(Strip(origin)) in {"NÃO CHAPEÁVEL", "NAO CHAPEAVEL"} ==> r == "CN - INC")
      && (Upper(Strip(origin)) !in {"MANUAL", "DIRETA", "NÃO CHAPEÁVEL", "NAO CHAPEAVEL"} ==> r == origin)
  {
  }

  // ---------------------------------------------------------------------
  // _desc_attr_set

  /** The labels whose segments `_strip_noise_fields` removes; they are also never tokens. */
  const StopLabels: set<string> := {"MCA", "MOD", "SERIE", "CAP", "CAPACIDADE", "TAG"}

  /** Label `w` (any case) at `i`, then optional whitespace and `:` or `=`. */
  predicate LabelWithSep(s: string, i: nat, w: string)
    requires UpperWord(w)
  {
    WordAt(s, i, w) && var j := SkipSpaces(s, i + |w|); j < |s| && (s[j] == ':' || s[j] == '=')
  }

  /** `\b(MCA|MOD|SERIE|CAP|CAPACIDADE|TAG)\s*[:=]` matches at `i` (case-insensitive). */
  predicate LabelAt(s: string, i: nat) {
    (i == 0 || (i <= |s| && !IsWordChar(s[i - 1])))
    && (LabelWithSep(s, i, "MCA") || LabelWithSep(s, i, "MOD") || LabelWithSep(s, i, "SERIE")
        || LabelWithSep(s, i, "CAP") || LabelWithSep(s, i, "CAPACIDADE") || LabelWithSep(s, i, "TAG"))
  }

  /** The first position at or after `i` where a labelled segment starts. */
  function NoiseStart(s: string, i: nat): (r: Option<nat>)
    requires i <= |s|
    ensures r.Some? ==> i <= r.value < |s| && LabelAt(s, r.value)
    ensures forall k :: i <= k < (if r.Some? then r.value else |s|) ==> !LabelAt(s, k)
    decreases |s| - i
  {
    if i == |s| then None
    else if LabelAt(s, i) then Some(i)
    else NoiseStart(s, i + 1)
  }

  function ReplaceNewlines(s: string): (r: string)
    ensures |r| == |s|
  {
    seq(|s|, i requires 0 <= i < |s| => if s[i] == '\n' || s[i] == '\r' then ' ' else s[i])
  }

  /**
   * `_strip_noise_fields`. Every match of the pattern runs lazily up to the next
   * label or the end, so the matches tile everything from the first label onwards:
   * the text before the first label is kept and the rest becomes blank (one space
   * here; Python leaves one per label, which the tokenizer treats alike).
   */
  function StripNoise(desc: string): (r: string)
    ensures |r| <= |desc| + 1
  {
    if desc == "" then ""
    else
      var s := ReplaceNewlines(desc);
      match NoiseStart(s, 0)
      case None => s
      case Some(p) => s[..p] + " "
  }

  /** `[A-Z0-9]`. */
  predicate IsTokenChar(c: char) { ('A' <= c <= 'Z') || ('0' <= c <= '9') }

  /** `re.findall(r"[A-Z0-9]+", …)`. */
  function Tokens(s: string): seq<string> { Runs(s, IsTokenChar) }

  /** A token contributes an attribute: not a stop label, and all-digit of length >= 2
      or otherwise of length >= 3. */
  predicate Contributes(t: string) {
    t !in StopLabels && ((AllDigits(t) && |t| >= 2) || (!AllDigits(t) && |t| >= 3))
  }

  /** The attribute of a contributing token: the whole number, or a 3-character prefix. */
  function Attr(t: string): string
    requires Contributes(t)
  {
    if AllDigits(t) then t else t[..3]
  }

  /** `_desc_attr_set`. */
  function DescAttrSet(desc: string): set<string> {
    if desc == "" then {}
    else
      var toks := Tokens(Upper(StripNoise(desc)));
      set t | t in toks && Contributes(t) :: Attr(t)
  }

  /** Every attribute is an all-digit token of length >= 2 or a 3-character prefix of a
      longer non-numeric token, and is made of `[A-Z0-9]`; the empty description has none. */
  lemma DescAttrSetShape(desc: string)
    ensures desc == "" ==> DescAttrSet(desc) == {}
    ensures forall a :: a in DescAttrSet(desc) ==>
      ((AllDigits(a) && |a| >= 2) || |a| == 3) && forall i :: 0 <= i < |a| ==> IsTokenChar(a[i])
  {
    if desc != "" {
      var toks := Tokens(Upper(StripNoise(desc)));
      RunsShape(Upper(StripNoise(desc)), IsTokenChar);
      forall a | a in DescAttrSet(desc)
        ensures ((AllDigits(a) && |a| >= 2) || |a| == 3) && forall i :: 0 <= i < |a| ==> IsTokenChar(a[i])
      {
        var t :| t in toks && Contributes(t) && a == Attr(t);
        assert forall i :: 0 <= i < |t| ==> IsTokenChar(t[i]);
      }
    }
  }

  /** An attribute comes from a contributing token of the cleaned, upper-cased text, and
      every contributing token yields one. */
  lemma DescAttrSetMembers(desc: string, a: string)
    requires desc != ""
    ensures a in DescAttrSet(desc) <==>
      exists t :: t in Tokens(Upper(StripNoise(desc))) && Contributes(t) && a == Attr(t)
  {
  }

  /** A description made only of a stop label yields no attribute, whatever follows it. */
  lemma StopLabelOnly(w: string)
    requires w in StopLabels
    ensures Tokens(w) == [w]
    ensures forall t :: t in Tokens(w) ==> !Contributes(t)
  {
    assert forall i :: 0 <= i < |w| ==> IsTokenChar(w[i]);
    RunLenOfRun(w, [], IsTokenChar);
    assert w + [] == w;
    RunsOfRunThen(w, [], IsTokenChar);
  }

  /** Rule 6's similarity: the number of shared attributes. */
  function Score(fa: set<string>, ca: set<string>): nat { |fa * ca| }
}

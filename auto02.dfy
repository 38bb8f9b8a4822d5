/**
 * The assisted automatic pass ("Automático 02"): the candidate joins of rules
 * 1-5, the greedy one-to-one pairing over them, and the description-similarity
 * pairing of rule 6 (`load_candidates_auto02` and `load_pairs_auto02`).
 */
module Auto02 {
  import opened Wrappers
  import opened Tables
  import opened PyStr
  import Filters

  /** The keys of `AUTO02_RULES`. */
  const Rules: set<string> := {"1", "2", "3", "4", "5", "6"}

  /** The join condition of rules 1-5 between a physical row `f` and an
      accounting row `t`; every rule id other than 1-4 gets rule 5's. */
  predicate JoinEdge(rid: string, f: Asset, t: Asset) {
    if rid == "1" then |f.serieNorm| >= 4 && Contains(t.descNorm, f.serieNorm)
    else if rid == "2" then |t.serieNorm| >= 4 && Contains(f.descNorm, t.serieNorm)
    else if rid == "3" then t.modeloNorm != "" && f.modeloNorm == t.modeloNorm
    else if rid == "4" then |f.modeloNorm| >= 4 && Contains(t.descNorm, f.modeloNorm)
    else |f.tagNorm| >= 4 && Contains(t.descNorm, f.tagNorm)
  }

  /** A row of the join of rules 1-5: both sides pending, the accounting row a
      parent (`COALESCE(INC,0) = 0`), both passing the screen filters (the id
      sets `keepF`, `keepC`) and the rule's join condition. */
  predicate Candidate(fisico: map<int, Asset>, contabil: map<int, Asset>, conc: map<LockKey, int>,
                      rid: string, keepF: set<int>, keepC: set<int>, f: int, c: int)
  {
    f in fisico && c in contabil && f in keepF && c in keepC
    && LockKey(Fis, f) !in conc && LockKey(Ctb, c) !in conc
    && Coalesce(contabil[c].inc) == 0
    && JoinEdge(rid, fisico[f], contabil[c])
  }

  function CandidateSet(fisico: map<int, Asset>, contabil: map<int, Asset>, conc: map<LockKey, int>,
                        rid: string, keepF: set<int>, keepC: set<int>): (r: set<(int, int)>)
    ensures forall f, c :: (f, c) in r <==> Candidate(fisico, contabil, conc, rid, keepF, keepC, f, c)
  {
    set f, c | f in fisico && c in contabil && Candidate(fisico, contabil, conc, rid, keepF, keepC, f, c) :: (f, c)
  }

  // ---------------------------------------------------------------------
  // the greedy pairing of rules 1-5

  function FisOf(ps: seq<(int, int)>): set<int> { set p | p in ps :: p.0 }

  function CtbOf(ps: seq<(int, int)>): set<int> { set p | p in ps :: p.1 }

  lemma OfAppend(ps: seq<(int, int)>, e: (int, int))
    ensures FisOf(ps + [e]) == FisOf(ps) + {e.0}
    ensures CtbOf(ps + [e]) == CtbOf(ps) + {e.1}
  {
    assert forall p :: p in ps + [e] <==> p in ps || p == e;
  }

  /** A candidate is taken when neither its physical nor its accounting id is
      in a pair yet. */
  function GreedyStep(ps: seq<(int, int)>, e: (int, int)): seq<(int, int)> {
    if e.0 in FisOf(ps) || e.1 in CtbOf(ps) then ps else ps + [e]
  }

  /** The pairs the greedy pass forms over the whole candidate list, with no
      limit on their number. */
  function Greedy(cand: seq<(int, int)>): seq<(int, int)>
    decreases |cand|
  {
    if cand == [] then [] else GreedyStep(Greedy(cand[..|cand| - 1]), cand[|cand| - 1])
  }

  lemma GreedyUnfold(cand: seq<(int, int)>, i: nat)
    requires i < |cand|
    ensures Greedy(cand[..i + 1]) == GreedyStep(Greedy(cand[..i]), cand[i])
  {
    assert cand[..i + 1][..i] == cand[..i];
  }

  predicate OneToOne(ps: seq<(int, int)>) {
    forall i, j :: 0 <= i < j < |ps| ==> ps[i].0 != ps[j].0 && ps[i].1 != ps[j].1
  }

  /** Every candidate left out shares a side with a pair that was formed. */
  predicate Maximal(cand: seq<(int, int)>, ps: seq<(int, int)>) {
    forall e :: e in cand ==> e.0 in FisOf(ps) || e.1 in CtbOf(ps)
  }

  /** Each pair takes the first accounting candidate of its physical id that
      no earlier pair used. */
  predicate FirstUnused(cand: seq<(int, int)>, ps: seq<(int, int)>) {
    forall k, e :: 0 <= k < |ps| && e in cand && e.0 == ps[k].0 && e.1 < ps[k].1 ==> e.1 in CtbOf(ps[..k])
  }

  lemma LastIsGreatest(init: seq<(int, int)>, x: (int, int))
    requires StrictlySorted(init + [x])
    ensures forall p :: p in init ==> PairLess(p, x)
  {
    forall p | p in init ensures PairLess(p, x) {
      var i :| 0 <= i < |init| && init[i] == p;
      assert (init + [x])[i] == p && (init + [x])[|init|] == x;
    }
  }

  lemma StepOneToOne(ps: seq<(int, int)>, x: (int, int))
    requires OneToOne(ps) && StrictlySorted(ps)
    requires forall p :: p in ps ==> PairLess(p, x)
    ensures OneToOne(GreedyStep(ps, x)) && StrictlySorted(GreedyStep(ps, x))
  {
    if !(x.0 in FisOf(ps) || x.1 in CtbOf(ps)) {
      var g := ps + [x];
      forall i, j | 0 <= i < j < |g| ensures g[i].0 != g[j].0 && g[i].1 != g[j].1 && PairLess(g[i], g[j]) {
        if j == |ps| {
          assert g[i] in ps;
        }
      }
    }
  }

  lemma StepMaximal(init: seq<(int, int)>, ps: seq<(int, int)>, x: (int, int))
    requires Maximal(init, ps)
    ensures Maximal(init + [x], GreedyStep(ps, x))
  {
    if !(x.0 in FisOf(ps) || x.1 in CtbOf(ps)) {
      OfAppend(ps, x);
    }
  }

  lemma StepFirstUnused(init: seq<(int, int)>, ps: seq<(int, int)>, x: (int, int))
    requires forall p :: p in init ==> PairLess(p, x)
    requires forall p :: p in ps ==> p in init
    requires Maximal(init, ps) && FirstUnused(init, ps)
    ensures FirstUnused(init + [x], GreedyStep(ps, x))
  {
    var g := GreedyStep(ps, x);
    forall k, e | 0 <= k < |g| && e in init + [x] && e.0 == g[k].0 && e.1 < g[k].1
      ensures e.1 in CtbOf(g[..k])
    {
      if k < |ps| {
        assert g[..k] == ps[..k] && g[k] == ps[k];
        assert ps[k] in ps;
        assert e in init;
      } else {
        assert g[..k] == ps && g[k] == x;
        assert e in init;
      }
    }
  }

  /** The greedy pass forms one-to-one pairs, in candidate order, that leave
      no candidate free on both sides and take each physical id's first free
      accounting candidate. */
  lemma {:induction false} GreedySpec(cand: seq<(int, int)>)
    requires StrictlySorted(cand)
    ensures forall p :: p in Greedy(cand) ==> p in cand
    ensures OneToOne(Greedy(cand)) && StrictlySorted(Greedy(cand))
    ensures Maximal(cand, Greedy(cand)) && FirstUnused(cand, Greedy(cand))
    decreases |cand|
  {
    if cand != [] {
      var init := cand[..|cand| - 1];
      var x := cand[|cand| - 1];
      assert init + [x] == cand;
      GreedySpec(init);
      LastIsGreatest(init, x);
      var ps := Greedy(init);
      StepOneToOne(ps, x);
      StepMaximal(init, ps, x);
      StepFirstUnused(init, ps, x);
      forall p | p in Greedy(cand) ensures p in cand {
        if p !in ps { assert p == x; }
      }
    }
  }

  /** The pairs formed from a prefix of the candidates are a prefix of those
      formed from all of them. */
  lemma {:induction false} GreedyPrefix(cand: seq<(int, int)>, i: nat)
    requires i <= |cand|
    ensures |Greedy(cand[..i])| <= |Greedy(cand)|
    ensures Greedy(cand)[..|Greedy(cand[..i])|] == Greedy(cand[..i])
    decreases |cand|
  {
    if i < |cand| {
      var init := cand[..|cand| - 1];
      assert init[..i] == cand[..i];
      GreedyPrefix(init, i);
      var g := Greedy(init);
      assert Greedy(cand) == g || Greedy(cand) == g + [cand[|cand| - 1]];
      assert Greedy(cand)[..|g|] == g;
    } else {
      assert cand[..i] == cand;
    }
  }

  /** The pass of `load_pairs_auto02` for rules 1-5 as written: candidates
      grouped by physical id, the first free accounting id of each group
      taken, and the limit checked after each group. */
  method GreedyAsWritten(cand: seq<(int, int)>, limit: nat) returns (pairs: seq<(int, int)>)
    requires StrictlySorted(cand)
    ensures cand == [] ==> pairs == []
    ensures cand != [] ==> pairs == Take(Greedy(cand), if limit == 0 then 1 else limit)
  {
    var lim := if limit == 0 then 1 else limit;
    GreedySpec(cand);
    pairs := [];
    var used: set<int> := {};
    var i := 0;
    while i < |cand|
      invariant i <= |cand|
      invariant i == 0 || i == |cand| || cand[i - 1].0 != cand[i].0
      invariant pairs == Greedy(cand[..i]) && used == CtbOf(pairs)
      invariant |pairs| < lim
      decreases |cand| - i
    {
      GroupFresh(cand, i);
      pairs, used, i := GroupPass(cand, i, pairs, used);
      if |pairs| >= limit {
        GreedyPrefix(cand, i);
        return;
      }
    }
    assert cand[..i] == cand;
  }

  /** At the start of a group its physical id is in no pair yet. */
  lemma GroupFresh(cand: seq<(int, int)>, start: nat)
    requires StrictlySorted(cand) && start < |cand|
    requires start == 0 || cand[start - 1].0 != cand[start].0
    ensures cand[start].0 !in FisOf(Greedy(cand[..start]))
  {
    GreedySpec(cand[..start]);
    forall p | p in Greedy(cand[..start]) ensures p.0 < cand[start].0 {
      var k :| 0 <= k < start && cand[..start][k] == p;
      assert PairLess(cand[k], cand[start - 1]) || k == start - 1;
      assert PairLess(cand[start - 1], cand[start]);
    }
  }

  lemma GroupStep(cand: seq<(int, int)>, i: nat, ps: seq<(int, int)>, f: int)
    requires i < |cand| && ps == Greedy(cand[..i]) && cand[i].0 == f
    ensures cand[i].0 in FisOf(ps) || cand[i].1 in CtbOf(ps) ==> Greedy(cand[..i + 1]) == ps
    ensures !(cand[i].0 in FisOf(ps) || cand[i].1 in CtbOf(ps)) ==>
      Greedy(cand[..i + 1]) == ps + [cand[i]] && FisOf(ps + [cand[i]]) == FisOf(ps) + {f}
      && CtbOf(ps + [cand[i]]) == CtbOf(ps) + {cand[i].1}
  {
    GreedyUnfold(cand, i);
    OfAppend(ps, cand[i]);
  }

  /** One group: the candidates from `start` that share its physical id. */
  method GroupPass(cand: seq<(int, int)>, start: nat, pairs0: seq<(int, int)>, used0: set<int>)
    returns (pairs: seq<(int, int)>, used: set<int>, i: nat)
    requires start < |cand| && cand[start].0 !in FisOf(pairs0)
    requires pairs0 == Greedy(cand[..start]) && used0 == CtbOf(pairs0)
    ensures start < i <= |cand| && (i == |cand| || cand[i - 1].0 != cand[i].0)
    ensures pairs == Greedy(cand[..i]) && used == CtbOf(pairs)
    ensures |pairs0| <= |pairs| <= |pairs0| + 1
    ensures pairs0 == [] ==> |pairs| == 1
  {
    var f := cand[start].0;
    pairs, used, i := pairs0, used0, start;
    var taken := false;
    while i < |cand| && cand[i].0 == f
      invariant start <= i <= |cand|
      invariant i > start ==> cand[i - 1].0 == f
      invariant pairs == Greedy(cand[..i]) && used == CtbOf(pairs)
      invariant taken <==> f in FisOf(pairs)
      invariant |pairs| == |pairs0| + (if taken then 1 else 0)
      invariant pairs0 == [] && i > start ==> taken
      invariant !taken ==> pairs == pairs0
      decreases |cand| - i
    {
      pairs, used, taken := GroupVisit(cand, i, f, pairs, used, taken);
      i := i + 1;
    }
  }

  /** One candidate of the group of `f`: taken when the group has no pair yet
      and its accounting id is free. */
  method GroupVisit(cand: seq<(int, int)>, i: nat, f: int, pairs: seq<(int, int)>, used: set<int>, taken: bool)
    returns (pairs': seq<(int, int)>, used': set<int>, taken': bool)
    requires i < |cand| && cand[i].0 == f
    requires pairs == Greedy(cand[..i]) && used == CtbOf(pairs) && (taken <==> f in FisOf(pairs))
    ensures pairs' == Greedy(cand[..i + 1]) && used' == CtbOf(pairs') && (taken' <==> f in FisOf(pairs'))
    ensures taken ==> taken' && pairs' == pairs
    ensures !taken && !taken' ==> pairs' == pairs
    ensures !taken && taken' ==> |pairs'| == |pairs| + 1
    ensures pairs == [] ==> taken'
  {
    GroupStep(cand, i, pairs, f);
    pairs', used', taken' := pairs, used, taken;
    if !taken && cand[i].1 !in used {
      used' := used + {cand[i].1};
      pairs' := pairs + [cand[i]];
      taken' := true;
    }
  }

  /** The same pass with the limit checked before each group, so that no
      more than `limit` pairs are formed. */
  method GreedyByGroup(cand: seq<(int, int)>, limit: nat) returns (pairs: seq<(int, int)>)
    requires StrictlySorted(cand)
    ensures pairs == Take(Greedy(cand), limit)
  {
    GreedySpec(cand);
    pairs := [];
    var used: set<int> := {};
    var i := 0;
    while i < |cand| && |pairs| < limit
      invariant i <= |cand|
      invariant i == 0 || i == |cand| || cand[i - 1].0 != cand[i].0
      invariant pairs == Greedy(cand[..i]) && used == CtbOf(pairs)
      invariant |pairs| <= limit
      decreases |cand| - i
    {
      GroupFresh(cand, i);
      pairs, used, i := GroupPass(cand, i, pairs, used);
    }
    if i < |cand| {
      GreedyPrefix(cand, i);
    } else {
      assert cand[..i] == cand;
    }
  }

  /** With `limit_pairs = 0` the pass as written still forms a pair. */
  lemma LimitZeroStillPairs(cand: seq<(int, int)>)
    requires StrictlySorted(cand) && cand != []
    ensures |Take(Greedy(cand), 1)| == 1
  {
    GreedyPrefix(cand, 1);
    assert cand[..1][..0] == [];
    assert Greedy(cand[..1]) == [cand[0]];
  }

  // ---------------------------------------------------------------------
  // rule 6: description similarity

  /** The attribute set of a description (`_desc_attr_set`). */
  function Attrs(desc: string): set<string> { Filters.DescAttrSet(desc) }

  /** The accounting attribute sets by id (`c_attrs`). */
  function CtbAttrs(ctb: map<int, string>): (r: map<int, set<string>>)
    ensures r.Keys == ctb.Keys
  {
    map c | c in ctb :: Attrs(ctb[c])
  }

  /** The physical rows with their attribute sets, in their order. */
  function FisAttrs(fis: seq<(int, string)>): (r: seq<(int, set<string>)>)
    ensures |r| == |fis|
    ensures forall i :: 0 <= i < |fis| ==> r[i].0 == fis[i].0
  {
    seq(|fis|, i requires 0 <= i < |fis| => (fis[i].0, Attrs(fis[i].1)))
  }

  function ScoreIn(fa: set<string>, ca: map<int, set<string>>, c: int): nat
    requires c in ca
  {
    Filters.Score(fa, ca[c])
  }

  /** The accounting ids that share at least two attributes with `fa`. */
  function Hits(fa: set<string>, ca: map<int, set<string>>): set<int> {
    set c | c in ca && ScoreIn(fa, ca, c) >= 2
  }

  /** `c` is a free accounting id with at least two shared attributes and no
      free id scores higher. */
  predicate IsBest(fa: set<string>, ca: map<int, set<string>>, used: set<int>, c: int) {
    c in ca && c !in used && ScoreIn(fa, ca, c) >= 2
    && forall d :: d in ca && d !in used ==> ScoreIn(fa, ca, d) <= ScoreIn(fa, ca, c)
  }

  /** No free accounting id shares two attributes with `fa`. */
  predicate NoBest(fa: set<string>, ca: map<int, set<string>>, used: set<int>) {
    forall d :: d in ca && d !in used ==> ScoreIn(fa, ca, d) < 2
  }

  /** The pair lists the rule-6 pass may form over the physical rows `fis`
      (id, attributes) in their order: each row either finds no free
      accounting id with two shared attributes and adds nothing, or is paired
      with a best-scoring free one. Ties may go to any of the best. */
  ghost predicate Rule6Rel(fis: seq<(int, set<string>)>, ca: map<int, set<string>>, ps: seq<(int, int)>)
    decreases |fis|
  {
    if fis == [] then ps == []
    else
      var init := fis[..|fis| - 1];
      var row := fis[|fis| - 1];
      (Rule6Rel(init, ca, ps) && NoBest(row.1, ca, CtbOf(ps)))
      || (ps != [] && ps[|ps| - 1].0 == row.0 && Rule6Rel(init, ca, ps[..|ps| - 1])
          && IsBest(row.1, ca, CtbOf(ps[..|ps| - 1]), ps[|ps| - 1].1))
  }

  predicate CtbOnce(ps: seq<(int, int)>) {
    forall i, j :: 0 <= i < j < |ps| ==> ps[i].1 != ps[j].1
  }

  /** Every pair joins a physical row and an accounting row that share at
      least two attributes. */
  predicate Scored(fis: seq<(int, set<string>)>, ca: map<int, set<string>>, ps: seq<(int, int)>) {
    forall k :: 0 <= k < |ps| ==>
      ps[k].1 in ca && exists r :: r in fis && r.0 == ps[k].0 && ScoreIn(r.1, ca, ps[k].1) >= 2
  }

  lemma Rule6ShapeStep(fis: seq<(int, set<string>)>, ca: map<int, set<string>>, ps: seq<(int, int)>)
    requires fis != [] && ps != []
    requires CtbOnce(ps[..|ps| - 1]) && Scored(fis[..|fis| - 1], ca, ps[..|ps| - 1])
    requires ps[|ps| - 1].0 == fis[|fis| - 1].0
    requires IsBest(fis[|fis| - 1].1, ca, CtbOf(ps[..|ps| - 1]), ps[|ps| - 1].1)
    ensures CtbOnce(ps) && Scored(fis, ca, ps)
  {
    var prev := ps[..|ps| - 1];
    var init := fis[..|fis| - 1];
    var row := fis[|fis| - 1];
    forall i, j | 0 <= i < j < |ps| ensures ps[i].1 != ps[j].1 {
      assert ps[i] == prev[i];
      if j == |prev| {
        assert prev[i] in prev;
      } else {
        assert ps[j] == prev[j];
      }
    }
    forall k | 0 <= k < |ps|
      ensures ps[k].1 in ca && exists r :: r in fis && r.0 == ps[k].0 && ScoreIn(r.1, ca, ps[k].1) >= 2
    {
      if k == |prev| {
        assert row in fis;
      } else {
        assert ps[k] == prev[k];
        var r :| r in init && r.0 == prev[k].0 && ScoreIn(r.1, ca, prev[k].1) >= 2;
        assert r in fis;
      }
    }
  }

  lemma ScoredGrow(fis: seq<(int, set<string>)>, ca: map<int, set<string>>, ps: seq<(int, int)>)
    requires fis != [] && Scored(fis[..|fis| - 1], ca, ps)
    ensures Scored(fis, ca, ps)
  {
    forall k | 0 <= k < |ps|
      ensures ps[k].1 in ca && exists r :: r in fis && r.0 == ps[k].0 && ScoreIn(r.1, ca, ps[k].1) >= 2
    {
      var r :| r in fis[..|fis| - 1] && r.0 == ps[k].0 && ScoreIn(r.1, ca, ps[k].1) >= 2;
      assert r in fis;
    }
  }

  /** The pair added for the last physical row repeats no physical id, since
      every earlier pair belongs to an earlier row and row ids are distinct. */
  lemma Rule6FisStep(fis: seq<(int, set<string>)>, ca: map<int, set<string>>, ps: seq<(int, int)>)
    requires fis != [] && ps != [] && DistinctIds(fis)
    requires Scored(fis[..|fis| - 1], ca, ps[..|ps| - 1]) && OneToOne(ps[..|ps| - 1]) && CtbOnce(ps)
    requires ps[|ps| - 1].0 == fis[|fis| - 1].0
    ensures OneToOne(ps)
  {
    var prev := ps[..|ps| - 1];
    var init := fis[..|fis| - 1];
    forall i, j | 0 <= i < j < |ps| ensures ps[i].0 != ps[j].0 && ps[i].1 != ps[j].1 {
      assert ps[i] == prev[i];
      if j == |prev| {
        var r :| r in init && r.0 == prev[i].0 && ScoreIn(r.1, ca, prev[i].1) >= 2;
        var k :| 0 <= k < |init| && init[k] == r;
        assert fis[k] == r;
      } else {
        assert ps[j] == prev[j];
      }
    }
  }

  /** What any outcome of the rule-6 pass satisfies: at most one pair per
      physical row (no physical id twice when row ids are distinct), each
      accounting id used at most once, and every pair scored at least 2. */
  lemma {:induction false} Rule6Shape(fis: seq<(int, set<string>)>, ca: map<int, set<string>>, ps: seq<(int, int)>)
    requires Rule6Rel(fis, ca, ps)
    ensures |ps| <= |fis| && CtbOnce(ps) && Scored(fis, ca, ps)
    ensures DistinctIds(fis) ==> OneToOne(ps)
    decreases |fis|
  {
    if fis != [] {
      var init := fis[..|fis| - 1];
      var row := fis[|fis| - 1];
      if Rule6Rel(init, ca, ps) && NoBest(row.1, ca, CtbOf(ps)) {
        Rule6Shape(init, ca, ps);
        ScoredGrow(fis, ca, ps);
      } else {
        Rule6Shape(init, ca, ps[..|ps| - 1]);
        Rule6ShapeStep(fis, ca, ps);
        if DistinctIds(fis) {
          assert DistinctIds(init);
          Rule6FisStep(fis, ca, ps);
        }
      }
    }
  }

  lemma BestFromCounts(fa: set<string>, ca: map<int, set<string>>, used: set<int>, counts: map<int, nat>,
                       best: Option<int>, bestScore: nat)
    requires forall c :: c in counts <==> c in ca && c !in used && ScoreIn(fa, ca, c) > 0
    requires forall c :: c in counts ==> counts[c] == ScoreIn(fa, ca, c)
    requires best.None? ==> bestScore == 0
    requires best.Some? ==> best.value in counts && counts[best.value] == bestScore >= 2
    requires forall c :: c in counts && counts[c] >= 2 ==> counts[c] <= bestScore
    ensures best.None? ==> NoBest(fa, ca, used)
    ensures best.Some? ==> IsBest(fa, ca, used, best.value)
  {
    forall d | d in ca && d !in used && ScoreIn(fa, ca, d) >= 2 ensures ScoreIn(fa, ca, d) <= bestScore {
      assert d in counts;
    }
  }

  /** Picks a best-scoring free accounting id for the attributes `fa` by
      scanning the per-candidate counts of shared attributes. */
  method BestMatch(fa: set<string>, ca: map<int, set<string>>, used: set<int>) returns (best: Option<int>)
    ensures best.None? ==> NoBest(fa, ca, used)
    ensures best.Some? ==> IsBest(fa, ca, used, best.value)
  {
    var counts: map<int, nat> := map c | c in ca && c !in used && ScoreIn(fa, ca, c) > 0 :: ScoreIn(fa, ca, c);
    best := None;
    var bestScore: nat := 0;
    var rest := counts.Keys;
    while rest != {}
      invariant rest <= counts.Keys
      invariant best.None? ==> bestScore == 0
      invariant best.Some? ==> best.value in counts && counts[best.value] == bestScore >= 2
      invariant forall c :: c in counts && c !in rest && counts[c] >= 2 ==> counts[c] <= bestScore
      decreases |rest|
    {
      var cid :| cid in rest;
      var score := counts[cid];
      if score >= 2 && score > bestScore {
        best := Some(cid);
        bestScore := score;
      }
      rest := rest - {cid};
    }
    BestFromCounts(fa, ca, used, counts, best, bestScore);
  }

  /** The candidate of one physical row: none when it has no attributes. */
  method BestFor(fa: set<string>, ca: map<int, set<string>>, used: set<int>) returns (best: Option<int>)
    ensures best.None? ==> NoBest(fa, ca, used)
    ensures best.Some? ==> IsBest(fa, ca, used, best.value)
  {
    best := None;
    if fa != {} {
      best := BestMatch(fa, ca, used);
    }
  }

  lemma Rule6Step(fis: seq<(int, set<string>)>, i: nat, ca: map<int, set<string>>, acc: seq<(int, int)>, best: Option<int>)
    requires i < |fis| && Rule6Rel(fis[..i], ca, acc)
    requires best.None? ==> NoBest(fis[i].1, ca, CtbOf(acc))
    requires best.Some? ==> IsBest(fis[i].1, ca, CtbOf(acc), best.value)
    ensures Rule6Rel(fis[..i + 1], ca, if best.Some? then acc + [(fis[i].0, best.value)] else acc)
  {
    var next := fis[..i + 1];
    assert next[..|next| - 1] == fis[..i] && next[|next| - 1] == fis[i];
    if best.Some? {
      var ps := acc + [(fis[i].0, best.value)];
      assert ps[..|ps| - 1] == acc;
    }
  }

  /** The greedy pass of rule 6 over the physical rows in their order,
      followed by `pairs[:limit_pairs]`. */
  method Rule6Pairs(fis: seq<(int, string)>, ctb: map<int, string>, limit: nat)
    returns (pairs: seq<(int, int)>, ghost all: seq<(int, int)>)
    ensures Rule6Rel(FisAttrs(fis), CtbAttrs(ctb), all) && pairs == Take(all, limit)
  {
    var ca := CtbAttrs(ctb);
    ghost var fa := FisAttrs(fis);
    var acc: seq<(int, int)> := [];
    var used: set<int> := {};
    var i := 0;
    while i < |fis|
      invariant i <= |fis|
      invariant Rule6Rel(fa[..i], ca, acc) && used == CtbOf(acc)
    {
      var fid := fis[i].0;
      var fattrs := Attrs(fis[i].1);
      assert fa[i] == (fid, fattrs);
      var best := BestFor(fattrs, ca, used);
      Rule6Step(fa, i, ca, acc, best);
      if best.Some? {
        OfAppend(acc, (fid, best.value));
        used := used + {best.value};
        acc := acc + [(fid, best.value)];
      }
      i := i + 1;
    }
    assert fa[..i] == fa;
    all := acc;
    pairs := Take(acc, limit);
  }

  // ---------------------------------------------------------------------
  // rule 6: the participant filter of load_candidates_auto02

  predicate DistinctIds<T>(rows: seq<(int, T)>) {
    forall i, j :: 0 <= i < j < |rows| ==> rows[i].0 != rows[j].0
  }

  /** `fis_keep`: the ids of the physical rows with at least one hit. */
  function FisKeep(fa: seq<(int, set<string>)>, ca: map<int, set<string>>): set<int> {
    set r | r in fa && Hits(r.1, ca) != {} :: r.0
  }

  /** `ctb_keep`: every accounting id that is a hit of some physical row. */
  function CtbKeep(fa: seq<(int, set<string>)>, ca: map<int, set<string>>): set<int> {
    set r, c | r in fa && c in Hits(r.1, ca) :: c
  }

  /** The rows whose id is in `k`, in their order (`df[df["ID"].isin(k)]`). */
  function KeepIds<T>(rows: seq<(int, T)>, k: set<int>): (r: seq<(int, T)>)
    ensures forall x :: x in r ==> x in rows
    decreases |rows|
  {
    if rows == [] then []
    else KeepIds(rows[..|rows| - 1], k) + (if rows[|rows| - 1].0 in k then [rows[|rows| - 1]] else [])
  }

  function Restrict<T>(m: map<int, T>, k: set<int>): map<int, T> {
    map c | c in m && c in k :: m[c]
  }

  lemma FisAttrsPrefix(fis: seq<(int, string)>)
    requires fis != []
    ensures FisAttrs(fis) == FisAttrs(fis[..|fis| - 1]) + [(fis[|fis| - 1].0, Attrs(fis[|fis| - 1].1))]
  {
  }

  lemma {:induction false} FisAttrsKeep(fis: seq<(int, string)>, k: set<int>)
    ensures FisAttrs(KeepIds(fis, k)) == KeepIds(FisAttrs(fis), k)
    decreases |fis|
  {
    if fis != [] {
      var init := fis[..|fis| - 1];
      var x := fis[|fis| - 1];
      FisAttrsKeep(init, k);
      FisAttrsPrefix(fis);
      var fa := FisAttrs(fis);
      assert fa[..|fa| - 1] == FisAttrs(init);
      if x.0 in k {
        FisAttrsPrefix(KeepIds(fis, k));
        assert KeepIds(fis, k)[..|KeepIds(fis, k)| - 1] == KeepIds(init, k);
      } else {
        assert KeepIds(fis, k) == KeepIds(init, k);
      }
    }
  }

  lemma CtbAttrsRestrict(ctb: map<int, string>, k: set<int>)
    ensures CtbAttrs(Restrict(ctb, k)) == Restrict(CtbAttrs(ctb), k)
  {
  }

  /** A row with no hit adds no pair. */
  lemma NoHitNoBest(fa: set<string>, ca: map<int, set<string>>, used: set<int>, c: int)
    requires Hits(fa, ca) == {}
    ensures NoBest(fa, ca, used) && !IsBest(fa, ca, used, c)
  {
    forall d | d in ca && d !in used ensures ScoreIn(fa, ca, d) < 2 {
      assert d !in Hits(fa, ca);
    }
  }

  lemma {:induction false} RelKeep(fa: seq<(int, set<string>)>, k: set<int>, ca: map<int, set<string>>, ps: seq<(int, int)>)
    requires forall r :: r in fa ==> (r.0 in k <==> Hits(r.1, ca) != {})
    ensures Rule6Rel(fa, ca, ps) <==> Rule6Rel(KeepIds(fa, k), ca, ps)
    decreases |fa|
  {
    if fa != [] {
      var init := fa[..|fa| - 1];
      var row := fa[|fa| - 1];
      assert forall r :: r in init ==> r in fa;
      RelKeep(init, k, ca, ps);
      if ps != [] {
        RelKeep(init, k, ca, ps[..|ps| - 1]);
      }
      var kept := KeepIds(fa, k);
      if row.0 in k {
        assert kept[..|kept| - 1] == KeepIds(init, k) && kept[|kept| - 1] == row;
      } else {
        assert kept == KeepIds(init, k);
        NoHitNoBest(row.1, ca, CtbOf(ps), 0);
        if ps != [] {
          NoHitNoBest(row.1, ca, CtbOf(ps[..|ps| - 1]), ps[|ps| - 1].1);
        }
      }
    }
  }

  lemma BestRestrict(fa: set<string>, ca: map<int, set<string>>, k: set<int>, used: set<int>, c: int)
    requires Hits(fa, ca) <= k
    ensures NoBest(fa, ca, used) <==> NoBest(fa, Restrict(ca, k), used)
    ensures IsBest(fa, ca, used, c) <==> IsBest(fa, Restrict(ca, k), used, c)
  {
    var sub := Restrict(ca, k);
    forall d | d in ca && ScoreIn(fa, ca, d) >= 2 ensures d in sub {
      assert d in Hits(fa, ca);
    }
  }

  lemma {:induction false} RelRestrict(fa: seq<(int, set<string>)>, ca: map<int, set<string>>, k: set<int>, ps: seq<(int, int)>)
    requires forall r :: r in fa ==> Hits(r.1, ca) <= k
    ensures Rule6Rel(fa, ca, ps) <==> Rule6Rel(fa, Restrict(ca, k), ps)
    decreases |fa|
  {
    if fa != [] {
      var init := fa[..|fa| - 1];
      var row := fa[|fa| - 1];
      assert forall r :: r in init ==> r in fa;
      RelRestrict(init, ca, k, ps);
      BestRestrict(row.1, ca, k, CtbOf(ps), 0);
      if ps != [] {
        RelRestrict(init, ca, k, ps[..|ps| - 1]);
        BestRestrict(row.1, ca, k, CtbOf(ps[..|ps| - 1]), ps[|ps| - 1].1);
      }
    }
  }

  /** Narrowing the rows to the participants first changes nothing: over
      physical rows with distinct ids, the pass over the kept rows and the
      kept accounting ids forms exactly the pair lists the pass over all of
      them may form. */
  lemma KeepChangesNothing(fa: seq<(int, set<string>)>, ca: map<int, set<string>>, ps: seq<(int, int)>)
    requires DistinctIds(fa)
    ensures Rule6Rel(fa, ca, ps) <==>
      Rule6Rel(KeepIds(fa, FisKeep(fa, ca)), Restrict(ca, CtbKeep(fa, ca)), ps)
  {
    var k := FisKeep(fa, ca);
    forall r | r in fa ensures r.0 in k <==> Hits(r.1, ca) != {} {
      if r.0 in k {
        var r' :| r' in fa && Hits(r'.1, ca) != {} && r'.0 == r.0;
        var i :| 0 <= i < |fa| && fa[i] == r;
        var j :| 0 <= j < |fa| && fa[j] == r';
        assert i == j;
      }
    }
    RelKeep(fa, k, ca, ps);
    var kept := KeepIds(fa, k);
    forall r | r in kept ensures Hits(r.1, ca) <= CtbKeep(fa, ca) {
      assert r in fa;
    }
    RelRestrict(kept, ca, CtbKeep(fa, ca), ps);
  }

  // ---------------------------------------------------------------------
  // load_pairs_auto02

  lemma TakeKeeps(ps: seq<(int, int)>, n: nat)
    ensures OneToOne(ps) ==> OneToOne(Take(ps, n))
    ensures CtbOnce(ps) ==> CtbOnce(Take(ps, n))
    ensures forall p :: p in Take(ps, n) ==> p in ps
  {
    var t := Take(ps, n);
    assert forall i :: 0 <= i < |t| ==> t[i] == ps[i];
  }

  lemma ScoredTake(fa: seq<(int, set<string>)>, ca: map<int, set<string>>, ps: seq<(int, int)>, n: nat)
    requires Scored(fa, ca, ps)
    ensures Scored(fa, ca, Take(ps, n))
  {
    var t := Take(ps, n);
    assert forall i :: 0 <= i < |t| ==> t[i] == ps[i];
  }

  /** The rule-6 branch: the participant filter, then the greedy pass over
      the participants and the cut at `limit`. */
  method Rule6Branch(fis6: seq<(int, string)>, ctb6: map<int, string>, limit: nat)
    returns (pairs: seq<(int, int)>, ghost all: seq<(int, int)>)
    ensures pairs == Take(all, limit) && CtbOnce(pairs)
    ensures Scored(FisAttrs(fis6), CtbAttrs(ctb6), pairs)
    ensures DistinctIds(fis6) ==> Rule6Rel(FisAttrs(fis6), CtbAttrs(ctb6), all) && OneToOne(pairs)
  {
    ghost var fa := FisAttrs(fis6);
    var ca := CtbAttrs(ctb6);
    var fk := FisKeep(FisAttrs(fis6), ca);
    var ck := CtbKeep(FisAttrs(fis6), ca);
    var keptF := KeepIds(fis6, fk);
    var keptC := Restrict(ctb6, ck);
    FisAttrsKeep(fis6, fk);
    CtbAttrsRestrict(ctb6, ck);
    if keptF == [] {
      pairs, all := [], [];
    } else {
      pairs, all := Rule6Pairs(keptF, keptC, limit);
    }
    Rule6Shape(KeepIds(fa, fk), Restrict(ca, ck), all);
    ScoredTake(KeepIds(fa, fk), Restrict(ca, ck), all, limit);
    TakeKeeps(all, limit);
    ScoredWiden(fa, KeepIds(fa, fk), ca, ck, pairs);
    if DistinctIds(fis6) {
      assert DistinctIds(fa);
      KeepChangesNothing(fa, ca, all);
      Rule6Shape(fa, ca, all);
      TakeKeeps(all, limit);
    }
  }

  /** The branch of rules 1-5: the join rows in `ORDER BY f.ID, t.ID`, cut
      at `cap`, then the greedy pass cut at `limit`. */
  method JoinBranch(fisico: map<int, Asset>, contabil: map<int, Asset>, conc: map<LockKey, int>,
                    rid: string, limit: nat, cap: nat, keepF: set<int>, keepC: set<int>)
    returns (pairs: seq<(int, int)>)
    ensures pairs == Take(Greedy(Take(SortedPairs(CandidateSet(fisico, contabil, conc, rid, keepF, keepC)), cap)), limit)
    ensures OneToOne(pairs) && |pairs| <= limit
    ensures forall p :: p in pairs ==> Candidate(fisico, contabil, conc, rid, keepF, keepC, p.0, p.1)
  {
    var cset := CandidateSet(fisico, contabil, conc, rid, keepF, keepC);
    var sorted := SortPairs(cset);
    var cand := Take(sorted, cap);
    JoinPairsSpec(cset, cap, limit);
    if cand == [] {
      pairs := [];
    } else {
      pairs := GreedyByGroup(cand, limit);
    }
  }

  /** The greedy pass over the first `cap` sorted candidates keeps at most
      `limit` pairs, one-to-one, all of them candidates. */
  lemma JoinPairsSpec(cset: set<(int, int)>, cap: nat, limit: nat)
    ensures StrictlySorted(Take(SortedPairs(cset), cap))
    ensures var pairs := Take(Greedy(Take(SortedPairs(cset), cap)), limit);
      OneToOne(pairs) && |pairs| <= limit && forall p :: p in pairs ==> p in cset
  {
    var sorted := SortedPairs(cset);
    var cand := Take(sorted, cap);
    assert forall i :: 0 <= i < |cand| ==> cand[i] == sorted[i];
    GreedySpec(cand);
    TakeKeeps(Greedy(cand), limit);
    forall p | p in Take(Greedy(cand), limit) ensures p in cset {
      assert p in cand;
      assert p in sorted;
    }
  }

  /**
   * `load_pairs_auto02`: the pairs proposed for rule `ruleId`. An unknown
   * rule proposes nothing. Rule 6 pairs the participant rows of `fis6` (the
   * pending physical rows in the order of the candidate query) with the
   * participant accounting rows of `ctb6` by description similarity.
   * Rules 1-5 pair greedily over the first `cap` join rows.
   */
  method LoadPairsAuto02(fisico: map<int, Asset>, contabil: map<int, Asset>, conc: map<LockKey, int>,
                         ruleId: string, limit: nat, cap: nat, keepF: set<int>, keepC: set<int>,
                         fis6: seq<(int, string)>, ctb6: map<int, string>)
    returns (pairs: seq<(int, int)>, ghost all: seq<(int, int)>)
    ensures |pairs| <= limit
    ensures Strip(ruleId) !in Rules ==> pairs == []
    ensures Strip(ruleId) == "6" ==>
      (pairs == Take(all, limit) && CtbOnce(pairs) && Scored(FisAttrs(fis6), CtbAttrs(ctb6), pairs))
    ensures Strip(ruleId) == "6" && DistinctIds(fis6) ==> Rule6Rel(FisAttrs(fis6), CtbAttrs(ctb6), all) && OneToOne(pairs)
    ensures Strip(ruleId) in Rules && Strip(ruleId) != "6" ==>
      (pairs == Take(Greedy(Take(SortedPairs(CandidateSet(fisico, contabil, conc, Strip(ruleId), keepF, keepC)), cap)), limit)
       && OneToOne(pairs)
       && forall p :: p in pairs ==> Candidate(fisico, contabil, conc, Strip(ruleId), keepF, keepC, p.0, p.1))
  {
    var rid := Strip(ruleId);
    all := [];
    if rid !in Rules {
      pairs := [];
    } else if rid == "6" {
      pairs, all := Rule6Branch(fis6, ctb6, limit);
    } else {
      pairs := JoinBranch(fisico, contabil, conc, rid, limit, cap, keepF, keepC);
    }
  }

  /** Scores over the kept accounting rows are scores over all of them. */
  lemma ScoredWiden(fa: seq<(int, set<string>)>, kept: seq<(int, set<string>)>, ca: map<int, set<string>>,
                    k: set<int>, ps: seq<(int, int)>)
    requires forall r :: r in kept ==> r in fa
    requires Scored(kept, Restrict(ca, k), ps)
    ensures Scored(fa, ca, ps)
  {
    forall i | 0 <= i < |ps|
      ensures ps[i].1 in ca && exists r :: r in fa && r.0 == ps[i].0 && ScoreIn(r.1, ca, ps[i].1) >= 2
    {
      var r :| r in kept && r.0 == ps[i].0 && ScoreIn(r.1, Restrict(ca, k), ps[i].1) >= 2;
      assert r in fa;
    }
  }
}

/** Exactly when comparing one argument keeps the meaning: ids merge when their left spines are equal. */
module Spines {
  import opened Ssa
  import opened Optimise
  import opened Exactness

  /** Operators that look at their left operand only: the value of an id is its left spine, the
      operators down the left operands and the parameter at their end. */
  const SPINE: Interp<Term> := Interp((op: BinOp, l: Term, r: Term) => Apply(op, l, Junk), Junk)

  function SpineOf(ts: seq<Token>, np: nat, x: nat): Term {
    ValueOf(SPINE, ParamTerms(np), ts, x)
  }

  /** The first token, from `p` on, whose result has spine `s`; `|ts|` when there is none. */
  function FirstWith(ts: seq<Token>, np: nat, s: Term, p: nat := 0): (f: nat)
    requires p <= |ts|
    ensures p <= f <= |ts|
    ensures f < |ts| ==> ts[f].kind.Bin? && SpineOf(ts, np, ts[f].result) == s
    ensures forall q :: p <= q < f && ts[q].kind.Bin? ==> SpineOf(ts, np, ts[q].result) != s
    decreases |ts| - p
  {
    if p == |ts| || (ts[p].kind.Bin? && SpineOf(ts, np, ts[p].result) == s) then p else FirstWith(ts, np, s, p + 1)
  }

  /** The id read in place of `x` after the pass: a parameter itself, a result the first with its spine. */
  function Rep(ts: seq<Token>, np: nat, x: nat): nat {
    var f := FirstWith(ts, np, SpineOf(ts, np, x));
    if x < FIRST_TEMPORAL || f == |ts| then x else ts[f].result
  }

  predicate IsFirst(ts: seq<Token>, np: nat, p: nat)
    requires p < |ts|
  {
    ts[p].kind.Bin? && FirstWith(ts, np, SpineOf(ts, np, ts[p].result)) == p
  }

  predicate SameTerm(ts: seq<Token>, np: nat, x: nat) {
    TermOf(ts, np, Rep(ts, np, x)) == TermOf(ts, np, x)
  }

  /** Below position `n`, whatever a first token of its spine reads, and what the first return reads,
      has the term of the first token of its own spine. */
  ghost predicate ReadsAgree(ts: seq<Token>, np: nat, n: nat)
    requires n <= |ts|
  {
    && (forall p :: 0 <= p < n && IsFirst(ts, np, p) ==>
            SameTerm(ts, np, ts[p].args[0]) && SameTerm(ts, np, ts[p].args[1]))
    && (FirstReturn(ts) < n ==> SameTerm(ts, np, ts[FirstReturn(ts)].args[0]))
  }

  /** Survivors below `n` keep their value, and so does the return, if it comes below `n`. */
  ghost predicate KeepsTo<V>(I: Interp<V>, e: map<nat, V>, ts: seq<Token>, us: seq<Token>, n: nat)
    requires n <= |ts|
  {
    && |us| == |ts|
    && (FirstReturn(ts) < n ==> Returned(I, e, us) == Returned(I, e, ts))
    && forall p :: 0 <= p < n && us[p].IsValue() ==>
         && ts[p].IsValue() && us[p].result == ts[p].result
         && ValueOf(I, e, us, us[p].result) == ValueOf(I, e, ts, us[p].result)
  }

  // ---------- values of tokens ----------

  lemma {:induction false} ValueOfToken<V>(I: Interp<V>, e: map<nat, V>, ts: seq<Token>, np: nat, p: nat)
    requires WellFormed(ts, np) && p < |ts| && ts[p].kind.Bin?
    ensures ValueOf(I, e, ts, ts[p].result)
            == I.op(ts[p].kind.op, ValueOf(I, e, ts, ts[p].args[0]), ValueOf(I, e, ts, ts[p].args[1]))
  {
    forall a | 0 <= a < 2
      ensures ValueOf(I, e, ts, ts[p].args[a]) == Get(I, EnvAt(I, e, ts, p), ts[p].args[a])
    {
      assert Resolves(ts, np, p, ts[p].args[a]);
      NotAssignedLater(ts, np, p, ts[p].args[a]);
      Stable(I, e, ts, p, |ts|, ts[p].args[a]);
    }
    Stable(I, e, ts, p + 1, |ts|, ts[p].result);
  }

  lemma {:induction false} ReturnedValue<V>(I: Interp<V>, e: map<nat, V>, ts: seq<Token>, np: nat)
    requires WellFormed(ts, np) && FirstReturn(ts) < |ts|
    ensures Returned(I, e, ts) == ValueOf(I, e, ts, ts[FirstReturn(ts)].args[0])
    ensures Resolves(ts, np, FirstReturn(ts), ts[FirstReturn(ts)].args[0])
  {
    var r := FirstReturn(ts);
    var x := ts[r].args[0];
    assert Resolves(ts, np, r, x);
    NotAssignedLater(ts, np, r, x);
    Stable(I, e, ts, r, |ts|, x);
  }

  lemma {:induction false} SpineOfParam(ts: seq<Token>, np: nat, x: nat)
    requires WellFormed(ts, np) && IsParam(np, x)
    ensures SpineOf(ts, np, x) == Param(x) == TermOf(ts, np, x)
  {
    Stable(SPINE, ParamTerms(np), ts, 0, |ts|, x);
    TermOfParam(ts, np, x);
  }

  lemma {:induction false} NoSpineClash(ts: seq<Token>, np: nat)
    ensures NoClash(SPINE, ParamTerms(np), ts)
  {
  }

  /** In a completely merged function different ids have different spines. */
  lemma {:induction false} DistinctIdsDistinctSpines(us: seq<Token>, np: nat, p: nat, x: nat, y: nat)
    requires WellFormed(us, np) && NoIdentity(us) && Complete(us, 1)
    requires p <= |us| && Resolves(us, np, p, x) && Resolves(us, np, p, y)
    requires SpineOf(us, np, x) == SpineOf(us, np, y)
    ensures x == y
    decreases p
  {
    hide SpineOf, Matches, WellFormed;
    SpineShape(us, np, p, x);
    SpineShape(us, np, p, y);
    if !IsParam(np, x) && !IsParam(np, y) {
      var m :| 0 <= m < p && us[m].IsValue() && us[m].result == x;
      var n :| 0 <= n < p && us[n].IsValue() && us[n].result == y;
      SpineOfToken(us, np, m);
      SpineOfToken(us, np, n);
      ArgumentsResolve(us, np, m, p - 1);
      ArgumentsResolve(us, np, n, p - 1);
      DistinctIdsDistinctSpines(us, np, p - 1, us[m].args[0], us[n].args[0]);
      FirstSlotMatches(us[m], us[n]);
      assert m == n;
    }
  }

  lemma {:induction false} SpineOfToken(ts: seq<Token>, np: nat, p: nat)
    requires WellFormed(ts, np) && p < |ts| && ts[p].kind.Bin?
    ensures SpineOf(ts, np, ts[p].result) == Apply(ts[p].kind.op, SpineOf(ts, np, ts[p].args[0]), Junk)
  {
    ValueOfToken(SPINE, ParamTerms(np), ts, np, p);
  }

  /** A parameter's spine is that parameter, a result's an operation. */
  lemma {:induction false} SpineShape(ts: seq<Token>, np: nat, p: nat, x: nat)
    requires WellFormed(ts, np) && NoIdentity(ts) && p <= |ts| && Resolves(ts, np, p, x)
    ensures IsParam(np, x) ==> SpineOf(ts, np, x) == Param(x)
    ensures !IsParam(np, x) ==> SpineOf(ts, np, x).Apply?
  {
    if IsParam(np, x) {
      SpineOfParam(ts, np, x);
    } else {
      var m :| 0 <= m < p && ts[m].IsValue() && ts[m].result == x;
      SpineOfToken(ts, np, m);
    }
  }

  // ---------- what the pass does to reads ----------

  /** One merge: everywhere an argument reads what stands for it. */
  lemma {:induction false} RedirectArgs(ts: seq<Token>, np: nat, j: nat, y: nat, q: nat, a: nat)
    requires WellFormed(ts, np) && j < |ts| && q < |ts| && a < MAX_ARGS
    ensures Redirect(ts, j, y)[q].args[a] == if ts[q].args[a] == ts[j].result then y else ts[q].args[a]
  {
    if q <= j && ts[q].args[a] != 0 {
      assert Resolves(ts, np, q, ts[q].args[a]);
    }
  }

  lemma {:induction false} RowArgs(ts: seq<Token>, np: nat, i: nat, j: nat, k: nat, q: nat, a: nat)
    requires WellFormed(ts, np) && i < j <= |ts| && k <= MAX_ARGS && q < |ts| && a < MAX_ARGS
    ensures WellFormed(MergeRow(ts, i, j, k), np)
    ensures MergeRow(ts, i, j, k)[q].args[a] == StandsRow(ts, i, j, k, ts[q].args[a])
    decreases |ts| - j
  {
    hide WellFormed, Redirect;
    if j < |ts| {
      if Matches(ts[i], ts[j], k) {
        var us := Redirect(ts, j, ts[i].result);
        RedirectKeepsShape(ts, j, ts[i].result);
        MergeWellFormed(ts, np, i, j);
        RedirectArgs(ts, np, j, ts[i].result, q, a);
        RowArgs(us, np, i, j + 1, k, q, a);
      } else {
        RowArgs(ts, np, i, j + 1, k, q, a);
      }
    }
  }

  /** After the pass every argument reads what stands for the one before. */
  lemma {:induction false} ArgumentsStand(ts: seq<Token>, np: nat, k: nat, i: nat, q: nat, a: nat)
    requires WellFormed(ts, np) && i <= |ts| && k <= MAX_ARGS && q < |ts| && a < MAX_ARGS
    ensures ReusedPass(ts, k, i)[q].args[a] == Stands(ts, k, ts[q].args[a], i)
    decreases |ts| - i
  {
    hide WellFormed, MergeRow, StandsRow;
    if i < |ts| {
      RowArgs(ts, np, i, i + 1, k, q, a);
      ArgumentsStand(MergeRow(ts, i, i + 1, k), np, k, i + 1, q, a);
    }
  }

  /** Parameters, and 0, stand for themselves. */
  lemma {:induction false} LowStandsRow(ts: seq<Token>, np: nat, i: nat, j: nat, k: nat, x: nat)
    requires WellFormed(ts, np) && i < j <= |ts| && k <= MAX_ARGS && x < FIRST_TEMPORAL
    ensures WellFormed(MergeRow(ts, i, j, k), np) && StandsRow(ts, i, j, k, x) == x
    decreases |ts| - j
  {
    hide Redirect;
    if j < |ts| {
      if Matches(ts[i], ts[j], k) {
        RedirectKeepsShape(ts, j, ts[i].result);
        MergeWellFormed(ts, np, i, j);
        LowStandsRow(Redirect(ts, j, ts[i].result), np, i, j + 1, k, x);
      } else {
        LowStandsRow(ts, np, i, j + 1, k, x);
      }
    }
  }

  lemma {:induction false} LowStands(ts: seq<Token>, np: nat, k: nat, i: nat, x: nat)
    requires WellFormed(ts, np) && i <= |ts| && k <= MAX_ARGS && x < FIRST_TEMPORAL
    ensures Stands(ts, k, x, i) == x
    decreases |ts| - i
  {
    hide WellFormed, MergeRow, StandsRow;
    if i < |ts| {
      LowStandsRow(ts, np, i, i + 1, k, x);
      LowStands(MergeRow(ts, i, i + 1, k), np, k, i + 1, x);
    }
  }

  /** The result of a live token no later than `p`. */
  ghost predicate LiveBy(ts: seq<Token>, p: nat, x: nat) {
    exists m :: 0 <= m <= p && m < |ts| && ts[m].IsValue() && ts[m].result == x
  }

  lemma {:induction false} MergeLiveBy(ts: seq<Token>, np: nat, i: nat, j: nat, p: nat, x: nat)
    requires WellFormed(ts, np) && i < j < |ts| && ts[i].kind == ts[j].kind && LiveBy(ts, p, x)
    ensures LiveBy(Redirect(ts, j, ts[i].result), p, if x == ts[j].result then ts[i].result else x)
  {
    var us := Redirect(ts, j, ts[i].result);
    RedirectKeepsShape(ts, j, ts[i].result);
    var m :| 0 <= m <= p && m < |ts| && ts[m].IsValue() && ts[m].result == x;
    if m == j {
      assert us[i].IsValue() && us[i].result == ts[i].result;
    } else {
      assert us[m].IsValue() && us[m].result == x;
    }
  }

  lemma {:induction false} StandsRowEarlier(ts: seq<Token>, np: nat, i: nat, j: nat, k: nat, p: nat, x: nat)
    requires WellFormed(ts, np) && i < j <= |ts| && k <= MAX_ARGS && LiveBy(ts, p, x)
    ensures WellFormed(MergeRow(ts, i, j, k), np) && LiveBy(MergeRow(ts, i, j, k), p, StandsRow(ts, i, j, k, x))
    decreases |ts| - j
  {
    hide WellFormed, Redirect, LiveBy;
    if j < |ts| {
      if Matches(ts[i], ts[j], k) {
        RedirectKeepsShape(ts, j, ts[i].result);
        MergeWellFormed(ts, np, i, j);
        MergeLiveBy(ts, np, i, j, p, x);
        StandsRowEarlier(Redirect(ts, j, ts[i].result), np, i, j + 1, k, p,
                         if x == ts[j].result then ts[i].result else x);
      } else {
        StandsRowEarlier(ts, np, i, j + 1, k, p, x);
      }
    }
  }

  /** What stands for a result was computed no later. */
  lemma {:induction false} StandsEarlier(ts: seq<Token>, np: nat, k: nat, i: nat, p: nat, x: nat)
    requires WellFormed(ts, np) && i <= |ts| && k <= MAX_ARGS && LiveBy(ts, p, x)
    ensures LiveBy(ReusedPass(ts, k, i), p, Stands(ts, k, x, i))
    decreases |ts| - i
  {
    hide WellFormed, LiveBy, MergeRow, StandsRow;
    if i < |ts| {
      StandsRowEarlier(ts, np, i, i + 1, k, p, x);
      StandsEarlier(MergeRow(ts, i, i + 1, k), np, k, i + 1, p, StandsRow(ts, i, i + 1, k, x));
    }
  }

  // ---------- survivors are the first of their spine ----------

  /** What the pass over one compared argument leaves, whatever it does to terms. */
  ghost predicate Merged(ts: seq<Token>, us: seq<Token>, np: nat) {
    && us == ReusedPass(ts, 1) && WellFormed(ts, np) && NoIdentity(ts) && WellFormed(us, np) && NoIdentity(us)
    && Complete(us, 1) && FirstReturn(us) == FirstReturn(ts)
    && (forall p :: 0 <= p < |ts| ==> us[p].result == ts[p].result && (us[p].kind == ts[p].kind || us[p].kind.Erased?))
    && (forall p :: 0 <= p < |us| && us[p].IsValue() ==> SpineOf(us, np, us[p].result) == SpineOf(ts, np, us[p].result))
    && (forall x :: Live(ts, x) ==>
            Live(us, Stands(ts, 1, x)) && SpineOf(us, np, Stands(ts, 1, x)) == SpineOf(ts, np, x))
  }

  lemma {:induction false} PassMerges(ts: seq<Token>, np: nat)
    requires WellFormed(ts, np) && NoIdentity(ts)
    ensures Merged(ts, ReusedPass(ts, 1), np)
  {
    hide WellFormed, Complete, ReusedPass, Stands, Live, ValueOf, FirstReturn;
    var e := ParamTerms(np);
    NoSpineClash(ts, np);
    ReusedPassSound(SPINE, e, ts, np, 1, 0);
    RowsNotBegun(ts, 1);
    ReusedPassComplete(ts, np, 1, 0);
    ReusedPassNoNewIdentity(ts, 1, 0);
    SameFirstReturn(ts);
  }

  lemma {:induction false} RowsNotBegun(ts: seq<Token>, k: nat)
    requires k <= MAX_ARGS
    ensures RowsDone(ts, 0, k)
  {
  }

  lemma {:induction false} SameFirstReturn(ts: seq<Token>)
    ensures FirstReturn(ReusedPass(ts, 1)) == FirstReturn(ts)
  {
    var r := FirstReturn(ts);
    ReusedPassNoNewIdentity(ts, 1, 0);
    if r < |ts| {
      MergeNeverErasesFirst(ts, 1, 0, r);
    }
    FirstReturnIs(ReusedPass(ts, 1), r);
  }

  /** The first token of a spine survives. */
  lemma {:induction false} FirstSurvives(ts: seq<Token>, us: seq<Token>, np: nat, f: nat)
    requires Merged(ts, us, np) && f < |ts| && IsFirst(ts, np, f)
    ensures us[f].kind.Bin? && Stands(ts, 1, ts[f].result) == ts[f].result
  {
    hide SpineOf, WellFormed, Complete, ReusedPass, Stands, FirstReturn, FirstWith;
    var x := ts[f].result;
    assert LiveBy(ts, f, x);
    StandsEarlier(ts, np, 1, 0, f, x);
    assert Live(ts, x);
    var m :| 0 <= m <= f && m < |us| && us[m].IsValue() && us[m].result == Stands(ts, 1, x);
    assert SpineOf(ts, np, ts[m].result) == SpineOf(ts, np, x);
    assert ts[m].kind.Bin?;
  }

  /** What stands for a result is the first result with its spine. */
  lemma {:induction false} StandsIsRep(ts: seq<Token>, us: seq<Token>, np: nat, p: nat)
    requires Merged(ts, us, np) && p < |ts| && ts[p].kind.Bin?
    ensures Stands(ts, 1, ts[p].result) == Rep(ts, np, ts[p].result)
    ensures var f := FirstWith(ts, np, SpineOf(ts, np, ts[p].result));
      f <= p && us[f].kind.Bin? && IsFirst(ts, np, f) && Rep(ts, np, ts[p].result) == ts[f].result
    ensures us[p].kind.Bin? ==> IsFirst(ts, np, p)
  {
    hide SpineOf, Complete, ReusedPass, Stands, FirstReturn, WellFormed;
    var x := ts[p].result;
    var f := FirstWith(ts, np, SpineOf(ts, np, x));
    FirstSurvives(ts, us, np, f);
    assert Live(ts, x);
    var n :| 0 <= n < |us| && us[n].IsValue() && us[n].result == Stands(ts, 1, x);
    assert us[f].IsValue() && us[f].result == ts[f].result;
    assert DefinedBefore(us, |us|, Stands(ts, 1, x)) && DefinedBefore(us, |us|, ts[f].result);
    DistinctIdsDistinctSpines(us, np, |us|, Stands(ts, 1, x), ts[f].result);
    ResultsHigh(ts, np, p);
    if us[p].kind.Bin? {
      assert DefinedBefore(us, |us|, x);
      DistinctIdsDistinctSpines(us, np, |us|, x, ts[f].result);
      ResultsDistinct(ts, np, p, f);
    }
  }

  lemma {:induction false} ResultsHigh(ts: seq<Token>, np: nat, p: nat)
    requires WellFormed(ts, np) && p < |ts|
    ensures ts[p].result >= FIRST_TEMPORAL
  {
  }

  lemma {:induction false} ResultsDistinct(ts: seq<Token>, np: nat, p: nat, q: nat)
    requires WellFormed(ts, np) && p < |ts| && q < |ts| && ts[p].result == ts[q].result
    ensures p == q
  {
  }

  /** A read after the pass: of the parameter as before, or of the first result with its spine, which a
      surviving token computed before. */
  lemma {:induction false} ReadsRep(ts: seq<Token>, us: seq<Token>, np: nat, q: nat, a: nat)
    requires Merged(ts, us, np) && q < |ts| && a < MAX_ARGS && ts[q].args[a] != 0
    ensures us[q].args[a] == Rep(ts, np, ts[q].args[a])
    ensures IsParam(np, ts[q].args[a]) ==> us[q].args[a] == ts[q].args[a]
    ensures !IsParam(np, ts[q].args[a]) ==>
              exists f :: 0 <= f < q && us[f].kind.Bin? && IsFirst(ts, np, f) && us[q].args[a] == ts[f].result
  {
    hide SpineOf, Complete, ReusedPass, Stands, FirstReturn;
    var x := ts[q].args[a];
    ArgumentsStand(ts, np, 1, 0, q, a);
    assert Resolves(ts, np, q, x);
    if IsParam(np, x) {
      LowStands(ts, np, 1, 0, x);
    } else {
      var p :| 0 <= p < q && ts[p].IsValue() && ts[p].result == x;
      StandsIsRep(ts, us, np, p);
    }
  }

  /** Two results become one id exactly when their left spines are equal. */
  lemma {:induction false} MergeExactly(ts: seq<Token>, np: nat, p: nat, q: nat)
    requires WellFormed(ts, np) && NoIdentity(ts) && p < |ts| && q < |ts| && ts[p].kind.Bin? && ts[q].kind.Bin?
    ensures Stands(ts, 1, ts[p].result) == Stands(ts, 1, ts[q].result)
            <==> SpineOf(ts, np, ts[p].result) == SpineOf(ts, np, ts[q].result)
  {
    hide SpineOf, Complete, ReusedPass, Stands, FirstReturn, WellFormed;
    PassMerges(ts, np);
    StandsIsRep(ts, ReusedPass(ts, 1), np, p);
    StandsIsRep(ts, ReusedPass(ts, 1), np, q);
  }

  // ---------- the exact condition ----------

  /** A read id keeps its term through the pass when every survivor before does. */
  lemma {:induction false} ReadKeeps(ts: seq<Token>, us: seq<Token>, np: nat, q: nat, a: nat)
    requires Merged(ts, us, np) && q < |ts| && a < MAX_ARGS && ts[q].args[a] != 0
    requires forall f :: 0 <= f < q && us[f].kind.Bin? ==> TermOf(us, np, us[f].result) == TermOf(ts, np, us[f].result)
    ensures TermOf(us, np, us[q].args[a]) == TermOf(ts, np, Rep(ts, np, ts[q].args[a]))
  {
    hide TermOf, SpineOf, Complete, ReusedPass, Stands, FirstReturn, WellFormed, Rep, IsFirst;
    var x := ts[q].args[a];
    ReadsRep(ts, us, np, q, a);
    if IsParam(np, x) {
      TermOfParam(ts, np, x);
      TermOfParam(us, np, x);
    } else {
      var f :| 0 <= f < q && us[f].kind.Bin? && IsFirst(ts, np, f) && us[q].args[a] == ts[f].result;
      assert us[f].result == ts[f].result;
    }
  }

  lemma {:induction false} BinReads(ts: seq<Token>, np: nat, p: nat)
    requires WellFormed(ts, np) && p < |ts|
    ensures ts[p].kind.Bin? ==> ts[p].args[0] != 0 && ts[p].args[1] != 0
    ensures ts[p].kind.Return? ==> ts[p].args[0] != 0
  {
    assert ArityOk(ts[p]);
  }

  /** The survivor at `p` keeps its term exactly when what it reads does, survivors before keeping theirs. */
  lemma {:induction false} SurvivorKeepsExactly(ts: seq<Token>, us: seq<Token>, np: nat, p: nat)
    requires Merged(ts, us, np) && p < |ts| && us[p].kind.Bin?
    requires forall f :: 0 <= f < p && us[f].kind.Bin? ==> TermOf(us, np, us[f].result) == TermOf(ts, np, us[f].result)
    ensures TermOf(us, np, us[p].result) == TermOf(ts, np, us[p].result)
            <==> SameTerm(ts, np, ts[p].args[0]) && SameTerm(ts, np, ts[p].args[1])
  {
    hide TermOf, SpineOf, Complete, ReusedPass, Stands, FirstReturn, WellFormed, Rep;
    assert us[p].result == ts[p].result && us[p].kind == ts[p].kind;
    BinReads(ts, np, p);
    TermOfToken(ts, np, p);
    TermOfToken(us, np, p);
    ReadKeeps(ts, us, np, p, 0);
    ReadKeeps(ts, us, np, p, 1);
  }

  lemma {:induction false} SurvivorsKeep(ts: seq<Token>, us: seq<Token>, np: nat, n: nat, p: nat)
    requires Merged(ts, us, np) && p <= n <= |ts| && ReadsAgree(ts, np, n)
    ensures forall f :: 0 <= f < p && us[f].kind.Bin? ==> TermOf(us, np, us[f].result) == TermOf(ts, np, us[f].result)
    decreases p
  {
    hide TermOf, SpineOf, Complete, ReusedPass, Stands, FirstReturn, WellFormed, SameTerm, IsFirst, ReadsAgree, Live;
    if p > 0 {
      SurvivorsKeep(ts, us, np, n, p - 1);
      if us[p - 1].kind.Bin? {
        SurvivorAgrees(ts, us, np, n, p - 1);
        SurvivorKeepsExactly(ts, us, np, p - 1);
      }
    }
  }

  lemma {:induction false} SurvivorAgrees(ts: seq<Token>, us: seq<Token>, np: nat, n: nat, p: nat)
    requires Merged(ts, us, np) && p < n <= |ts| && ReadsAgree(ts, np, n) && us[p].kind.Bin?
    ensures SameTerm(ts, np, ts[p].args[0]) && SameTerm(ts, np, ts[p].args[1])
  {
    hide SpineOf, Complete, ReusedPass, Stands, FirstReturn, WellFormed, SameTerm, IsFirst;
    StandsIsRep(ts, us, np, p);
  }

  /** With one argument compared, as the code does, the pass keeps survivors and return below a position
      if and only if the reads below it agree. */
  lemma {:induction false} OneArgumentExact(ts: seq<Token>, np: nat, n: nat)
    requires WellFormed(ts, np) && NoIdentity(ts) && n <= |ts|
    ensures KeepsTo(FREE, ParamTerms(np), ts, ReusedPass(ts, 1), n) <==> ReadsAgree(ts, np, n)
  {
    PassMerges(ts, np);
    var us := ReusedPass(ts, 1);
    if ReadsAgree(ts, np, n) {
      AgreeingKeeps(ts, us, np, n);
    }
    if KeepsTo(FREE, ParamTerms(np), ts, us, n) {
      KeepingAgrees(ts, us, np, n);
    }
  }

  lemma {:induction false} AgreeingKeeps(ts: seq<Token>, us: seq<Token>, np: nat, n: nat)
    requires Merged(ts, us, np) && n <= |ts| && ReadsAgree(ts, np, n)
    ensures KeepsTo(FREE, ParamTerms(np), ts, us, n)
  {
    hide SpineOf, Complete, ReusedPass, Stands, FirstReturn, WellFormed, Rep, ValueOf, Returned;
    SurvivorsKeep(ts, us, np, n, n);
    forall p | 0 <= p < n && us[p].IsValue()
      ensures ts[p].IsValue() && us[p].result == ts[p].result
      ensures ValueOf(FREE, ParamTerms(np), us, us[p].result) == ValueOf(FREE, ParamTerms(np), ts, us[p].result)
    {
      assert us[p].kind.Bin? && TermOf(us, np, us[p].result) == TermOf(ts, np, us[p].result);
    }
    if FirstReturn(ts) < n {
      ReturnKeepsExactly(ts, us, np);
    }
  }

  /** The return keeps its term exactly when what it reads does. */
  lemma {:induction false} ReturnKeepsExactly(ts: seq<Token>, us: seq<Token>, np: nat)
    requires Merged(ts, us, np) && FirstReturn(ts) < |ts|
    requires forall f :: 0 <= f < FirstReturn(ts) && us[f].kind.Bin? ==>
               TermOf(us, np, us[f].result) == TermOf(ts, np, us[f].result)
    ensures Returned(FREE, ParamTerms(np), us) == Returned(FREE, ParamTerms(np), ts)
            <==> SameTerm(ts, np, ts[FirstReturn(ts)].args[0])
  {
    hide SpineOf, Complete, ReusedPass, Stands, FirstReturn, WellFormed, Rep, ValueOf, Returned;
    var r := FirstReturn(ts);
    BinReads(ts, np, r);
    ReadKeeps(ts, us, np, r, 0);
    ReturnedValue(FREE, ParamTerms(np), ts, np);
    ReturnedValue(FREE, ParamTerms(np), us, np);
  }

  lemma {:induction false} KeepingAgrees(ts: seq<Token>, us: seq<Token>, np: nat, n: nat)
    requires Merged(ts, us, np) && n <= |ts| && KeepsTo(FREE, ParamTerms(np), ts, us, n)
    ensures ReadsAgree(ts, np, n)
  {
    hide SpineOf, Complete, ReusedPass, Stands, FirstReturn, WellFormed, Rep, ValueOf, Returned, SameTerm;
    forall f | 0 <= f < n && us[f].kind.Bin?
      ensures TermOf(us, np, us[f].result) == TermOf(ts, np, us[f].result)
    {
      assert us[f].IsValue();
    }
    forall p | 0 <= p < n && IsFirst(ts, np, p)
      ensures SameTerm(ts, np, ts[p].args[0]) && SameTerm(ts, np, ts[p].args[1])
    {
      FirstSurvives(ts, us, np, p);
      SurvivorKeepsExactly(ts, us, np, p);
    }
    if FirstReturn(ts) < n {
      ReturnKeepsExactly(ts, us, np);
    }
  }

  /** Terms decide the values under every choice of operators. */
  lemma {:induction false} OneArgumentKeeps<V>(I: Interp<V>, e: map<nat, V>, ts: seq<Token>, np: nat, n: nat)
    requires WellFormed(ts, np) && NoIdentity(ts) && n <= |ts| && ReadsAgree(ts, np, n) && e.Keys == ParamTerms(np).Keys
    ensures KeepsTo(I, e, ts, ReusedPass(ts, 1), n)
  {
    hide WellFormed, ReusedPass, ReadsAgree, EnvAt, Interpret;
    OneArgumentExact(ts, np, n);
    var us := ReusedPass(ts, 1);
    forall p | 0 <= p < n && us[p].IsValue()
      ensures ValueOf(I, e, us, us[p].result) == ValueOf(I, e, ts, us[p].result)
    {
      TermDecidesValue(I, e, ts, np, |ts|, us[p].result);
      TermDecidesValue(I, e, us, np, |us|, us[p].result);
    }
    ReturnedTerm(I, e, ts, np);
    ReturnedTerm(I, e, us, np);
  }

  /** For the whole function the condition is exact for the meaning. */
  lemma {:induction false} OneArgumentExactWhole(ts: seq<Token>, np: nat)
    requires WellFormed(ts, np) && NoIdentity(ts)
    ensures Keeps(FREE, ParamTerms(np), ts, ReusedPass(ts, 1)) <==> ReadsAgree(ts, np, |ts|)
  {
    hide WellFormed, ReadsAgree, ReusedPass;
    OneArgumentExact(ts, np, |ts|);
    SameFirstReturn(ts);
  }

  // ---------- distinct operators ----------

  /** No two operations of one kind. */
  ghost predicate DistinctKinds(ts: seq<Token>) {
    forall p, q :: 0 <= p < q < |ts| && ts[p].kind.Bin? && ts[q].kind.Bin? ==> ts[p].kind != ts[q].kind
  }

  lemma {:induction false} SpineKind(ts: seq<Token>, np: nat, p: nat, q: nat)
    requires WellFormed(ts, np) && p < |ts| && q < |ts| && ts[p].kind.Bin? && ts[q].kind.Bin?
    requires SpineOf(ts, np, ts[p].result) == SpineOf(ts, np, ts[q].result)
    ensures ts[p].kind == ts[q].kind
  {
    hide WellFormed, ValueOf;
    ValueOfToken(SPINE, ParamTerms(np), ts, np, p);
    ValueOfToken(SPINE, ParamTerms(np), ts, np, q);
  }

  /** Then every id stands for itself, and comparing one argument is enough. */
  lemma {:induction false} DistinctAgree(ts: seq<Token>, np: nat, n: nat)
    requires WellFormed(ts, np) && NoIdentity(ts) && DistinctKinds(ts) && n <= |ts|
    ensures ReadsAgree(ts, np, n)
  {
    hide WellFormed, SpineOf;
    forall p, a | 0 <= p < n && 0 <= a < MAX_ARGS && ts[p].args[a] != 0
      ensures SameTerm(ts, np, ts[p].args[a])
    {
      OwnRep(ts, np, p, ts[p].args[a]);
    }
  }

  lemma {:induction false} OwnRep(ts: seq<Token>, np: nat, p: nat, x: nat)
    requires WellFormed(ts, np) && NoIdentity(ts) && DistinctKinds(ts) && p < |ts| && x in ts[p].args && x != 0
    ensures Rep(ts, np, x) == x
  {
    hide SpineOf;
    var a :| 0 <= a < MAX_ARGS && ts[p].args[a] == x;
    assert Resolves(ts, np, p, x);
    var f := FirstWith(ts, np, SpineOf(ts, np, x));
    if x >= FIRST_TEMPORAL && f < |ts| {
      var q :| 0 <= q < p && ts[q].IsValue() && ts[q].result == x;
      SpineKind(ts, np, f, q);
    }
  }
}

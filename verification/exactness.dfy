/** Meanings as uninterpreted terms, and exactly when comparing one argument is enough. */
module Exactness {
  import opened Ssa
  import opened Optimise

  datatype Term = Param(id: nat) | Apply(op: BinOp, left: Term, right: Term) | Junk

  const FREE: Interp<Term> := Interp((op: BinOp, l: Term, r: Term) => Apply(op, l, r), Junk)

  function ParamTerms(np: nat): map<nat, Term> {
    map x | ParamId(0) <= x < ParamId(np) :: Param(x)
  }

  function TermOf(ts: seq<Token>, np: nat, x: nat): Term {
    ValueOf(FREE, ParamTerms(np), ts, x)
  }

  /** The value a term takes under a choice of operators and parameters. */
  function Interpret<V>(I: Interp<V>, e: map<nat, V>, t: Term): V {
    match t
    case Param(x) => Get(I, e, x)
    case Apply(op, l, r) => I.op(op, Interpret(I, e, l), Interpret(I, e, r))
    case Junk => I.undef
  }

  /** The term of an id determines its value under every interpretation. */
  lemma {:induction false} TermDecidesValue<V>(I: Interp<V>, e: map<nat, V>, ts: seq<Token>, np: nat, q: nat, x: nat)
    requires q <= |ts| && e.Keys == ParamTerms(np).Keys
    ensures Get(I, EnvAt(I, e, ts, q), x) == Interpret(I, e, Get(FREE, EnvAt(FREE, ParamTerms(np), ts, q), x))
    decreases q
  {
    if q > 0 {
      var t := ts[q - 1];
      TermDecidesValue(I, e, ts, np, q - 1, x);
      TermDecidesValue(I, e, ts, np, q - 1, t.args[0]);
      TermDecidesValue(I, e, ts, np, q - 1, t.args[1]);
    }
  }

  lemma {:induction false} ReturnedTerm<V>(I: Interp<V>, e: map<nat, V>, ts: seq<Token>, np: nat)
    requires e.Keys == ParamTerms(np).Keys
    ensures Returned(I, e, ts) == Interpret(I, e, Returned(FREE, ParamTerms(np), ts))
  {
    var p := FirstReturn(ts);
    if p < |ts| {
      TermDecidesValue(I, e, ts, np, p, ts[p].args[0]);
    }
  }

  /** The term of a live token is its operator over its arguments' terms. */
  lemma {:induction false} TermOfToken(ts: seq<Token>, np: nat, p: nat)
    requires WellFormed(ts, np) && p < |ts| && ts[p].kind.Bin?
    ensures TermOf(ts, np, ts[p].result)
            == Apply(ts[p].kind.op, TermOf(ts, np, ts[p].args[0]), TermOf(ts, np, ts[p].args[1]))
    ensures forall a :: 0 <= a < 2 ==>
              TermOf(ts, np, ts[p].args[a]) == Get(FREE, EnvAt(FREE, ParamTerms(np), ts, p), ts[p].args[a])
  {
    var e := ParamTerms(np);
    forall a | 0 <= a < 2
      ensures TermOf(ts, np, ts[p].args[a]) == Get(FREE, EnvAt(FREE, e, ts, p), ts[p].args[a])
    {
      assert Resolves(ts, np, p, ts[p].args[a]);
      NotAssignedLater(ts, np, p, ts[p].args[a]);
      Stable(FREE, e, ts, p, |ts|, ts[p].args[a]);
    }
    Stable(FREE, e, ts, p + 1, |ts|, ts[p].result);
  }

  lemma {:induction false} TermOfParam(ts: seq<Token>, np: nat, x: nat)
    requires WellFormed(ts, np) && IsParam(np, x)
    ensures TermOf(ts, np, x) == Param(x)
  {
    Stable(FREE, ParamTerms(np), ts, 0, |ts|, x);
  }

  /** In a completely merged function two ids with the same term are the same id, whatever
      number of arguments was compared: merging is full common-subexpression elimination. */
  lemma {:induction false} DistinctIdsDistinctTerms(ts: seq<Token>, np: nat, k: nat, p: nat, x: nat, y: nat)
    requires WellFormed(ts, np) && NoIdentity(ts) && 1 <= k <= MAX_ARGS && Complete(ts, k)
    requires p <= |ts| && Resolves(ts, np, p, x) && Resolves(ts, np, p, y)
    requires TermOf(ts, np, x) == TermOf(ts, np, y)
    ensures x == y
    decreases p
  {
    hide TermOf, Matches, WellFormed;
    if IsParam(np, x) {
      TermOfParam(ts, np, x);
    }
    if IsParam(np, y) {
      TermOfParam(ts, np, y);
    }
    if DefinedBefore(ts, p, x) {
      var m :| 0 <= m < p && ts[m].IsValue() && ts[m].result == x;
      TermOfToken(ts, np, m);
    }
    if DefinedBefore(ts, p, y) {
      var n :| 0 <= n < p && ts[n].IsValue() && ts[n].result == y;
      TermOfToken(ts, np, n);
    }
    if DefinedBefore(ts, p, x) && DefinedBefore(ts, p, y) {
      var m :| 0 <= m < p && ts[m].IsValue() && ts[m].result == x;
      var n :| 0 <= n < p && ts[n].IsValue() && ts[n].result == y;
      TermOfToken(ts, np, m);
      TermOfToken(ts, np, n);
      ArgumentsResolve(ts, np, m, p - 1);
      ArgumentsResolve(ts, np, n, p - 1);
      DistinctIdsDistinctTerms(ts, np, k, p - 1, ts[m].args[0], ts[n].args[0]);
      DistinctIdsDistinctTerms(ts, np, k, p - 1, ts[m].args[1], ts[n].args[1]);
      AllArities(ts, np);
      SameSlots(ts[m], ts[n], k);
    }
  }

  lemma {:induction false} AllArities(ts: seq<Token>, np: nat)
    requires WellFormed(ts, np)
    ensures forall p :: 0 <= p < |ts| ==> ArityOk(ts[p])
  {
  }

  lemma {:induction false} SameSlots(t: Token, u: Token, k: nat)
    requires k <= MAX_ARGS && ArityOk(t) && ArityOk(u) && t.kind.Bin? && u.kind == t.kind
    requires t.args[0] == u.args[0] && t.args[1] == u.args[1]
    ensures Matches(t, u, k) && Matches(u, t, k)
  {
    assert t.args == u.args;
  }

  lemma {:induction false} ArgumentsResolve(ts: seq<Token>, np: nat, p: nat, q: nat)
    requires WellFormed(ts, np) && p < |ts| && ts[p].kind.Bin? && p <= q <= |ts|
    ensures Resolves(ts, np, q, ts[p].args[0]) && Resolves(ts, np, q, ts[p].args[1])
  {
    assert Resolves(ts, np, p, ts[p].args[0]) && Resolves(ts, np, p, ts[p].args[1]);
  }

  /** Every id is replaced by one of the same meaning. */
  ghost predicate MergesSoundly(ts: seq<Token>, np: nat, k: nat)
    requires k <= MAX_ARGS
  {
    forall p :: 0 <= p < |ts| && ts[p].IsValue() ==>
      TermOf(ReusedPass(ts, k), np, Stands(ts, k, ts[p].result)) == TermOf(ts, np, ts[p].result)
  }

  /** No two tokens of the function compute `l op r` and `l op s` with different `r` and `s`. */
  ghost predicate LeftDecidesRight(ts: seq<Token>, np: nat) {
    forall p, q :: 0 <= p < q < |ts| && ts[p].kind.Bin? && ts[q].kind == ts[p].kind
      && TermOf(ts, np, ts[p].args[0]) == TermOf(ts, np, ts[q].args[0])
      ==> TermOf(ts, np, ts[p].args[1]) == TermOf(ts, np, ts[q].args[1])
  }

  lemma {:induction false} LeftDecidesRightIsNoClash(ts: seq<Token>, np: nat)
    requires WellFormed(ts, np)
    ensures LeftDecidesRight(ts, np) <==> NoClash(FREE, ParamTerms(np), ts)
  {
    hide TermOf, WellFormed;
    forall p, q | 0 <= p < q < |ts| && ts[p].kind.Bin? && ts[q].kind == ts[p].kind
      ensures Clash(FREE, ParamTerms(np), ts, p, q) <==>
                && TermOf(ts, np, ts[p].args[0]) == TermOf(ts, np, ts[q].args[0])
                && TermOf(ts, np, ts[p].args[1]) != TermOf(ts, np, ts[q].args[1])
    {
      TermOfToken(ts, np, p);
      TermOfToken(ts, np, q);
    }
    if LeftDecidesRight(ts, np) {
      forall p, q | 0 <= p < q < |ts|
        ensures !Clash(FREE, ParamTerms(np), ts, p, q)
      {
      }
    }
    if NoClash(FREE, ParamTerms(np), ts) {
      forall p, q | 0 <= p < q < |ts| && ts[p].kind.Bin? && ts[q].kind == ts[p].kind
        && TermOf(ts, np, ts[p].args[0]) == TermOf(ts, np, ts[q].args[0])
        ensures TermOf(ts, np, ts[p].args[1]) == TermOf(ts, np, ts[q].args[1])
      {
        assert !Clash(FREE, ParamTerms(np), ts, p, q);
      }
    }
  }

  /** With one argument compared every id keeps its meaning exactly when, in the function given, a
      left operand never meets two different right operands under one operator. */
  lemma {:induction false} EveryIdExact(ts: seq<Token>, np: nat)
    requires WellFormed(ts, np) && NoIdentity(ts)
    ensures MergesSoundly(ts, np, 1) <==> LeftDecidesRight(ts, np)
  {
    hide TermOf, WellFormed;
    LeftDecidesRightIsNoClash(ts, np);
    if LeftDecidesRight(ts, np) {
      ReusedPassSound(FREE, ParamTerms(np), ts, np, 1, 0);
      forall p | 0 <= p < |ts| && ts[p].IsValue()
        ensures TermOf(ReusedPass(ts, 1), np, Stands(ts, 1, ts[p].result)) == TermOf(ts, np, ts[p].result)
      {
        assert Live(ts, ts[p].result);
        SoundAt(ts, np, 1, ts[p].result);
      }
    }
    if MergesSoundly(ts, np, 1) {
      forall p, q | 0 <= p < q < |ts| && ts[p].kind.Bin? && ts[q].kind == ts[p].kind
        && TermOf(ts, np, ts[p].args[0]) == TermOf(ts, np, ts[q].args[0])
        ensures TermOf(ts, np, ts[p].args[1]) == TermOf(ts, np, ts[q].args[1])
      {
        SoundMergesForceRight(ts, np, p, q);
      }
    }
  }

  lemma {:induction false} SoundAt(ts: seq<Token>, np: nat, k: nat, x: nat)
    requires k <= MAX_ARGS
    requires ValueOf(FREE, ParamTerms(np), ReusedPass(ts, k), Stands(ts, k, x)) == ValueOf(FREE, ParamTerms(np), ts, x)
    ensures TermOf(ReusedPass(ts, k), np, Stands(ts, k, x)) == TermOf(ts, np, x)
  {
  }

  /** With one compared argument, `l op r` and `l op s` end up as one id, so they must mean the same. */
  lemma {:induction false} SoundMergesForceRight(ts: seq<Token>, np: nat, p: nat, q: nat)
    requires WellFormed(ts, np) && NoIdentity(ts) && MergesSoundly(ts, np, 1)
    requires 0 <= p < q < |ts| && ts[p].kind.Bin? && ts[q].kind == ts[p].kind
    requires TermOf(ts, np, ts[p].args[0]) == TermOf(ts, np, ts[q].args[0])
    ensures TermOf(ts, np, ts[p].args[1]) == TermOf(ts, np, ts[q].args[1])
  {
    hide TermOf, Stands, ReusedPass, Matches;
    var us := ReusedPass(ts, 1);
    ReusedPassComplete(ts, np, 1, 0);
    ReusedPassNoNewIdentity(ts, 1, 0);
    StandsLive(ts, np, 1, 0);
    var m := LiveAt(us, Stands(ts, 1, ts[p].result), ts, p);
    var n := LiveAt(us, Stands(ts, 1, ts[q].result), ts, q);
    TermOfToken(ts, np, p);
    TermOfToken(ts, np, q);
    TermOfToken(us, np, m);
    TermOfToken(us, np, n);
    ArgumentsResolve(us, np, m, |us|);
    ArgumentsResolve(us, np, n, |us|);
    DistinctIdsDistinctTerms(us, np, 1, |us|, us[m].args[0], us[n].args[0]);
    FirstSlotMatches(us[m], us[n]);
    assert m == n;
  }

  lemma {:induction false} FirstSlotMatches(t: Token, u: Token)
    requires t.kind == u.kind && t.args[0] == u.args[0]
    ensures Matches(t, u, 1) && Matches(u, t, 1)
  {
    assert t.args[..1] == [t.args[0]] && u.args[..1] == [u.args[0]];
  }

  lemma {:induction false} LiveAt(us: seq<Token>, x: nat, ts: seq<Token>, p: nat) returns (m: nat)
    requires p < |ts| && ts[p].IsValue()
    requires Live(us, x)
    ensures m < |us| && us[m].IsValue() && us[m].result == x
  {
    m :| 0 <= m < |us| && us[m].IsValue() && us[m].result == x;
  }

  lemma {:induction false} MergeRowShape(ts: seq<Token>, i: nat, j: nat, k: nat)
    requires i < j <= |ts| && k <= MAX_ARGS
    ensures forall p :: 0 <= p < |ts| ==>
              var t := MergeRow(ts, i, j, k)[p]; t.result == ts[p].result && (t.kind == ts[p].kind || t.kind.Erased?)
    decreases |ts| - j
  {
    if j < |ts| {
      RedirectKeepsShape(ts, j, ts[i].result);
      MergeRowShape(if Matches(ts[i], ts[j], k) then Redirect(ts, j, ts[i].result) else ts, i, j + 1, k);
    }
  }

  lemma {:induction false} ReusedPassNoNewIdentity(ts: seq<Token>, k: nat, i: nat)
    requires i <= |ts| && k <= MAX_ARGS
    ensures forall p :: 0 <= p < |ts| ==>
              var t := ReusedPass(ts, k, i)[p]; t.result == ts[p].result && (t.kind == ts[p].kind || t.kind.Erased?)
    decreases |ts| - i
  {
    if i < |ts| {
      MergeRowShape(ts, i, i + 1, k);
      ReusedPassNoNewIdentity(MergeRow(ts, i, i + 1, k), k, i + 1);
    }
  }

  /** What stands for a live id is live, whether or not the merges are sound. */
  lemma {:induction false} StandsLive(ts: seq<Token>, np: nat, k: nat, i: nat)
    requires WellFormed(ts, np) && i <= |ts| && 1 <= k <= MAX_ARGS
    ensures forall x :: Live(ts, x) ==> Live(ReusedPass(ts, k, i), Stands(ts, k, x, i))
    decreases |ts| - i
  {
    hide Live;
    if i < |ts| {
      StandsRowLive(ts, np, i, i + 1, k);
      StandsLive(MergeRow(ts, i, i + 1, k), np, k, i + 1);
    }
  }

  lemma {:induction false} StandsRowLive(ts: seq<Token>, np: nat, i: nat, j: nat, k: nat)
    requires WellFormed(ts, np) && i < j <= |ts| && 1 <= k <= MAX_ARGS
    ensures WellFormed(MergeRow(ts, i, j, k), np)
    ensures forall x :: Live(ts, x) ==> Live(MergeRow(ts, i, j, k), StandsRow(ts, i, j, k, x))
    decreases |ts| - j
  {
    hide Live, Redirect, WellFormed;
    if j < |ts| {
      if Matches(ts[i], ts[j], k) {
        RedirectKeepsShape(ts, j, ts[i].result);
        MergeWellFormed(ts, np, i, j);
        MergeKeepsLive(ts, np, i, j);
        StandsRowLive(Redirect(ts, j, ts[i].result), np, i, j + 1, k);
      } else {
        StandsRowLive(ts, np, i, j + 1, k);
      }
    }
  }

  /** `(a + b) * (a + c)`: the one-argument pass turns it into `(a + b) * (a + b)`. */
  const SAME_LEFT: seq<Token> := [
    Token(Bin(Add), 33, [2, 3, 0, 0, 0, 0, 0, 0]),
    Token(Bin(Add), 34, [2, 4, 0, 0, 0, 0, 0, 0]),
    Token(Bin(Mul), 35, [33, 34, 0, 0, 0, 0, 0, 0]),
    Token(Return, 36, [35, 0, 0, 0, 0, 0, 0, 0])]

  lemma {:induction false} OneArgumentLosesMeaning()
    ensures WellFormed(SAME_LEFT, 3) && NoIdentity(SAME_LEFT)
    ensures Returned(FREE, ParamTerms(3), SAME_LEFT)
            == Apply(Mul, Apply(Add, Param(2), Param(3)), Apply(Add, Param(2), Param(4)))
    ensures Returned(FREE, ParamTerms(3), ReusedPass(SAME_LEFT, 1))
            == Apply(Mul, Apply(Add, Param(2), Param(3)), Apply(Add, Param(2), Param(3)))
  {
    hide TermOf, WellFormed, Redirect, ReusedPass;
    var ts := SAME_LEFT;
    var us := Redirect(ts, 1, 33);
    ExampleWellFormed();
    RowsOfExample();
    ExampleMerged();
    FirstReturnIs(ts, 3);
    FirstReturnIs(us, 3);
    ExampleTerms(ts);
    ExampleTerms(us);
    TermOfToken(ts, 3, 1);
    TermOfParam(ts, 3, 4);
  }

  lemma {:induction false} ExampleTerms(ts: seq<Token>)
    requires WellFormed(ts, 3) && |ts| == 4 && ts[0] == SAME_LEFT[0] && FirstReturn(ts) == 3
    requires ts[2].kind == Bin(Mul) && ts[2].result == 35 && ts[3].args[0] == 35
    ensures Returned(FREE, ParamTerms(3), ts)
            == Apply(Mul, TermOf(ts, 3, ts[2].args[0]), TermOf(ts, 3, ts[2].args[1]))
    ensures TermOf(ts, 3, 33) == Apply(Add, Param(2), Param(3)) && TermOf(ts, 3, 2) == Param(2)
  {
    TermOfToken(ts, 3, 0);
    TermOfToken(ts, 3, 2);
    TermOfParam(ts, 3, 2);
    TermOfParam(ts, 3, 3);
    Stable(FREE, ParamTerms(3), ts, 3, 4, 35);
  }

  lemma {:induction false} ExampleWellFormed()
    ensures WellFormed(SAME_LEFT, 3)
  {
    FourTokensWellFormed(SAME_LEFT, Bin(Add), Bin(Add), Bin(Mul));
  }

  lemma {:induction false} FourTokensWellFormed(ts: seq<Token>, k: Kind, l: Kind, m: Kind)
    requires |ts| == 4 && k.Bin? && l.Bin? && m.Bin?
    requires ts[0] == Token(k, 33, [2, 3, 0, 0, 0, 0, 0, 0]) && ts[1] == Token(l, 34, [2, 4, 0, 0, 0, 0, 0, 0])
    requires ts[2] == Token(m, 35, [33, 34, 0, 0, 0, 0, 0, 0])
    requires ts[3] == Token(Return, 36, [35, 0, 0, 0, 0, 0, 0, 0])
    ensures WellFormed(ts, 3)
  {
    forall p | 0 <= p < 4
      ensures ts[p].result == 33 + p && ArityOk(ts[p])
    {
    }
    assert ts[0].IsValue() && ts[1].IsValue() && ts[2].IsValue();
    assert DefinedBefore(ts, 2, 33) && DefinedBefore(ts, 2, 34) && DefinedBefore(ts, 3, 35);
    forall p, a | 0 <= p < |ts| && 0 <= a < MAX_ARGS && ts[p].args[a] != 0
      ensures Resolves(ts, 3, p, ts[p].args[a])
    {
      assert ArityOk(ts[p]);
      assert a == 0 || a == 1;
    }
  }

  lemma {:induction false} ExampleMerged()
    ensures var us := Redirect(SAME_LEFT, 1, 33);
      && WellFormed(us, 3) && |us| == 4 && us[0] == SAME_LEFT[0]
      && us[1].kind.Erased? && us[2] == Token(Bin(Mul), 35, [33, 33, 0, 0, 0, 0, 0, 0]) && us[3] == SAME_LEFT[3]
  {
    hide WellFormed;
    var ts := SAME_LEFT;
    ExampleWellFormed();
    assert Resolves(ts, 3, 1, 33) by {
      assert ts[0].IsValue() && ts[0].result == 33;
    }
    RedirectKeepsShape(ts, 1, 33);
    RedirectWellFormed(ts, 3, 1, 33);
    var us := Redirect(ts, 1, 33);
    assert us[2].args == [33, 33, 0, 0, 0, 0, 0, 0];
    assert us[3].args == [35, 0, 0, 0, 0, 0, 0, 0];
  }

  lemma {:induction false} RowsOfExample()
    ensures ReusedPass(SAME_LEFT, 1) == Redirect(SAME_LEFT, 1, 33)
  {
    var ts := SAME_LEFT;
    var us := Redirect(ts, 1, 33);
    RedirectKeepsShape(ts, 1, 33);
    assert ts[0].args[..1] == [2] == ts[1].args[..1];
    assert MergeRow(us, 0, 4, 1) == us;
    assert MergeRow(us, 0, 3, 1) == us;
    assert MergeRow(us, 0, 2, 1) == us;
    assert MergeRow(ts, 0, 1, 1) == us;
    assert MergeRow(us, 1, 4, 1) == us && MergeRow(us, 2, 4, 1) == us;
    assert MergeRow(us, 1, 3, 1) == us && MergeRow(us, 2, 3, 1) == us;
    assert MergeRow(us, 1, 2, 1) == us && MergeRow(us, 3, 4, 1) == us;
    assert ReusedPass(us, 1, 4) == us;
    assert ReusedPass(us, 1, 3) == us;
    assert ReusedPass(us, 1, 2) == us;
    assert ReusedPass(us, 1, 1) == us;
  }
}

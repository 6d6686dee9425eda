/** From the syntax tree of a function body to register code, and what running it returns. */
module Compiler {
  import opened Options
  import opened Ssa
  import opened Optimise
  import opened Exactness
  import opened Spines
  import opened Passes
  import opened Ast
  import opened Emission
  import L = Lower
  import Lowering

  lemma {:induction false} MoreParams(ts: seq<Token>, np: nat, np': nat)
    requires WellFormed(ts, np) && np <= np' <= 30
    ensures WellFormed(ts, np')
  {
    forall p, a | 0 <= p < |ts| && 0 <= a < MAX_ARGS && ts[p].args[a] != 0
      ensures Resolves(ts, np', p, ts[p].args[a])
    {
      assert Resolves(ts, np, p, ts[p].args[a]);
    }
  }

  ghost predicate LastIsReturn(ts: seq<Token>) {
    ts == [] || ts[|ts| - 1].kind.Return?
  }

  lemma {:induction false} EmitBodyLast(t: Tree, params: seq<string>, id: nat)
    requires IsBody(t, params) && Emit(t, params, id).Some?
    ensures LastIsReturn(Emit(t, params, id).value.tokens)
    decreases t
  {
    if t.kind.Block? {
      EmitBodiesLast(t.kids, params, id + 1);
    }
  }

  lemma {:induction false} EmitBodiesLast(ts: seq<Tree>, params: seq<string>, id: nat)
    requires forall i :: 0 <= i < |ts| ==> IsBody(ts[i], params)
    requires EmitAll(ts, params, id).Some?
    ensures LastIsReturn(EmitAll(ts, params, id).value.tokens)
    decreases ts
  {
    if ts != [] {
      EmitBodyLast(ts[0], params, id);
      EmitBodiesLast(ts[1..], params, Emit(ts[0], params, id).value.next);
    }
  }

  lemma {:induction false} OptimisedKinds(ts: seq<Token>, compared: nat)
    requires compared <= MAX_ARGS
    ensures |Optimised(ts, compared)| == |ts|
    ensures forall p :: 0 <= p < |ts| ==>
              Optimised(ts, compared)[p].kind == ts[p].kind || Optimised(ts, compared)[p].kind.Erased?
  {
    IdentityPassShape(ts, 0);
    ReusedPassNoNewIdentity(IdentityPass(ts), compared, 0);
  }

  /** The tokens a body is lowered from. */
  function Frontend(t: Tree, params: seq<string>, compared: nat): Option<seq<Token>>
    requires compared <= MAX_ARGS
  {
    var em := Emit(t, params, FIRST_TEMPORAL);
    if em.None? then None else Some(Optimised(em.value.tokens, compared))
  }

  /** What the compiler is given: a body over at most four parameters that returns, and a
      comparison wide enough for it. */
  ghost predicate Compilable(t: Tree, params: seq<string>, compared: nat) {
    && IsBody(t, params) && |params| <= 4 && FirstReturned(t).Some? && compared <= MAX_ARGS
    && Emit(t, params, FIRST_TEMPORAL).Some?
    && ComparesEnough(Emit(t, params, FIRST_TEMPORAL).value.tokens, 4, compared)
  }

  /** The front end yields tokens fit for lowering that return what the source returns. */
  lemma {:induction false} FrontendCorrect<V>(I: Interp<V>, e: map<nat, V>, t: Tree, params: seq<string>, compared: nat)
    requires Compilable(t, params, compared) && e.Keys == ParamTerms(4).Keys
    ensures var ts := Frontend(t, params, compared);
      && ts.Some? && WellFormed(ts.value, 4) && NoIdentity(ts.value) && L.EndsInReturn(ts.value)
      && FirstReturn(ts.value) < |ts.value| && IsExpr(FirstReturned(t).value, params)
      && Returned(I, e, ts.value) == EvalExpr(I, e, params, FirstReturned(t).value)
  {
    hide WellFormed, ComparesEnough, Keeps, KeepsTo, EvalExpr, Returned, IsBody, FirstReturned, Complete;
    var em := Emit(t, params, FIRST_TEMPORAL).value;
    var ts := Optimised(em.tokens, compared);
    EmitBodyShape(t, params, FIRST_TEMPORAL);
    EmitBodyValue(I, e, t, params, FIRST_TEMPORAL);
    EmitBodyLast(t, params, FIRST_TEMPORAL);
    MoreParams(em.tokens, |params|, 4);
    EnoughIsEnough(em.tokens, compared);
    OptimisedCorrect(I, e, em.tokens, 4, compared);
    OptimisedKinds(em.tokens, compared);
    ReturnSurvives(em.tokens, compared);
    KeepsReturned(I, e, em.tokens, ts);
  }

  lemma {:induction false} EnoughIsEnough(ts: seq<Token>, compared: nat)
    requires ComparesEnough(ts, 4, compared)
    ensures 1 <= compared <= MAX_ARGS
  {
  }

  lemma {:induction false} KeepsReturned<V>(I: Interp<V>, e: map<nat, V>, ts: seq<Token>, us: seq<Token>)
    requires KeepsTo(I, e, ts, us, Reach(ts)) && FirstReturn(ts) < |ts|
    ensures Returned(I, e, us) == Returned(I, e, ts)
  {
  }

  /** The first return is never merged away. */
  lemma {:induction false} ReturnSurvives(ts: seq<Token>, compared: nat)
    requires compared <= MAX_ARGS
    ensures FirstReturn(Optimised(ts, compared)) == FirstReturn(ts)
  {
    var r := FirstReturn(ts);
    IdentityPassShape(ts, 0);
    var mid := IdentityPass(ts);
    OptimisedKinds(ts, compared);
    if r < |ts| {
      MergeNeverErasesFirst(mid, compared, 0, r);
    }
    FirstReturnIs(Optimised(ts, compared), r);
  }

  /** Running `code` up to its first `ret` leaves `v` in register `r`. */
  ghost predicate RunsTo<V>(I: Interp<V>, regs: seq<V>, code: seq<L.Code>, r: nat, v: V) {
    |regs| == L.SPILL && r < L.SPILL
    && exists n :: 0 <= n < |code| && code[n].Ret? && (forall i :: 0 <= i < n ==> code[i].Op?) && L.Named(code, n)
                   && L.RunTo(I, regs, code, n)[r] == v
  }

  /** End to end: emitting, optimising, allocating and running a body leaves the value of the
      source in the register the allocator gives for the returned id. */
  lemma {:induction false} CompiledCorrect<V>(I: Interp<V>, e: map<nat, V>, t: Tree, params: seq<string>, compared: nat,
                           fixed: L.Policy, regs: seq<V>) returns (r: nat)
    requires Compilable(t, params, compared) && e.Keys == ParamTerms(4).Keys
    requires L.CoversAbi(fixed) && L.StartsWith(I, e, regs)
    requires Frontend(t, params, compared).Some? && L.FitsRegisters(Frontend(t, params, compared).value, fixed)
    ensures var ts := Frontend(t, params, compared).value;
      var st := L.LowerTo(ts, fixed, FirstReturn(ts));
      && st.Some? && FirstReturn(ts) < |ts| && L.FindUsed(st.value.info, ts[FirstReturn(ts)].args[0]) == Some(r)
      && IsExpr(FirstReturned(t).value, params)
      && RunsTo(I, regs, L.LowerTo(ts, fixed, |ts|).value.code, r, EvalExpr(I, e, params, FirstReturned(t).value))
  {
    FrontendCorrect(I, e, t, params, compared);
    r := L.LoweredReturns(I, e, Frontend(t, params, compared).value, fixed, regs);
  }

  /** The three stages in the order the compiler runs them, on the arena and a shared array. */
  method CompileFunc(g: Graph, n: nat, ghost t: Tree, params: seq<string>, compared: nat, fixed: L.Policy)
      returns (code: Option<seq<L.Code>>)
    requires Unfolds(g, n, t) && compared <= MAX_ARGS
    ensures var ts := Frontend(t, params, compared);
      if ts.Some? && L.LowerTo(ts.value, fixed, |ts.value|).Some?
      then code == Some(L.LowerTo(ts.value, fixed, |ts.value|).value.code)
      else code == None
  {
    hide Unfolds, Emit, Optimised, L.LowerTo;
    var emitter := new Emitter(params, []);
    var res := emitter.EmitNode(g, n, t);
    if res.None? {
      return None;
    }
    var emitted := emitter.tokens;
    var tokens := new Token[|emitted|](i requires 0 <= i < |emitted| => emitted[i]);
    assert Window(tokens, 0, |emitted|) == emitted;
    OptimiseFunc(tokens, 0, |emitted|, compared);
    assert tokens[0..|emitted|] == Window(tokens, 0, |emitted|);
    var asm := new Lowering.AsmState();
    var ok := asm.LowerFunc(tokens, 0, |emitted|, fixed);
    OptimisedKinds(emitted, compared);
    if !ok {
      return None;
    }
    return Some(asm.out);
  }
}

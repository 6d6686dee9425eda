/** Emission: a tree becomes tokens, ids handed out in preorder, tokens pushed in postorder. */
module Emission {
  import opened Options
  import opened Ssa
  import opened Ast

  /** The tokens pushed for a node, the id it yields (0 for none), and the next free id. */
  datatype Emitted = Emitted(tokens: seq<Token>, result: nat, next: nat)

  /** The first parameter of that name; the compiler aborts when there is none. */
  function ParamIndex(params: seq<string>, name: string): (r: Option<nat>)
    ensures r.Some? ==> r.value < |params| && params[r.value] == name
    ensures r.Some? ==> forall i :: 0 <= i < r.value ==> params[i] != name
    ensures r.None? ==> name !in params
  {
    if params == [] then None
    else if params[0] == name then Some(0)
    else
      var r := ParamIndex(params[1..], name);
      if r.None? then None else Some(r.value + 1)
  }

  function OneArg(a: nat): Args {
    [a, 0, 0, 0, 0, 0, 0, 0]
  }

  function TwoArgs(a: nat, b: nat): Args {
    [a, b, 0, 0, 0, 0, 0, 0]
  }

  /** What emission does to a node, `None` standing for an abort. */
  function Emit(t: Tree, params: seq<string>, id: nat): Option<Emitted>
    decreases t
  {
    match t.kind
    case RefVar(name) =>
      var n := ParamIndex(params, name);
      if n.None? then None
      else Some(Emitted([Token(Identity, id, OneArg(ParamId(n.value)))], id, id + 1))
    case Block => EmitAll(t.kids, params, id + 1)
    case NewType => EmitAll(t.kids, params, id + 1)
    case NewVar(_) => EmitAll(t.kids, params, id + 1)
    case If => EmitAll(t.kids, params, id + 1)
    case Return =>
      if |t.kids| != 1 then None
      else
        var v := Emit(t.kids[0], params, id + 1);
        if v.None? then None
        else Some(Emitted(v.value.tokens + [Token(Ssa.Return, id, OneArg(v.value.result))], id, v.value.next))
    case Binop(b) =>
      if |t.kids| != 2 then None
      else
        var l := Emit(t.kids[0], params, id + 1);
        if l.None? then None
        else
          var r := Emit(t.kids[1], params, l.value.next);
          if r.None? || !b.Arith? then None
          else
            var tok := Token(Bin(b.op), id, TwoArgs(l.value.result, r.value.result));
            Some(Emitted(l.value.tokens + r.value.tokens + [tok], id, r.value.next))
    case _ => Some(Emitted([], 0, id + 1))
  }

  /** Emission of a list of nodes, whose ids are dropped. */
  function EmitAll(ts: seq<Tree>, params: seq<string>, id: nat): (r: Option<Emitted>)
    ensures r.Some? ==> r.value.result == 0
    decreases ts
  {
    if ts == [] then Some(Emitted([], 0, id))
    else
      var h := Emit(ts[0], params, id);
      if h.None? then None
      else
        var m := EmitAll(ts[1..], params, h.value.next);
        if m.None? then None else Some(Emitted(h.value.tokens + m.value.tokens, 0, m.value.next))
  }

  function NodeCount(t: Tree): nat
    decreases t
  {
    1 + NodeCounts(t.kids)
  }

  function NodeCounts(ts: seq<Tree>): nat
    decreases ts
  {
    if ts == [] then 0 else NodeCount(ts[0]) + NodeCounts(ts[1..])
  }

  // ---------- the sources the emitter gives a meaning ----------

  /** An expression over the parameters and the ten operators. */
  predicate IsExpr(t: Tree, params: seq<string>)
    decreases t
  {
    match t.kind
    case RefVar(name) => t.kids == [] && name in params
    case Binop(b) => b.Arith? && |t.kids| == 2 && IsExpr(t.kids[0], params) && IsExpr(t.kids[1], params)
    case _ => false
  }

  function EvalExpr<V>(I: Interp<V>, e: map<nat, V>, params: seq<string>, t: Tree): V
    requires IsExpr(t, params)
    decreases t
  {
    match t.kind
    case RefVar(name) => Get(I, e, ParamId(ParamIndex(params, name).value))
    case Binop(b) => I.op(b.op, EvalExpr(I, e, params, t.kids[0]), EvalExpr(I, e, params, t.kids[1]))
  }

  /** A function body: returns of expressions, in blocks. */
  predicate IsBody(t: Tree, params: seq<string>)
    decreases t
  {
    match t.kind
    case Return => |t.kids| == 1 && IsExpr(t.kids[0], params)
    case Block => forall i :: 0 <= i < |t.kids| ==> IsBody(t.kids[i], params)
    case _ => false
  }

  /** The expression of the return that runs first. */
  function FirstReturned(t: Tree): Option<Tree>
    decreases t
  {
    match t.kind
    case Return => if |t.kids| == 1 then Some(t.kids[0]) else None
    case Block => FirstReturnedOf(t.kids)
    case _ => None
  }

  function FirstReturnedOf(ts: seq<Tree>): Option<Tree>
    decreases ts
  {
    if ts == [] then None
    else if FirstReturned(ts[0]).Some? then FirstReturned(ts[0])
    else FirstReturnedOf(ts[1..])
  }

  // ---------- joining token lists ----------

  ghost predicate ResultsIn(ts: seq<Token>, lo: nat, hi: nat) {
    forall p :: 0 <= p < |ts| ==> lo <= ts[p].result < hi
  }

  lemma {:induction false} JoinWellFormed(a: seq<Token>, b: seq<Token>, np: nat, lo: nat, mid: nat, hi: nat)
    requires WellFormed(a, np) && WellFormed(b, np) && ResultsIn(a, lo, mid) && ResultsIn(b, mid, hi)
    requires lo <= mid <= hi
    ensures WellFormed(a + b, np) && ResultsIn(a + b, lo, hi)
  {
    var c := a + b;
    forall p, s | 0 <= p < |c| && 0 <= s < MAX_ARGS && c[p].args[s] != 0
      ensures Resolves(c, np, p, c[p].args[s])
    {
      var x := c[p].args[s];
      if p < |a| {
        assert Resolves(a, np, p, x);
        if !IsParam(np, x) {
          var q :| 0 <= q < p && a[q].IsValue() && a[q].result == x;
          assert c[q] == a[q];
        }
      } else {
        assert Resolves(b, np, p - |a|, x);
        if !IsParam(np, x) {
          var q :| 0 <= q < p - |a| && b[q].IsValue() && b[q].result == x;
          assert c[q + |a|] == b[q];
        }
      }
    }
  }

  lemma {:induction false} PushWellFormed(a: seq<Token>, np: nat, lo: nat, hi: nat, t: Token)
    requires WellFormed(a, np) && ResultsIn(a, lo + 1, hi) && lo < hi
    requires FIRST_TEMPORAL <= t.result == lo && ArityOk(t)
    requires forall s :: 0 <= s < MAX_ARGS && t.args[s] != 0 ==> Resolves(a, np, |a|, t.args[s])
    ensures WellFormed(a + [t], np) && ResultsIn(a + [t], lo, hi)
  {
    var c := a + [t];
    forall p, s | 0 <= p < |c| && 0 <= s < MAX_ARGS && c[p].args[s] != 0
      ensures Resolves(c, np, p, c[p].args[s])
    {
      var x := c[p].args[s];
      if p == |a| {
        assert c[p] == t;
      } else {
        assert c[p] == a[p];
      }
      assert Resolves(a, np, p, x);
      if !IsParam(np, x) {
        var q :| 0 <= q < p && a[q].IsValue() && a[q].result == x;
        assert c[q] == a[q];
      }
    }
  }

  lemma {:induction false} JoinEnv<V>(I: Interp<V>, e: map<nat, V>, a: seq<Token>, b: seq<Token>, k: nat)
    requires k <= |b|
    ensures EnvAt(I, e, a + b, |a| + k) == EnvAt(I, EnvAt(I, e, a, |a|), b, k)
    decreases k
  {
    if k == 0 {
      SamePrefix(I, e, a + b, a, |a|);
    } else {
      JoinEnv(I, e, a, b, k - 1);
      assert (a + b)[|a| + k - 1] == b[k - 1];
    }
  }

  // ---------- emission is correct ----------

  /** What emission promises about an expression: one id per node, well-formed tokens that
      never return, and the expression's own id on the last of them. */
  ghost predicate GoodExpr(em: Option<Emitted>, np: nat, id: nat, count: nat) {
    && em.Some? && em.value.result == id && em.value.next == id + count
    && WellFormed(em.value.tokens, np) && ResultsIn(em.value.tokens, id, em.value.next)
    && AllValues(em.value.tokens) && DefinedLast(em.value.tokens, id)
  }

  ghost predicate AllValues(ts: seq<Token>) {
    forall p :: 0 <= p < |ts| ==> ts[p].IsValue()
  }

  ghost predicate DefinedLast(ts: seq<Token>, id: nat) {
    ts != [] && ts[|ts| - 1].result == id
  }

  /** Emitting an expression succeeds and keeps that promise. */
  lemma {:induction false} EmitExprShape(t: Tree, params: seq<string>, id: nat)
    requires IsExpr(t, params) && FIRST_TEMPORAL <= id && |params| <= 30
    ensures GoodExpr(Emit(t, params, id), |params|, id, NodeCount(t))
    decreases t
  {
    match t.kind
    case RefVar(name) =>
      LeafShape(t, params, id, name);
    case Binop(b) =>
      hide GoodExpr;
      EmitExprShape(t.kids[0], params, id + 1);
      var l := Emit(t.kids[0], params, id + 1);
      GoodExprParts(l, |params|, id + 1, NodeCount(t.kids[0]));
      EmitExprShape(t.kids[1], params, l.value.next);
      var r := Emit(t.kids[1], params, l.value.next);
      GoodExprParts(r, |params|, l.value.next, NodeCount(t.kids[1]));
      TwoCounts(t);
      BinShape(l, r, |params|, id, NodeCount(t.kids[0]), NodeCount(t.kids[1]), b.op);
  }

  lemma {:induction false} NoTokensWellFormed(np: nat)
    requires np <= 30
    ensures WellFormed([], np)
  {
  }

  lemma {:induction false} LeafShape(t: Tree, params: seq<string>, id: nat, name: string)
    requires IsExpr(t, params) && t.kind == RefVar(name) && FIRST_TEMPORAL <= id && |params| <= 30
    ensures GoodExpr(Emit(t, params, id), |params|, id, NodeCount(t))
  {
    hide WellFormed;
    var tok := Token(Identity, id, OneArg(ParamId(ParamIndex(params, name).value)));
    assert ArityOk(tok);
    NoTokensWellFormed(|params|);
    PushWellFormed([], |params|, id, id + 1, tok);
    assert [] + [tok] == [tok];
    assert Emit(t, params, id) == Some(Emitted([tok], id, id + 1));
  }

  lemma {:induction false} GoodExprParts(em: Option<Emitted>, np: nat, id: nat, count: nat)
    requires GoodExpr(em, np, id, count)
    ensures em.Some? && em.value.result == id && em.value.next == id + count
  {
  }

  lemma {:induction false} BinShape(l: Option<Emitted>, r: Option<Emitted>, np: nat, id: nat, m: nat, n: nat, op: BinOp)
    requires GoodExpr(l, np, id + 1, m) && GoodExpr(r, np, id + 1 + m, n) && FIRST_TEMPORAL <= id
    ensures var tok := Token(Bin(op), id, TwoArgs(l.value.result, r.value.result));
      GoodExpr(Some(Emitted(l.value.tokens + r.value.tokens + [tok], id, r.value.next)), np, id, 1 + m + n)
  {
    hide WellFormed;
    var a, b := l.value.tokens, r.value.tokens;
    var c := a + b;
    JoinWellFormed(a, b, np, id + 1, id + 1 + m, id + 1 + m + n);
    assert c[|a| - 1] == a[|a| - 1] && c[|c| - 1] == b[|b| - 1];
    assert DefinedBefore(c, |c|, l.value.result) && DefinedBefore(c, |c|, r.value.result);
    PushWellFormed(c, np, id, r.value.next, Token(Bin(op), id, TwoArgs(l.value.result, r.value.result)));
  }

  lemma {:induction false} TwoCounts(t: Tree)
    requires |t.kids| == 2
    ensures NodeCount(t) == 1 + NodeCount(t.kids[0]) + NodeCount(t.kids[1])
  {
    assert NodeCounts(t.kids[1..]) == NodeCount(t.kids[1]) + NodeCounts(t.kids[1..][1..]);
  }

  /** Running `ts` leaves `v` at `id` and touches no id outside `id..next`. */
  ghost predicate Leaves<V>(I: Interp<V>, e: map<nat, V>, ts: seq<Token>, id: nat, next: nat, v: V) {
    && ValueOf(I, e, ts, id) == v
    && forall x: nat :: x < id || next <= x ==> ValueOf(I, e, ts, x) == Get(I, e, x)
  }

  /** Running the tokens of an expression leaves its value at its id and touches no other id
      outside the ones it was given. */
  lemma {:induction false} EmitExprValue<V>(I: Interp<V>, e: map<nat, V>, t: Tree, params: seq<string>, id: nat)
    requires IsExpr(t, params) && FIRST_TEMPORAL <= id && |params| <= 30
    ensures Emit(t, params, id).Some?
    ensures Leaves(I, e, Emit(t, params, id).value.tokens, id, Emit(t, params, id).value.next,
                   EvalExpr(I, e, params, t))
    decreases t
  {
    hide GoodExpr, Leaves;
    EmitExprShape(t, params, id);
    GoodExprParts(Emit(t, params, id), |params|, id, NodeCount(t));
    match t.kind
    case RefVar(name) =>
      OneTokenLeaves(I, e, id, ParamId(ParamIndex(params, name).value));
    case Binop(b) =>
      var l := Emit(t.kids[0], params, id + 1);
      EmitExprShape(t.kids[0], params, id + 1);
      GoodExprParts(l, |params|, id + 1, NodeCount(t.kids[0]));
      var r := Emit(t.kids[1], params, l.value.next);
      EmitExprShape(t.kids[1], params, l.value.next);
      GoodExprParts(r, |params|, l.value.next, NodeCount(t.kids[1]));
      var f := EnvAt(I, e, l.value.tokens, |l.value.tokens|);
      EmitExprValue(I, e, t.kids[0], params, id + 1);
      EmitExprValue(I, f, t.kids[1], params, l.value.next);
      LeavesLow(I, e, l.value.tokens, id + 1, l.value.next, EvalExpr(I, e, params, t.kids[0]));
      EvalFrame(I, e, f, params, t.kids[1]);
      BinLeaves(I, e, l.value.tokens, r.value.tokens, id, l.value.next, r.value.next, b.op,
                EvalExpr(I, e, params, t.kids[0]), EvalExpr(I, e, params, t.kids[1]));
  }

  lemma {:induction false} OneTokenLeaves<V>(I: Interp<V>, e: map<nat, V>, id: nat, x: nat)
    ensures Leaves(I, e, [Token(Identity, id, OneArg(x))], id, id + 1, Get(I, e, x))
  {
    var ts := [Token(Identity, id, OneArg(x))];
    assert EnvAt(I, e, ts, 1) == Exec(I, EnvAt(I, e, ts, 0), ts[0]);
  }

  lemma {:induction false} LeavesLow<V>(I: Interp<V>, e: map<nat, V>, ts: seq<Token>, id: nat, next: nat, v: V)
    requires Leaves(I, e, ts, id, next, v) && FIRST_TEMPORAL <= id
    ensures forall x: nat :: x < FIRST_TEMPORAL ==> Get(I, e, x) == Get(I, EnvAt(I, e, ts, |ts|), x)
  {
    forall x: nat | x < FIRST_TEMPORAL
      ensures Get(I, e, x) == Get(I, EnvAt(I, e, ts, |ts|), x)
    {
      assert ValueOf(I, e, ts, x) == Get(I, e, x);
    }
  }

  lemma {:induction false} BinLeaves<V>(I: Interp<V>, e: map<nat, V>, a: seq<Token>, b: seq<Token>, id: nat,
      mid: nat, hi: nat,
                     op: BinOp, v: V, w: V)
    requires id + 1 < mid < hi
    requires Leaves(I, e, a, id + 1, mid, v) && Leaves(I, EnvAt(I, e, a, |a|), b, mid, hi, w)
    ensures Leaves(I, e, a + b + [Token(Bin(op), id, TwoArgs(id + 1, mid))], id, hi, I.op(op, v, w))
  {
    var f := EnvAt(I, e, a, |a|);
    var c, tok := a + b, Token(Bin(op), id, TwoArgs(id + 1, mid));
    var ts := c + [tok];
    JoinEnv(I, e, a, b, |b|);
    SamePrefix(I, e, ts, c, |c|);
    var g := EnvAt(I, e, c, |c|);
    assert EnvAt(I, e, ts, |ts|) == Exec(I, g, tok);
    assert Get(I, g, id + 1) == v by {
      assert ValueOf(I, f, b, id + 1) == Get(I, f, id + 1) == ValueOf(I, e, a, id + 1);
    }
    assert Get(I, g, mid) == w by {
      assert ValueOf(I, f, b, mid) == w;
    }
    forall x: nat | x < id || hi <= x
      ensures ValueOf(I, e, ts, x) == Get(I, e, x)
    {
      assert ValueOf(I, f, b, x) == Get(I, f, x) == ValueOf(I, e, a, x);
    }
  }

  /** The value of an expression depends on the parameters alone. */
  lemma {:induction false} EvalFrame<V>(I: Interp<V>, e: map<nat, V>, f: map<nat, V>, params: seq<string>, t: Tree)
    requires IsExpr(t, params) && |params| <= 30
    requires forall x: nat :: x < FIRST_TEMPORAL ==> Get(I, e, x) == Get(I, f, x)
    ensures EvalExpr(I, e, params, t) == EvalExpr(I, f, params, t)
    decreases t
  {
    match t.kind
    case RefVar(name) =>
    case Binop(b) =>
      EvalFrame(I, e, f, params, t.kids[0]);
      EvalFrame(I, e, f, params, t.kids[1]);
  }

  /** What emission promises about a piece of a function body. */
  ghost predicate GoodBody(em: Option<Emitted>, np: nat, id: nat, count: nat) {
    && em.Some? && em.value.next == id + count
    && WellFormed(em.value.tokens, np) && ResultsIn(em.value.tokens, id, em.value.next)
  }

  /** Emission of a body yields well-formed SSA and uses as many ids as it visits nodes. */
  lemma {:induction false} EmitBodyShape(t: Tree, params: seq<string>, id: nat)
    requires IsBody(t, params) && FIRST_TEMPORAL <= id && |params| <= 30
    ensures GoodBody(Emit(t, params, id), |params|, id, NodeCount(t))
    decreases t
  {
    match t.kind
    case Return =>
      EmitExprShape(t.kids[0], params, id + 1);
      var v := Emit(t.kids[0], params, id + 1).value;
      assert NodeCounts(t.kids) == NodeCount(t.kids[0]) + NodeCounts(t.kids[1..]);
      assert DefinedBefore(v.tokens, |v.tokens|, v.result);
      PushWellFormed(v.tokens, |params|, id, v.next, Token(Ssa.Return, id, OneArg(v.result)));
    case Block =>
      EmitBodiesShape(t.kids, params, id + 1);
  }

  lemma {:induction false} EmitBodiesShape(ts: seq<Tree>, params: seq<string>, id: nat)
    requires forall i :: 0 <= i < |ts| ==> IsBody(ts[i], params)
    requires FIRST_TEMPORAL <= id && |params| <= 30
    ensures GoodBody(EmitAll(ts, params, id), |params|, id, NodeCounts(ts))
    decreases ts
  {
    if ts != [] {
      EmitBodyShape(ts[0], params, id);
      var h := Emit(ts[0], params, id).value;
      EmitBodiesShape(ts[1..], params, h.next);
      var m := EmitAll(ts[1..], params, h.next).value;
      JoinWellFormed(h.tokens, m.tokens, |params|, id, h.next, m.next);
    }
  }

  /** The first return of the tokens is the first return of the source, with its value. */
  ghost predicate ReturnsWhat<V>(I: Interp<V>, e: map<nat, V>, params: seq<string>, ts: seq<Token>, x: Option<Tree>) {
    && (x.None? <==> FirstReturn(ts) == |ts|)
    && (x.Some? ==> IsExpr(x.value, params) && Returned(I, e, ts) == EvalExpr(I, e, params, x.value))
    && forall z: nat :: z < FIRST_TEMPORAL ==> ValueOf(I, e, ts, z) == Get(I, e, z)
  }

  /** Emission computes the source: running the tokens of a body returns the value of the
      expression the source returns first. */
  lemma {:induction false} EmitBodyValue<V>(I: Interp<V>, e: map<nat, V>, t: Tree, params: seq<string>, id: nat)
    requires IsBody(t, params) && FIRST_TEMPORAL <= id && |params| <= 30
    ensures Emit(t, params, id).Some?
    ensures ReturnsWhat(I, e, params, Emit(t, params, id).value.tokens, FirstReturned(t))
    decreases t
  {
    hide GoodBody, GoodExpr, Leaves, ReturnsWhat;
    match t.kind
    case Return =>
      EmitExprShape(t.kids[0], params, id + 1);
      EmitExprValue(I, e, t.kids[0], params, id + 1);
      ReturnLeaves(I, e, params, Emit(t.kids[0], params, id + 1), id, NodeCount(t.kids[0]), t.kids[0]);
    case Block =>
      EmitBodiesValue(I, e, t.kids, params, id + 1);
  }

  lemma {:induction false} ReturnLeaves<V>(I: Interp<V>, e: map<nat, V>, params: seq<string>, em: Option<Emitted>,
      id: nat, count: nat, x: Tree)
    requires IsExpr(x, params) && FIRST_TEMPORAL <= id && GoodExpr(em, |params|, id + 1, count)
    requires Leaves(I, e, em.value.tokens, id + 1, em.value.next, EvalExpr(I, e, params, x))
    ensures ReturnsWhat(I, e, params, em.value.tokens + [Token(Ssa.Return, id, OneArg(em.value.result))], Some(x))
  {
    hide WellFormed;
    var a := em.value.tokens;
    var ts := a + [Token(Ssa.Return, id, OneArg(em.value.result))];
    assert forall q :: 0 <= q < |a| ==> ts[q] == a[q] && a[q].IsValue();
    FirstReturnIs(ts, |a|);
    SamePrefix(I, e, ts, a, |a|);
    assert EnvAt(I, e, ts, |ts|) == Exec(I, EnvAt(I, e, ts, |a|), ts[|a|]);
    forall z: nat | z < FIRST_TEMPORAL
      ensures ValueOf(I, e, ts, z) == Get(I, e, z)
    {
      assert ValueOf(I, e, a, z) == Get(I, e, z);
    }
  }

  lemma {:induction false} EmitBodiesValue<V>(I: Interp<V>, e: map<nat, V>, ts: seq<Tree>, params: seq<string>, id: nat)
    requires forall i :: 0 <= i < |ts| ==> IsBody(ts[i], params)
    requires FIRST_TEMPORAL <= id && |params| <= 30
    ensures EmitAll(ts, params, id).Some?
    ensures ReturnsWhat(I, e, params, EmitAll(ts, params, id).value.tokens, FirstReturnedOf(ts))
    decreases ts
  {
    EmitBodiesShape(ts, params, id);
    if ts != [] {
      EmitBodyShape(ts[0], params, id);
      EmitBodyValue(I, e, ts[0], params, id);
      var h := Emit(ts[0], params, id).value;
      var f := EnvAt(I, e, h.tokens, |h.tokens|);
      EmitBodiesShape(ts[1..], params, h.next);
      EmitBodiesValue(I, f, ts[1..], params, h.next);
      var m := EmitAll(ts[1..], params, h.next).value;
      JoinReturns(I, e, params, h.tokens, m.tokens, FirstReturned(ts[0]), FirstReturnedOf(ts[1..]));
    }
  }

  lemma {:induction false} JoinReturns<V>(I: Interp<V>, e: map<nat, V>, params: seq<string>, a: seq<Token>,
      b: seq<Token>, x: Option<Tree>, y: Option<Tree>)
    requires |params| <= 30 && ReturnsWhat(I, e, params, a, x)
    requires ReturnsWhat(I, EnvAt(I, e, a, |a|), params, b, y)
    ensures ReturnsWhat(I, e, params, a + b, if x.Some? then x else y)
  {
    var c, f := a + b, EnvAt(I, e, a, |a|);
    JoinEnv(I, e, a, b, |b|);
    assert |c| == |a| + |b|;
    if x.Some? {
      var p := FirstReturn(a);
      FirstReturnIs(c, p);
      SamePrefix(I, e, c, a, p);
    } else {
      var p := FirstReturn(b);
      assert forall q :: |a| <= q < |c| ==> c[q] == b[q - |a|];
      FirstReturnIs(c, |a| + p);
      JoinEnv(I, e, a, b, p);
      if y.Some? {
        forall z: nat | z < FIRST_TEMPORAL
          ensures Get(I, e, z) == Get(I, f, z)
        {
          assert ValueOf(I, e, a, z) == Get(I, e, z);
        }
        EvalFrame(I, e, f, params, y.value);
      }
    }
    forall z: nat | z < FIRST_TEMPORAL
      ensures ValueOf(I, e, c, z) == Get(I, e, z)
    {
      assert ValueOf(I, f, b, z) == Get(I, f, z);
      assert ValueOf(I, e, a, z) == Get(I, e, z);
    }
  }

  // ---------- the emitter itself ----------

  class Emitter {
    var tokens: seq<Token>
    var nextId: nat
    const params: seq<string>

    constructor (params: seq<string>, tokens: seq<Token>)
      ensures this.params == params && this.tokens == tokens && nextId == FIRST_TEMPORAL
    {
      this.params := params;
      this.tokens := tokens;
      nextId := FIRST_TEMPORAL;
    }

    method PushToken(tok: Token)
      modifies this
      ensures tokens == old(tokens) + [tok] && nextId == old(nextId)
    {
      tokens := tokens + [tok];
    }

    /** The recursion over the arena; `None` is an abort, after which nothing is promised. */
    method EmitNode(g: Graph, n: nat, ghost t: Tree) returns (res: Option<nat>)
      requires Unfolds(g, n, t)
      modifies this
      ensures Did(Emit(t, params, old(nextId)), old(tokens), res, tokens, nextId)
      decreases t, 1
    {
      hide Unfolds, Slots, HasNode, EmitAll;
      UnfoldsParts(g, n, t);
      var id, node, slots := nextId, g.nodes[n], Slots(g, n);
      nextId := nextId + 1;
      match node.kind {
        case RefVar(name) =>
          var param := ParamIndex(params, name);
          if param.None? {
            return None;
          }
          PushToken(Token(Identity, id, OneArg(ParamId(param.value))));
          return Some(id);
        case Block => res := EmitChildren(g, n, t);
        case NewType => res := EmitChildren(g, n, t);
        case NewVar(_) => res := EmitChildren(g, n, t);
        case If => res := EmitChildren(g, n, t);
        case Return => res := EmitReturn(g, n, t, id);
        case Binop(b) => res := EmitBinop(g, n, t, b, id);
        case _ => return Some(0);
      }
    }

    method EmitReturn(g: Graph, n: nat, ghost t: Tree, id: nat) returns (res: Option<nat>)
      requires Unfolds(g, n, t) && t.kind.Return? && nextId == id + 1
      modifies this
      ensures Did(Emit(t, params, id), old(tokens), res, tokens, nextId)
      decreases t, 0
    {
      hide Unfolds, Slots, HasNode, EmitAll;
      UnfoldsParts(g, n, t);
      var slots := Slots(g, n);
      if |slots| != 1 {
        return None;
      }
      var v := EmitNode(g, slots[0], t.kids[0]);
      if v.None? {
        return None;
      }
      PushToken(Token(Ssa.Return, id, OneArg(v.value)));
      return Some(id);
    }

    method EmitBinop(g: Graph, n: nat, ghost t: Tree, b: BinKind, id: nat) returns (res: Option<nat>)
      requires Unfolds(g, n, t) && t.kind == Binop(b) && nextId == id + 1
      modifies this
      ensures Did(Emit(t, params, id), old(tokens), res, tokens, nextId)
      decreases t, 0
    {
      hide Unfolds, Slots, HasNode, EmitAll;
      UnfoldsParts(g, n, t);
      var slots := Slots(g, n);
      if |slots| != 2 {
        return None;
      }
      var lhs := EmitNode(g, slots[0], t.kids[0]);
      if lhs.None? {
        return None;
      }
      var rhs := EmitNode(g, slots[1], t.kids[1]);
      if rhs.None? || !b.Arith? {
        return None;
      }
      PushToken(Token(Bin(b.op), id, TwoArgs(lhs.value, rhs.value)));
      return Some(id);
    }

    method EmitChildren(g: Graph, n: nat, ghost t: Tree) returns (res: Option<nat>)
      requires Unfolds(g, n, t)
      modifies this
      ensures Did(EmitAll(t.kids, params, old(nextId)), old(tokens), res, tokens, nextId)
      decreases t, 0
    {
      hide Unfolds, Slots, HasNode, Emit, EmitAll;
      UnfoldsParts(g, n, t);
      var childs := Slots(g, n);
      ghost var whole := EmitAll(t.kids, params, nextId);
      assert t.kids[0..] == t.kids;
      for i := 0 to |childs|
        invariant ToGo(whole, EmitAll(t.kids[i..], params, nextId), old(tokens), tokens)
      {
        ghost var before := tokens;
        EmitAllStep(t.kids, params, nextId, i);
        var r := EmitNode(g, childs[i], t.kids[i]);
        if r.None? {
          return None;
        }
      }
      assert t.kids[|childs|..] == [];
      EmitAllNone(params, nextId);
      res := Some(0);
    }
  }

  /** The state change an emission with outcome `em` makes. */
  ghost predicate Did(em: Option<Emitted>, was: seq<Token>, res: Option<nat>, tokens: seq<Token>, nextId: nat) {
    && (em.None? <==> res.None?)
    && (em.Some? ==> res.value == em.value.result && nextId == em.value.next && tokens == was + em.value.tokens)
  }

  /** Emitting the rest from here completes the whole. */
  ghost predicate ToGo(whole: Option<Emitted>, rest: Option<Emitted>, was: seq<Token>, tokens: seq<Token>) {
    && (whole.None? <==> rest.None?)
    && (whole.Some? ==> && whole.value.next == rest.value.next && whole.value.result == rest.value.result == 0
                        && was + whole.value.tokens == tokens + rest.value.tokens)
  }

  lemma {:induction false} UnfoldsParts(g: Graph, n: nat, t: Tree)
    requires Unfolds(g, n, t)
    ensures n < |g.nodes| && g.nodes[n].kind == t.kind && |Slots(g, n)| == |t.kids|
    ensures forall i :: 0 <= i < |t.kids| ==> Unfolds(g, Slots(g, n)[i], t.kids[i])
  {
  }

  lemma {:induction false} EmitAllNone(params: seq<string>, id: nat)
    ensures EmitAll([], params, id) == Some(Emitted([], 0, id))
  {
  }

  lemma {:induction false} EmitAllStep(ts: seq<Tree>, params: seq<string>, id: nat, i: nat)
    requires i < |ts|
    ensures var h, all := Emit(ts[i], params, id), EmitAll(ts[i..], params, id);
      && (h.None? ==> all.None?)
      && (h.Some? ==>
            var m := EmitAll(ts[i + 1..], params, h.value.next);
            && (all.None? <==> m.None?)
            && (m.Some? ==> all == Some(Emitted(h.value.tokens + m.value.tokens, 0, m.value.next))))
  {
    assert ts[i..][0] == ts[i] && ts[i..][1..] == ts[i + 1..];
  }

  // ---------- which expressions have a value ----------

  /** The shapes the parser makes: names, literals, binary operators and conditionals. */
  predicate Shaped(t: Tree)
    decreases t
  {
    match t.kind
    case RefVar(_) => t.kids == []
    case LiteralInteger(_) => t.kids == []
    case Binop(_) => |t.kids| == 2 && Shaped(t.kids[0]) && Shaped(t.kids[1])
    case If => |t.kids| == 3 && Shaped(t.kids[0]) && Shaped(t.kids[1]) && Shaped(t.kids[2])
    case _ => false
  }

  /** Every token fills its argument slots, and the expression yields an id. */
  ghost predicate Usable(em: Emitted) {
    em.result != 0 && forall p :: 0 <= p < |em.tokens| ==> ArityOk(em.tokens[p])
  }

  /** An expression that is emitted uses one id a node, and yields an id, with no operand missing on the
      way, if and only if it consists of parameters and operators: the value of a literal or a conditional
      is nowhere. */
  lemma {:induction false} UsableExactly(t: Tree, params: seq<string>, id: nat)
    requires Shaped(t) && id > 0 && Emit(t, params, id).Some?
    ensures Emit(t, params, id).value.next == id + NodeCount(t)
    ensures Usable(Emit(t, params, id).value) <==> IsExpr(t, params)
    decreases t
  {
    match t.kind
    case RefVar(name) =>
    case LiteralInteger(_) =>
    case Binop(b) =>
      TwoNodes(t);
      UsableExactly(t.kids[0], params, id + 1);
      var l := Emit(t.kids[0], params, id + 1).value;
      UsableExactly(t.kids[1], params, l.next);
      var r := Emit(t.kids[1], params, l.next).value;
      UsableJoined(l, r, Token(Bin(b.op), id, TwoArgs(l.result, r.result)));
    case If =>
      ThreeNodes(t, params, id);
    case _ => assert false;
  }

  lemma {:induction false} TwoNodes(t: Tree)
    requires |t.kids| == 2
    ensures NodeCount(t) == 1 + NodeCount(t.kids[0]) + NodeCount(t.kids[1])
  {
    assert t.kids[1..] == [t.kids[1]] && [t.kids[1]][1..] == [];
    assert NodeCounts([t.kids[1]]) == NodeCount(t.kids[1]) + NodeCounts([]);
  }

  lemma {:induction false} UsableJoined(l: Emitted, r: Emitted, tok: Token)
    requires tok.kind.Bin? && tok.args == TwoArgs(l.result, r.result) && tok.result > 0
    ensures Usable(Emitted(l.tokens + r.tokens + [tok], tok.result, r.next)) <==> Usable(l) && Usable(r)
  {
    var ts := l.tokens + r.tokens + [tok];
    assert ArityOk(tok) <==> l.result != 0 && r.result != 0 by {
      assert tok.args[0] == l.result && tok.args[1] == r.result;
    }
    assert ts[|ts| - 1] == tok;
    if forall p :: 0 <= p < |ts| ==> ArityOk(ts[p]) {
      forall p | 0 <= p < |l.tokens|
        ensures ArityOk(l.tokens[p])
      {
        assert ts[p] == l.tokens[p];
      }
      forall p | 0 <= p < |r.tokens|
        ensures ArityOk(r.tokens[p])
      {
        assert ts[|l.tokens| + p] == r.tokens[p];
      }
    }
  }

  lemma {:induction false} ThreeNodes(t: Tree, params: seq<string>, id: nat)
    requires t.kind.If? && |t.kids| == 3 && Shaped(t) && id > 0 && Emit(t, params, id).Some?
    ensures Emit(t, params, id).value.next == id + NodeCount(t) && Emit(t, params, id).value.result == 0
    decreases t, 0
  {
    var c, x, y := t.kids[0], t.kids[1], t.kids[2];
    assert t.kids[1..] == [x, y] && [x, y][1..] == [y] && [y][1..] == [];
    EmitAllHead(t.kids, params, id + 1);
    UsableExactly(c, params, id + 1);
    var a := Emit(c, params, id + 1).value;
    EmitAllHead([x, y], params, a.next);
    UsableExactly(x, params, a.next);
    var b := Emit(x, params, a.next).value;
    EmitAllHead([y], params, b.next);
    UsableExactly(y, params, b.next);
    assert NodeCounts([y]) == NodeCount(y) + NodeCounts([]) && NodeCounts([x, y]) == NodeCount(x) + NodeCounts([y]);
  }

  lemma {:induction false} EmitAllHead(ts: seq<Tree>, params: seq<string>, id: nat)
    requires ts != [] && EmitAll(ts, params, id).Some?
    ensures Emit(ts[0], params, id).Some?
    ensures var h := Emit(ts[0], params, id).value;
      EmitAll(ts[1..], params, h.next).Some?
      && EmitAll(ts, params, id).value.next == EmitAll(ts[1..], params, h.next).value.next
    ensures |ts| == 1 ==> EmitAll(ts, params, id).value.next == Emit(ts[0], params, id).value.next
  {
  }
}

/** The SSA tokens of one function, the meaning of a token list, and the one rewriting
    step both optimiser passes are made of. Meanings are given over any value type `V`. */
module Ssa {
  datatype BinOp = Add | Sub | Mul | Div | Rem | LShift | RShift | And | Xor | Or

  datatype Kind = Erased | Return | Identity | Bin(op: BinOp)

  const MAX_ARGS: nat := 8
  const FIRST_TEMPORAL: nat := 32

  /** Argument slots hold ids; an unused slot holds the null id 0. */
  type Args = s: seq<nat> | |s| == MAX_ARGS witness [0, 0, 0, 0, 0, 0, 0, 0]

  datatype Token = Token(kind: Kind, result: nat, args: Args) {
    predicate IsValue() {
      kind.Identity? || kind.Bin?
    }
  }

  function ParamId(n: nat): nat {
    n + 2
  }

  // ---------- meaning ----------

  /** What the operators compute, and the value read through an id nobody defined. */
  datatype Interp<!V> = Interp(op: (BinOp, V, V) -> V, undef: V)

  function Get<V>(I: Interp<V>, e: map<nat, V>, x: nat): V {
    if x in e then e[x] else I.undef
  }

  function Exec<V>(I: Interp<V>, e: map<nat, V>, t: Token): map<nat, V> {
    match t.kind
    case Identity => e[t.result := Get(I, e, t.args[0])]
    case Bin(op) => e[t.result := I.op(op, Get(I, e, t.args[0]), Get(I, e, t.args[1]))]
    case _ => e
  }

  /** The values known after the first `p` tokens. */
  function EnvAt<V>(I: Interp<V>, e: map<nat, V>, ts: seq<Token>, p: nat): map<nat, V>
    requires p <= |ts|
    decreases p
  {
    if p == 0 then e else Exec(I, EnvAt(I, e, ts, p - 1), ts[p - 1])
  }

  /** The value of id `x` once all of `ts` has run. */
  function ValueOf<V>(I: Interp<V>, e: map<nat, V>, ts: seq<Token>, x: nat): V {
    Get(I, EnvAt(I, e, ts, |ts|), x)
  }

  /** The position of the first RETURN, or `|ts|` when there is none. */
  function FirstReturn(ts: seq<Token>, p: nat := 0): (r: nat)
    requires p <= |ts|
    ensures p <= r <= |ts|
    ensures forall q :: p <= q < r ==> !ts[q].kind.Return?
    ensures r < |ts| ==> ts[r].kind.Return?
    decreases |ts| - p
  {
    if p == |ts| || ts[p].kind.Return? then p else FirstReturn(ts, p + 1)
  }

  /** The value handed to the first RETURN. */
  function Returned<V>(I: Interp<V>, e: map<nat, V>, ts: seq<Token>): V {
    var p := FirstReturn(ts);
    if p == |ts| then I.undef else Get(I, EnvAt(I, e, ts, p), ts[p].args[0])
  }

  // ---------- well-formedness ----------

  ghost predicate IsParam(np: nat, x: nat) {
    ParamId(0) <= x < ParamId(np)
  }

  ghost predicate DefinedBefore(ts: seq<Token>, p: nat, x: nat)
    requires p <= |ts|
  {
    exists q :: 0 <= q < p && ts[q].IsValue() && ts[q].result == x
  }

  /** `x` can be read at position `p`: a parameter, or the result of an earlier live token. */
  ghost predicate Resolves(ts: seq<Token>, np: nat, p: nat, x: nat)
    requires p <= |ts|
  {
    IsParam(np, x) || DefinedBefore(ts, p, x)
  }

  function Arity(k: Kind): nat {
    match k
    case Erased => 0
    case Return => 1
    case Identity => 1
    case Bin(_) => 2
  }

  /** A live token fills exactly the argument slots its kind reads. */
  predicate ArityOk(t: Token) {
    t.kind.Erased? || forall a :: 0 <= a < MAX_ARGS ==> (t.args[a] != 0 <==> a < Arity(t.kind))
  }

  /** Single assignment, definition before use, and no mention of an erased result. */
  ghost predicate WellFormed(ts: seq<Token>, np: nat) {
    && np <= 30
    && (forall p :: 0 <= p < |ts| ==> FIRST_TEMPORAL <= ts[p].result && ArityOk(ts[p]))
    && (forall p, q :: 0 <= p < q < |ts| ==> ts[p].result != ts[q].result)
    && (forall p, a :: 0 <= p < |ts| && 0 <= a < MAX_ARGS && ts[p].args[a] != 0
          ==> Resolves(ts, np, p, ts[p].args[a]))
  }

  ghost predicate NoIdentity(ts: seq<Token>) {
    forall p :: 0 <= p < |ts| ==> !ts[p].kind.Identity?
  }

  // ---------- the rewriting step ----------

  function Rename(a: Args, from: nat, to: nat): Args {
    seq(MAX_ARGS, i requires 0 <= i < MAX_ARGS => if a[i] == from then to else a[i])
  }

  function Subst(ts: seq<Token>, offset: nat, from: nat, to: nat): seq<Token> {
    seq(|ts|, p requires 0 <= p < |ts| =>
      if p < offset then ts[p] else ts[p].(args := Rename(ts[p].args, from, to)))
  }

  function Erase(ts: seq<Token>, j: nat): seq<Token>
    requires j < |ts|
  {
    ts[j := ts[j].(kind := Erased)]
  }

  /** Sends every later mention of token `j`'s result to `y` and erases token `j`. */
  function Redirect(ts: seq<Token>, j: nat, y: nat): seq<Token>
    requires j < |ts|
  {
    Erase(Subst(ts, j + 1, ts[j].result, y), j)
  }

  /** A value never changes after the last token that could assign it. */
  lemma {:induction false} Stable<V>(I: Interp<V>, e: map<nat, V>, ts: seq<Token>, p: nat, q: nat, x: nat)
    requires p <= q <= |ts|
    requires forall k :: p <= k < q ==> ts[k].result != x
    ensures Get(I, EnvAt(I, e, ts, q), x) == Get(I, EnvAt(I, e, ts, p), x)
    decreases q - p
  {
    if p < q {
      Stable(I, e, ts, p, q - 1, x);
    }
  }

  /** Equal prefixes give equal environments. */
  lemma {:induction false} SamePrefix<V>(I: Interp<V>, e: map<nat, V>, ts: seq<Token>, us: seq<Token>, p: nat)
    requires p <= |ts| && p <= |us|
    requires forall k :: 0 <= k < p ==> ts[k] == us[k]
    ensures EnvAt(I, e, ts, p) == EnvAt(I, e, us, p)
    decreases p
  {
    if p > 0 {
      SamePrefix(I, e, ts, us, p - 1);
    }
  }

  /** An id readable at `p` is not assigned at or after `p`. */
  lemma {:induction false} NotAssignedLater(ts: seq<Token>, np: nat, p: nat, x: nat)
    requires WellFormed(ts, np) && p <= |ts| && Resolves(ts, np, p, x)
    ensures forall k :: p <= k < |ts| ==> ts[k].result != x
  {
  }

  lemma {:induction false} RedirectKeepsShape(ts: seq<Token>, j: nat, y: nat)
    requires j < |ts|
    ensures var us := Redirect(ts, j, y);
      && |us| == |ts|
      && (forall p :: 0 <= p < |ts| ==> us[p].result == ts[p].result)
      && (forall p :: 0 <= p < |ts| && p != j ==> us[p].kind == ts[p].kind)
      && us[j].kind.Erased?
      && (forall p :: 0 <= p <= j ==> us[p].args == ts[p].args)
      && (forall p :: j < p < |ts| ==> us[p].args == Rename(ts[p].args, ts[j].result, y))
  {
  }

  /** Redirecting to a readable id keeps a function well formed, so the erased result is
      mentioned nowhere afterwards. */
  lemma {:induction false} RedirectWellFormed(ts: seq<Token>, np: nat, j: nat, y: nat)
    requires WellFormed(ts, np) && j < |ts|
    requires y != 0 && Resolves(ts, np, j, y)
    ensures WellFormed(Redirect(ts, j, y), np)
  {
    var us := Redirect(ts, j, y);
    RedirectKeepsShape(ts, j, y);
    forall p | 0 <= p < |us|
      ensures ArityOk(us[p])
    {
    }
    forall p, a | 0 <= p < |us| && 0 <= a < MAX_ARGS && us[p].args[a] != 0
      ensures Resolves(us, np, p, us[p].args[a])
    {
      var x := us[p].args[a];
      if p > j && ts[p].args[a] == ts[j].result {
        ResolvesAfterRedirect(ts, np, j, y, p, y);
      } else {
        ResolvesAfterRedirect(ts, np, j, y, p, x);
      }
    }
  }

  lemma {:induction false} ResolvesAfterRedirect(ts: seq<Token>, np: nat, j: nat, y: nat, p: nat, x: nat)
    requires WellFormed(ts, np) && j < |ts| && p <= |ts|
    requires x != ts[j].result || p <= j
    requires Resolves(ts, np, p, x) || (j < p && Resolves(ts, np, j, x))
    ensures Resolves(Redirect(ts, j, y), np, p, x)
  {
    var us := Redirect(ts, j, y);
    RedirectKeepsShape(ts, j, y);
    if !IsParam(np, x) {
      var q :| 0 <= q < p && ts[q].IsValue() && ts[q].result == x;
      assert q != j;
      assert us[q].IsValue() && us[q].result == x;
    }
  }

  /** The heart of both passes: when `y` already holds the value of token `j`, redirecting
      `j` to `y` changes no other value, at no position, and no argument's value. */
  lemma {:induction false} RedirectKeepsValues<V>(I: Interp<V>, e: map<nat, V>, ts: seq<Token>, np: nat,
                                                  j: nat, y: nat, q: nat)
    requires WellFormed(ts, np) && j < |ts| && q <= |ts|
    requires Resolves(ts, np, j, y)
    requires Get(I, EnvAt(I, e, ts, j + 1), ts[j].result) == Get(I, EnvAt(I, e, ts, j + 1), y)
    ensures forall z :: z != ts[j].result ==>
              Get(I, EnvAt(I, e, Redirect(ts, j, y), q), z) == Get(I, EnvAt(I, e, ts, q), z)
    ensures q < |ts| ==> SameArguments(I, e, ts, Redirect(ts, j, y), q)
    decreases q
  {
    hide Redirect, Get;
    var us := Redirect(ts, j, y);
    var x := ts[j].result;
    RedirectKeepsShape(ts, j, y);
    NotAssignedLater(ts, np, j, y);
    if q <= j {
      SamePrefix(I, e, ts, us, q);
    } else {
      RedirectKeepsValues(I, e, ts, np, j, y, q - 1);
      Stable(I, e, ts, j + 1, q, x);
      Stable(I, e, ts, j + 1, q, y);
      assert SameArguments(I, e, ts, us, q - 1);
      if q - 1 == j {
        ExecErased(I, EnvAt(I, e, ts, j), ts[j]);
      } else {
        ExecAgrees(I, EnvAt(I, e, ts, q - 1), EnvAt(I, e, us, q - 1), ts[q - 1], us[q - 1], x);
      }
    }
  }

  /** Running a token assigns nothing but its own result. */
  lemma {:induction false} ExecErased<V>(I: Interp<V>, e: map<nat, V>, t: Token)
    ensures forall z :: z != t.result ==> Get(I, Exec(I, e, t), z) == Get(I, e, z)
  {
  }

  /** Environments that agree but at `x` still do after tokens that read equal arguments. */
  lemma {:induction false} ExecAgrees<V>(I: Interp<V>, e: map<nat, V>, f: map<nat, V>, t: Token, u: Token, x: nat)
    requires t.kind == u.kind && t.result == u.result
    requires forall z :: z != x ==> Get(I, f, z) == Get(I, e, z)
    requires forall a :: 0 <= a < MAX_ARGS ==> Get(I, f, u.args[a]) == Get(I, e, t.args[a])
    ensures forall z :: z != x ==> Get(I, Exec(I, f, u), z) == Get(I, Exec(I, e, t), z)
  {
    assert Get(I, f, u.args[0]) == Get(I, e, t.args[0]);
    assert Get(I, f, u.args[1]) == Get(I, e, t.args[1]);
    forall z | z != x
      ensures Get(I, Exec(I, f, u), z) == Get(I, Exec(I, e, t), z)
    {
      assert Get(I, f, z) == Get(I, e, z);
    }
  }

  /** Position `q` reads the same argument values in both token lists. */
  ghost predicate SameArguments<V>(I: Interp<V>, e: map<nat, V>, ts: seq<Token>, us: seq<Token>, q: nat)
    requires q < |ts| == |us|
  {
    forall a :: 0 <= a < MAX_ARGS ==>
      Get(I, EnvAt(I, e, us, q), us[q].args[a]) == Get(I, EnvAt(I, e, ts, q), ts[q].args[a])
  }

  /** `us` is a rewriting of `ts`: what survives keeps its value, and so does the return. */
  ghost predicate Keeps<V>(I: Interp<V>, e: map<nat, V>, ts: seq<Token>, us: seq<Token>) {
    && |us| == |ts|
    && Returned(I, e, us) == Returned(I, e, ts)
    && forall p :: 0 <= p < |us| && us[p].IsValue() ==>
         && ts[p].IsValue() && us[p].result == ts[p].result
         && ValueOf(I, e, us, us[p].result) == ValueOf(I, e, ts, us[p].result)
  }

  lemma {:induction false} FirstReturnIs(ts: seq<Token>, p: nat)
    requires p <= |ts| && (p < |ts| ==> ts[p].kind.Return?)
    requires forall q :: 0 <= q < p ==> !ts[q].kind.Return?
    ensures FirstReturn(ts) == p
  {
  }

  lemma {:induction false} RedirectKeeps<V>(I: Interp<V>, e: map<nat, V>, ts: seq<Token>, np: nat, j: nat, y: nat)
    requires WellFormed(ts, np) && j < |ts| && ts[j].IsValue()
    requires Resolves(ts, np, j, y)
    requires Get(I, EnvAt(I, e, ts, j + 1), ts[j].result) == Get(I, EnvAt(I, e, ts, j + 1), y)
    ensures Keeps(I, e, ts, Redirect(ts, j, y))
    ensures forall q :: 0 <= q < |ts| ==> SameArguments(I, e, ts, Redirect(ts, j, y), q)
    ensures forall z :: z != ts[j].result ==> ValueOf(I, e, Redirect(ts, j, y), z) == ValueOf(I, e, ts, z)
    ensures ValueOf(I, e, Redirect(ts, j, y), y) == ValueOf(I, e, ts, ts[j].result)
  {
    hide Redirect;
    var us := Redirect(ts, j, y);
    RedirectKeepsShape(ts, j, y);
    RedirectKeepsValues(I, e, ts, np, j, y, |ts|);
    forall q | 0 <= q < |ts|
      ensures SameArguments(I, e, ts, us, q)
    {
      RedirectKeepsValues(I, e, ts, np, j, y, q);
    }
    var r := FirstReturn(ts);
    FirstReturnIs(us, r);
    if r < |ts| {
      assert SameArguments(I, e, ts, us, r);
    }
    NotAssignedLater(ts, np, j, y);
    Stable(I, e, ts, j + 1, |ts|, y);
    Stable(I, e, ts, j + 1, |ts|, ts[j].result);
  }

  /** Nothing in a well-formed function mentions an erased result. */
  lemma {:induction false} ErasedNeverMentioned(ts: seq<Token>, np: nat, j: nat, q: nat, a: nat)
    requires WellFormed(ts, np) && j < |ts| && q < |ts| && a < MAX_ARGS
    requires !ts[j].IsValue()
    ensures ts[q].args[a] != ts[j].result
  {
  }
}

/** What a text of two operators is worth: from its characters, whitespace and precedence included, to
    the number in a register of the machine that has run it. */
module Worth {
  import opened Options
  import opened Words
  import Ssa
  import opened Ast
  import opened Grammar
  import opened Precedence
  import opened Memory
  import opened Machine
  import opened Arithmetic
  import Optimise
  import Passes
  import Emission
  import Spines
  import Exactness
  import Descent
  import Lexer
  import Vocabulary
  import Printing
  import Assembler
  import Toolchain
  import opened Calling
  import opened Source
  import L = Lower
  import C = Compiler

  // ---------- the tokens ----------

  function Var(x: string): Tree {
    Leaf(RefVar(x))
  }

  function Bin(op: Ssa.BinOp, l: Tree, r: Tree): Tree {
    Tree(Binop(Arith(op)), [l, r])
  }

  /** `op2` binds tighter than `op1`. */
  predicate Tighter(op2: Ssa.BinOp, op1: Ssa.BinOp) {
    Rank(Arith(op2)) < Rank(Arith(op1))
  }

  /** The tree of `x op1 y op2 z`. */
  function Joined(x: string, op1: Ssa.BinOp, y: string, op2: Ssa.BinOp, z: string): Tree {
    TwoJoined(Var(x), Arith(op1), Var(y), Arith(op2), Var(z))
  }

  function Body(x: string, op1: Ssa.BinOp, y: string, op2: Ssa.BinOp, z: string): Tree {
    Tree(Return, [Joined(x, op1, y, op2, z)])
  }

  /** Six tokens: three identities and two operations, the outer one last, and the return of the
      outer one's result. */
  ghost predicate TwoOps(ts: seq<Ssa.Token>, inner: Ssa.BinOp, outer: Ssa.BinOp) {
    && |ts| == 6 && ts[4].kind == Ssa.Bin(outer) && ts[4].result == 33
    && ts[5].kind == Ssa.Return && ts[5].args[0] == 33
    && (ts[2].kind == Ssa.Bin(inner) || ts[3].kind == Ssa.Bin(inner))
    && (forall p :: 0 <= p < 4 ==> (ts[p].kind == Ssa.Bin(inner) || ts[p].kind.Identity?) && ts[p].result != 33)
    && (ts[2].kind.Identity? || ts[3].kind.Identity?) && ts[0].kind.Identity? && ts[1].kind.Identity?
  }

  lemma {:induction false} EmitVar(x: string, params: seq<string>, id: nat)
    requires x in params
    ensures var n := Emission.ParamIndex(params, x);
      && n.Some?
      && Emission.Emit(Var(x), params, id)
         == Some(Emission.Emitted([Ssa.Token(Ssa.Identity, id, Emission.OneArg(Ssa.ParamId(n.value)))], id, id + 1))
  {
  }

  lemma {:induction false} EmitBin(op: Ssa.BinOp, l: Tree, r: Tree, params: seq<string>, id: nat)
    requires var a := Emission.Emit(l, params, id + 1);
      a.Some? && Emission.Emit(r, params, a.value.next).Some?
    ensures var a := Emission.Emit(l, params, id + 1).value;
      var b := Emission.Emit(r, params, a.next).value;
      Emission.Emit(Bin(op, l, r), params, id)
      == Some(Emission.Emitted(
                a.tokens + b.tokens + [Ssa.Token(Ssa.Bin(op), id, Emission.TwoArgs(a.result, b.result))], id, b.next))
  {
    assert Bin(op, l, r).kids == [l, r];
  }

  lemma {:induction false} EmitReturn(e: Tree, params: seq<string>)
    requires Emission.Emit(e, params, 33).Some?
    ensures var a := Emission.Emit(e, params, 33).value;
      Emission.Emit(Tree(Return, [e]), params, 32)
      == Some(Emission.Emitted(a.tokens + [Ssa.Token(Ssa.Return, 32, Emission.OneArg(a.result))], 32, a.next))
  {
    assert Tree(Return, [e]).kids == [e];
  }

  lemma {:induction false} EmitTwoOps(x: string, op1: Ssa.BinOp, y: string, op2: Ssa.BinOp, z: string,
      params: seq<string>)
    requires x in params && y in params && z in params
    ensures var em := Emission.Emit(Body(x, op1, y, op2, z), params, 32);
      && em.Some?
      && if Tighter(op2, op1) then TwoOps(em.value.tokens, op2, op1) else TwoOps(em.value.tokens, op1, op2)
  {
    hide Emission.Emit, Emission.ParamIndex, Rank;
    if Tighter(op2, op1) {
      EmitVar(x, params, 34);
      EmitVar(y, params, 36);
      EmitVar(z, params, 37);
      EmitBin(op2, Var(y), Var(z), params, 35);
      EmitBin(op1, Var(x), Bin(op2, Var(y), Var(z)), params, 33);
    } else {
      EmitVar(x, params, 35);
      EmitVar(y, params, 36);
      EmitVar(z, params, 37);
      EmitBin(op1, Var(x), Var(y), params, 34);
      EmitBin(op2, Bin(op1, Var(x), Var(y)), Var(z), params, 33);
    }
    EmitReturn(Joined(x, op1, y, op2, z), params);
  }

  /** What the passes leave: the operations and the return, the identities erased. */
  ghost predicate TwoLeft(us: seq<Ssa.Token>, inner: Ssa.BinOp, outer: Ssa.BinOp) {
    && |us| == 6 && us[4].kind == Ssa.Bin(outer) && us[4].result == 33
    && us[5].kind == Ssa.Return && us[5].args[0] == 33
    && (forall p :: 0 <= p < 4 ==> us[p].kind == Ssa.Bin(inner) || us[p].kind.Erased?)
    && (us[2].kind.Bin? <==> us[3].kind.Erased?) && us[0].kind.Erased? && us[1].kind.Erased?
  }

  /** An id that no identity yields stays where it is read. */
  lemma {:induction false} IdentityKeepsArg(ts: seq<Ssa.Token>, i: nat, p: nat, x: nat)
    requires i <= |ts| && p < |ts| && ts[p].args[0] == x
    requires forall q :: 0 <= q < |ts| && ts[q].kind.Identity? ==> ts[q].result != x
    ensures |Optimise.IdentityPass(ts, i)| == |ts| && Optimise.IdentityPass(ts, i)[p].args[0] == x
    ensures forall q :: 0 <= q < |ts| ==> Optimise.IdentityPass(ts, i)[q].result == ts[q].result
    decreases |ts| - i
  {
    if i < |ts| {
      IdentityKeepsArg(if ts[i].kind.Identity? then Ssa.Redirect(ts, i, ts[i].args[0]) else ts, i + 1, p, x);
    }
  }

  lemma {:induction false} IdentitiesGone(ts: seq<Ssa.Token>, inner: Ssa.BinOp, outer: Ssa.BinOp)
    requires TwoOps(ts, inner, outer)
    ensures TwoLeft(Optimise.IdentityPass(ts), inner, outer)
  {
    hide Optimise.IdentityPass;
    Optimise.IdentityPassShape(ts, 0);
    IdentityKeepsArg(ts, 0, 5, 33);
  }

  lemma {:induction false} NothingMatches(us: seq<Ssa.Token>, inner: Ssa.BinOp, outer: Ssa.BinOp)
    requires TwoLeft(us, inner, outer) && inner != outer
    ensures Ssa.NoIdentity(us) && Spines.DistinctKinds(us) && Optimise.Complete(us, 1)
  {
  }

  lemma {:induction false} ReturnsLast(us: seq<Ssa.Token>, inner: Ssa.BinOp, outer: Ssa.BinOp)
    requires TwoLeft(us, inner, outer)
    ensures Ssa.FirstReturn(us) == 5
  {
    hide Ssa.FirstReturn;
  }

  lemma {:induction false} NothingMerges(us: seq<Ssa.Token>, inner: Ssa.BinOp, outer: Ssa.BinOp)
    requires Ssa.WellFormed(us, 4) && TwoLeft(us, inner, outer) && inner != outer
    ensures Ssa.NoIdentity(us) && Spines.DistinctKinds(us) && Optimise.ReusedPass(us, 1) == us
    ensures Ssa.FirstReturn(us) == 5
  {
    hide Ssa.WellFormed, TwoLeft, Optimise.Complete, Optimise.ReusedPass, Ssa.FirstReturn;
    NothingMatches(us, inner, outer);
    ReturnsLast(us, inner, outer);
    Optimise.ReusedPassIdle(us, 4, 1, 0);
  }

  /** The front end on such a body: comparing one argument is enough. */
  lemma {:induction false} FrontTwoOps(x: string, op1: Ssa.BinOp, y: string, op2: Ssa.BinOp, z: string,
      params: seq<string>)
    requires x in params && y in params && z in params && |params| <= 4 && op1 != op2
    ensures var t := Body(x, op1, y, op2, z);
      && C.Compilable(t, params, 1) && C.Frontend(t, params, 1).Some?
      && var us := C.Frontend(t, params, 1).value;
         && Ssa.WellFormed(us, 4) && Ssa.NoIdentity(us) && Ssa.FirstReturn(us) == 5
         && if Tighter(op2, op1) then TwoLeft(us, op2, op1) else TwoLeft(us, op1, op2)
  {
    hide Emission.Emit, Ssa.WellFormed, TwoLeft, TwoOps, Optimise.IdentityPass, Optimise.ReusedPass, Tighter,
         Spines.ReadsAgree, Ssa.FirstReturn, Ssa.NoIdentity, Spines.DistinctKinds;
    var t := Body(x, op1, y, op2, z);
    EmitTwoOps(x, op1, y, op2, z, params);
    BodyIsBody(x, op1, y, op2, z, params);
    Emission.EmitBodyShape(t, params, 32);
    var ts := Emission.Emit(t, params, 32).value.tokens;
    C.MoreParams(ts, |params|, 4);
    var inner, outer := if Tighter(op2, op1) then op2 else op1, if Tighter(op2, op1) then op1 else op2;
    Optimise.IdentityPassShape(ts, 0);
    Optimise.IdentityPassCorrect(Exactness.FREE, Exactness.ParamTerms(4), ts, 4, 0);
    IdentitiesGone(ts, inner, outer);
    NothingMerges(Optimise.IdentityPass(ts), inner, outer);
    Spines.DistinctAgree(Optimise.IdentityPass(ts), 4, Passes.Reach(Optimise.IdentityPass(ts)));
  }

  lemma {:induction false} BodyIsBody(x: string, op1: Ssa.BinOp, y: string, op2: Ssa.BinOp, z: string,
      params: seq<string>)
    requires x in params && y in params && z in params
    ensures var t, e := Body(x, op1, y, op2, z), Joined(x, op1, y, op2, z);
      Emission.IsBody(t, params) && Emission.FirstReturned(t) == Some(e) && Emission.IsExpr(e, params)
  {
    hide Rank;
    ExprIs(op2, Var(y), Var(z), params);
    ExprIs(op1, Var(x), Bin(op2, Var(y), Var(z)), params);
    ExprIs(op1, Var(x), Var(y), params);
    ExprIs(op2, Bin(op1, Var(x), Var(y)), Var(z), params);
    assert Body(x, op1, y, op2, z).kids == [Joined(x, op1, y, op2, z)];
  }

  lemma {:induction false} ExprIs(op: Ssa.BinOp, l: Tree, r: Tree, params: seq<string>)
    requires Emission.IsExpr(l, params) && Emission.IsExpr(r, params)
    ensures Emission.IsExpr(Bin(op, l, r), params)
  {
    assert Bin(op, l, r).kids == [l, r];
  }

  // ---------- the register ----------

  lemma {:induction false} TwoCounted(us: seq<Ssa.Token>, inner: Ssa.BinOp, outer: Ssa.BinOp)
    requires TwoLeft(us, inner, outer)
    ensures L.BinCount(us, 4) == 1 && L.BinCount(us, 6) == 2
  {
    assert L.BinCount(us, 1) == 0;
    assert L.BinCount(us, 3) == if us[2].kind.Bin? then 1 else 0;
    assert L.BinCount(us, 5) == 2;
  }

  /** The code exactly as written leaves the outer result in the second temporary. */
  lemma {:induction false} InSecondTemporary(us: seq<Ssa.Token>, inner: Ssa.BinOp, outer: Ssa.BinOp)
    requires Ssa.WellFormed(us, 4) && Ssa.NoIdentity(us) && TwoLeft(us, inner, outer) && Ssa.FirstReturn(us) == 5
    ensures ResultRegister(us, L.AS_WRITTEN) == 17 && L.BinCount(us, |us|) <= 7
    ensures L.LowerTo(us, L.AS_WRITTEN, |us|).Some? && |L.LowerTo(us, L.AS_WRITTEN, |us|).value.code| <= 6
  {
    hide Ssa.WellFormed, L.LowerTo, L.BinCount, L.InfoOk;
    TwoCounted(us, inner, outer);
    L.WrittenPlaces(us, 5, 4);
    L.WrittenPolicyRegisters(us, 6);
    L.CodeAtMost(us, L.AS_WRITTEN, 6);
    L.LowerOk(us, L.AS_WRITTEN, 5);
    OnlyHolder(us, 5, L.LowerTo(us, L.AS_WRITTEN, 5).value.info, 33, 17);
  }

  lemma {:induction false} OnlyHolder(us: seq<Ssa.Token>, p: nat, info: seq<nat>, x: nat, r: nat)
    requires p <= |us| && L.InfoOk(us, p, info) && r < |info| && info[r] == x && x != 0
    ensures L.FindUsed(info, x) == Some(r)
  {
  }

  // ---------- the text ----------

  /** Pieces of text, each with its gap after it. */
  function Spaced(texts: seq<string>, gaps: seq<string>): string
    requires |gaps| == |texts|
  {
    if texts == [] then "" else texts[0] + gaps[0] + Spaced(texts[1..], gaps[1..])
  }

  /** A body that returns `x e1 y e2 z`, with its nine gaps. */
  function TextOf(x: string, e1: string, y: string, e2: string, z: string, gaps: seq<string>): string
    requires |gaps| == 9
  {
    Spaced(["{", "return", x, e1, y, e2, z, ";", "}"], gaps)
  }

  function Toks(x: string, op1: Ssa.BinOp, y: string, op2: Ssa.BinOp, z: string): seq<Tok> {
    [LBrace, KwReturn, Ident(x), Operator(Arith(op1)), Ident(y), Operator(Arith(op2)), Ident(z), Semi, RBrace]
  }

  lemma {:induction false} SpacedIsSource(toks: seq<Tok>, texts: seq<string>, gaps: seq<string>)
    requires |gaps| == |toks| == |texts| && forall i :: 0 <= i < |toks| ==> LexemeFor(toks[i]).text == texts[i]
    ensures SourceOf(toks, gaps) == Spaced(texts, gaps)
    decreases |toks|
  {
    hide LexemeFor;
    if toks != [] {
      var ls := seq(|toks|, i requires 0 <= i < |toks| => LexemeFor(toks[i]));
      assert ls[1..] == seq(|toks| - 1, i requires 0 <= i < |toks| - 1 => LexemeFor(toks[1..][i]));
      SpacedIsSource(toks[1..], texts[1..], gaps[1..]);
    }
  }

  lemma {:induction false} Texts(op: Ssa.BinOp, x: string)
    ensures LexemeFor(Operator(Arith(op))).text == Written(op) && LexemeFor(Ident(x)).text == x
    ensures LexemeFor(LBrace).text == "{" && LexemeFor(RBrace).text == "}" && LexemeFor(Semi).text == ";"
    ensures LexemeFor(KwReturn).text == "return" && LexemeFor(QMark).text == "?" && LexemeFor(Colon).text == ":"
  {
  }

  lemma {:induction false} TextIsSource(x: string, op1: Ssa.BinOp, y: string, op2: Ssa.BinOp, z: string,
      gaps: seq<string>)
    requires |gaps| == 9
    ensures TextOf(x, Written(op1), y, Written(op2), z, gaps) == SourceOf(Toks(x, op1, y, op2, z), gaps)
  {
    hide SourceOf, Written, LexemeFor, Spaced;
    Texts(op1, x);
    Texts(op2, y);
    Texts(op2, z);
    SpacedIsSource(Toks(x, op1, y, op2, z), ["{", "return", x, Written(op1), y, Written(op2), z, ";", "}"], gaps);
  }

  // ---------- what it is worth ----------

  /** Parameters with names of their own that can be written. */
  predicate PlainParams(params: seq<string>) {
    && |params| <= 4 && (forall i :: 0 <= i < |params| ==> Writable(Ident(params[i])))
    && forall i, j :: 0 <= i < j < |params| ==> params[i] != params[j]
  }

  /** The value of `a op1 b op2 c`: the tighter operator first, the left one when it is the looser. */
  ghost predicate Valued(host: Host, op1: Ssa.BinOp, op2: Ssa.BinOp, a: u32, b: u32, c: u32, v: u32) {
    if Tighter(op2, op1) then exists w :: Denotes(host, Written(op2), b, c, w) && Denotes(host, Written(op1), a, w, v)
    else exists w :: Denotes(host, Written(op1), a, b, w) && Denotes(host, Written(op2), w, c, v)
  }

  /** Called at the start of ROM, 0x8000, the machine comes back to the address in register 12 with `v` in
      register 1, memory and registers 7 to 15 as they were. */
  ghost predicate ComesBack(host: Host, s: Core, v: u32)
    requires CoreOk(s)
  {
    exists n: nat :: ComesBackIn(host, s, v, n)
  }

  ghost predicate ComesBackIn(host: Host, s: Core, v: u32, n: nat)
    requires CoreOk(s)
  {
    var t := Run(host, State(0x8000, s), n);
    && t.Some? && t.value.pc == s.cpu.r[12] && t.value.core.cpu.r[1] == v && t.value.core.mem == s.mem
    && forall q :: 7 <= q < 16 ==> t.value.core.cpu.r[q] == s.cpu.r[q]
  }

  lemma {:induction false} ReturnsAreComesBack(host: Host, s: Core, v: u32)
    requires CoreOk(s) && ReturnsWith(host, s, 1, v)
    ensures ComesBack(host, s, v)
  {
    hide Run;
    var n: nat :| ReturnsIn(host, s, 1, v, n);
    assert ComesBackIn(host, s, v, n);
  }

  lemma {:induction false} ParamHeld(host: Host, c: Cpu, params: seq<string>, i: nat)
    requires CpuOk(c) && PlainParams(params) && i < |params|
    ensures Emission.IsExpr(Var(params[i]), params)
    ensures Emission.EvalExpr(OnMachine(host), Passed(c), params, Var(params[i])) == c.r[8 + i]
  {
    hide Writable;
    var n := Emission.ParamIndex(params, params[i]).value;
    assert n == i;
    assert Exactness.Param(Ssa.ParamId(i)).Param? && Ssa.ParamId(i) in Exactness.ParamTerms(4);
  }

  lemma {:induction false} BinValue(host: Host, c: Cpu, params: seq<string>, op: Ssa.BinOp, l: Tree, r: Tree)
    requires CpuOk(c) && Emission.IsExpr(l, params) && Emission.IsExpr(r, params)
    ensures Emission.IsExpr(Bin(op, l, r), params)
    ensures var I, e := OnMachine(host), Passed(c);
      var a, b := Emission.EvalExpr(I, e, params, l), Emission.EvalExpr(I, e, params, r);
      Denotes(host, Written(op), a, b, Emission.EvalExpr(I, e, params, Bin(op, l, r)))
  {
    hide Denotes, Written, Alu, Passed;
    assert Bin(op, l, r).kids == [l, r];
    var I, e := OnMachine(host), Passed(c);
    AluDenotes(host, op, Emission.EvalExpr(I, e, params, l), Emission.EvalExpr(I, e, params, r));
  }

  lemma {:induction false} JoinedValued(host: Host, c: Cpu, params: seq<string>, i: nat, op1: Ssa.BinOp, j: nat,
                                        op2: Ssa.BinOp, k: nat)
    requires CpuOk(c) && PlainParams(params) && i < |params| && j < |params| && k < |params|
    ensures var e := Joined(params[i], op1, params[j], op2, params[k]);
      && Emission.IsExpr(e, params)
      && Valued(host, op1, op2, c.r[8 + i], c.r[8 + j], c.r[8 + k],
                Emission.EvalExpr(OnMachine(host), Passed(c), params, e))
  {
    hide Emission.EvalExpr, Emission.IsExpr, PlainParams, Passed, OnMachine, Denotes, Written, Rank;
    var x, y, z := Var(params[i]), Var(params[j]), Var(params[k]);
    ParamHeld(host, c, params, i);
    ParamHeld(host, c, params, j);
    ParamHeld(host, c, params, k);
    if Tighter(op2, op1) {
      BinValue(host, c, params, op2, y, z);
      BinValue(host, c, params, op1, x, Bin(op2, y, z));
    } else {
      BinValue(host, c, params, op1, x, y);
      BinValue(host, c, params, op2, Bin(op1, x, y), z);
    }
  }

  lemma {:induction false} BodyFits(x: string, op1: Ssa.BinOp, y: string, op2: Ssa.BinOp, z: string)
    requires 0 < Rank(Arith(op1)) && 0 < Rank(Arith(op2)) && op1 != op2
    ensures FitsJumps(LEVELS, [Body(x, op1, y, op2, z)])
    ensures BodyTokens([Body(x, op1, y, op2, z)]) == Toks(x, op1, y, op2, z)
  {
    hide LEVELS, Rank, Layered, TwoJoined, FitsTop;
    var e, t := Joined(x, op1, y, op2, z), Body(x, op1, y, op2, z);
    LeafLayered(x, Arith(op1), Arith(op2));
    LeafLayered(y, Arith(op1), Arith(op2));
    LeafLayered(z, Arith(op1), Arith(op2));
    TwoJoinedLayered(Var(x), Arith(op1), Var(y), Arith(op2), Var(z));
    LayeredIsTop(e);
    TopIsLayered(e);
    assert t.kids == [e] && [t][0] == t && [t][1..] == [];
    NoJumps(LEVELS);
    assert Render(e) == [Ident(x), Operator(Arith(op1)), Ident(y), Operator(Arith(op2)), Ident(z)];
    assert RenderJumps(LEVELS, [t]) == RenderJump(t);
    assert BodyTokens([t]) == [LBrace] + ([KwReturn] + Render(e) + [Semi]) + [RBrace];
  }

  lemma {:induction false} LeafLayered(x: string, b1: BinKind, b2: BinKind)
    ensures Layered(Var(x), if Rank(b1) < Rank(b2) then Rank(b1) else Rank(b2)) && Render(Var(x)) == [Ident(x)]
  {
  }

  lemma {:induction false} BodyNameable(x: string, op1: Ssa.BinOp, y: string, op2: Ssa.BinOp, z: string)
    requires Writable(Ident(x)) && Writable(Ident(y)) && Writable(Ident(z))
    ensures Nameable(Body(x, op1, y, op2, z))
  {
    hide Rank, Writable;
    VarNameable(x);
    VarNameable(y);
    VarNameable(z);
    BinNameable(op2, Var(y), Var(z));
    BinNameable(op1, Var(x), Bin(op2, Var(y), Var(z)));
    BinNameable(op1, Var(x), Var(y));
    BinNameable(op2, Bin(op1, Var(x), Var(y)), Var(z));
    assert Body(x, op1, y, op2, z).kids == [Joined(x, op1, y, op2, z)];
  }

  lemma {:induction false} VarNameable(x: string)
    requires Writable(Ident(x))
    ensures Nameable(Var(x))
  {
    hide Writable;
  }

  lemma {:induction false} BinNameable(op: Ssa.BinOp, l: Tree, r: Tree)
    requires Nameable(l) && Nameable(r)
    ensures Nameable(Bin(op, l, r))
  {
    assert Bin(op, l, r).kids == [l, r];
  }

  /** The text is parsed to that body. */
  lemma {:induction false} TextParses(x: string, op1: Ssa.BinOp, y: string, op2: Ssa.BinOp, z: string,
      gaps: seq<string>)
    requires 0 < Rank(Arith(op1)) && 0 < Rank(Arith(op2)) && op1 != op2 && Lexer.Blanks(gaps, 9)
    requires Writable(Ident(x)) && Writable(Ident(y)) && Writable(Ident(z))
    ensures ParseBody(LEVELS, TokensOf(TextOf(x, Written(op1), y, Written(op2), z, gaps)), 0)
            == Ok([Body(x, op1, y, op2, z)], 9)
  {
    hide LEVELS, Rank, TokensOf, ParseBody, SourceOf, Written, Writable, FitsJumps, BodyTokens, Nameable, TextOf,
         Lexer.Blank;
    var ts := [Body(x, op1, y, op2, z)];
    BodyFits(x, op1, y, op2, z);
    BodyNameable(x, op1, y, op2, z);
    BodyReadBack(ts, gaps);
    TextIsSource(x, op1, y, op2, z, gaps);
    TokensReadBackLength(x, op1, y, op2, z, gaps);
  }

  lemma {:induction false} TokensReadBackLength(x: string, op1: Ssa.BinOp, y: string, op2: Ssa.BinOp, z: string,
      gaps: seq<string>)
    requires 0 < Rank(Arith(op1)) && 0 < Rank(Arith(op2)) && Lexer.Blanks(gaps, 9)
    requires Writable(Ident(x)) && Writable(Ident(y)) && Writable(Ident(z))
    ensures TokensOf(SourceOf(Toks(x, op1, y, op2, z), gaps)) == Toks(x, op1, y, op2, z)
  {
    hide Rank, TokensOf, SourceOf, Lexer.Lexable, Lexer.Blank;
    TokensReadBack(Toks(x, op1, y, op2, z), gaps);
  }

  /** The tree compiled exactly as the compiler is written, and assembled. */
  ghost predicate TreeBecomes(t: Tree, params: seq<string>, name: string, out: seq<byte>) {
    var code := CodeOf(t, params, 1, L.AS_WRITTEN);
    && code.Some? && L.AllNamed(code.value)
    && var st := Assembler.AssembleText(Printing.Concat(Toolchain.FuncLines(name, code.value)));
       st.Some? && st.value.fixups == [] && st.value.out == out
  }

  /** The text parsed, and its tree compiled and assembled. */
  ghost predicate Becomes(text: string, params: seq<string>, name: string, out: seq<byte>) {
    var body := ParseBody(LEVELS, TokensOf(text), 0);
    body.Ok? && TreeBecomes(Descent.BodyTree(body.value), params, name, out)
  }

  lemma {:induction false} TreeRuns(host: Host, s: Core, t: Tree, params: seq<string>, name: string, e: Tree)
      returns (out: seq<byte>)
    requires C.Compilable(t, params, 1) && CoreOk(s) && RunsAsWritten(host, s, t, params, 1, L.AS_WRITTEN, name)
    requires ResultRegister(C.Frontend(t, params, 1).value, L.AS_WRITTEN) == 17
    requires Emission.FirstReturned(t) == Some(e) && Emission.IsExpr(e, params)
    ensures TreeBecomes(t, params, name, out)
    ensures out <= s.mem.rom ==> ComesBack(host, s, Emission.EvalExpr(OnMachine(host), Passed(s.cpu), params, e))
  {
    hide L.AllNamed, Assembler.AssembleText, Toolchain.FuncLines, C.Compilable, CodeOf, ResultRegister, ComesBack,
         ReturnsWith, Emission.EvalExpr, Emission.FirstReturned, Emission.IsExpr, Passed, OnMachine, C.Frontend, MemOk;
    var code := CodeOf(t, params, 1, L.AS_WRITTEN).value;
    out := Assembler.AssembleText(Printing.Concat(Toolchain.FuncLines(name, code))).value.out;
    assert Toolchain.Phys(17) == 1;
    if out <= s.mem.rom {
      ReturnsAreComesBack(host, s, Emission.EvalExpr(OnMachine(host), Passed(s.cpu), params, e));
    }
  }

  /** From characters to a number: a body that returns two different operators between parameters, in any
      layout, compiled exactly as the compiler is written, assembled, loaded at the start of ROM and
      called, leaves in register 1 what the two operators denote, the tighter one applied first. */
  lemma {:induction false} TwoOperatorWorth(host: Host, s: Core, params: seq<string>, i: nat, op1: Ssa.BinOp, j: nat,
                                            op2: Ssa.BinOp, k: nat, gaps: seq<string>, name: string)
      returns (out: seq<byte>)
    requires PlainParams(params) && i < |params| && j < |params| && k < |params|
    requires 0 < Rank(Arith(op1)) && 0 < Rank(Arith(op2)) && op1 != op2
    requires Lexer.Blanks(gaps, 9) && Toolchain.PlainName(name) && CoreOk(s)
    ensures Becomes(TextOf(params[i], Written(op1), params[j], Written(op2), params[k], gaps), params, name, out)
    ensures out <= s.mem.rom ==>
              exists v :: Valued(host, op1, op2, s.cpu.r[8 + i], s.cpu.r[8 + j], s.cpu.r[8 + k], v)
                          && ComesBack(host, s, v)
  {
    hide LEVELS, Rank, TokensOf, ParseBody, Written, Writable, TextOf, Lexer.Blank, Toolchain.PlainName, L.LowerTo,
         C.Frontend, C.Compilable, Emission.EvalExpr, Emission.IsExpr, Emission.FirstReturned, Emission.IsBody, Tighter,
         Joined, Ssa.WellFormed, L.BinCount, Valued, ComesBack, RunsAsWritten, Becomes, TreeBecomes, ResultRegister,
         TwoLeft,
         Ssa.FirstReturn, Ssa.NoIdentity, Passed, OnMachine;
    var x, y, z := params[i], params[j], params[k];
    var t := Body(x, op1, y, op2, z);
    TextParses(x, op1, y, op2, z, gaps);
    FrontTwoOps(x, op1, y, op2, z, params);
    var us := C.Frontend(t, params, 1).value;
    if Tighter(op2, op1) {
      InSecondTemporary(us, op2, op1);
    } else {
      InSecondTemporary(us, op1, op2);
    }
    BodyIsBody(x, op1, y, op2, z, params);
    JoinedValued(host, s.cpu, params, i, op1, j, op2, k);
    AsWrittenToResult(host, s, t, params, name);
    out := TreeRuns(host, s, t, params, name, Joined(x, op1, y, op2, z));
    OneStatement(TextOf(x, Written(op1), y, Written(op2), z, gaps), t, params, name, out);
  }

  lemma {:induction false} OneStatement(text: string, t: Tree, params: seq<string>, name: string, out: seq<byte>)
    requires ParseBody(LEVELS, TokensOf(text), 0).Ok? && ParseBody(LEVELS, TokensOf(text), 0).value == [t]
    requires TreeBecomes(t, params, name, out)
    ensures Becomes(text, params, name, out)
  {
    hide LEVELS, TokensOf, ParseBody, TreeBecomes;
  }

  /** How tightly an operator binds, by the characters it is written with; 0 for one the parser never
      reads, and for what is no operator. */
  ghost function RankOf(e: string): nat {
    match e
    case "*" => 1
    case "/" => 2
    case "-" => 3
    case "+" => 4
    case "<<" => 5
    case ">>" => 6
    case "<=" => 7
    case ">=" => 8
    case "<" => 9
    case ">" => 10
    case "!=" => 11
    case "&" => 12
    case "^" => 13
    case "|" => 14
    case "&&" => 15
    case "||" => 16
    case _ => 0
  }

  /** Every operator read from characters has the rank they say. */
  lemma {:induction false} RanksWritten(e: string)
    ensures (if OperatorOf(e).Some? then Rank(OperatorOf(e).value) else 0) == RankOf(e)
  {
  }

  lemma {:induction false} TwiceStops(x: string, op: Ssa.BinOp, y: string, z: string)
    requires 0 < Rank(Arith(op))
    ensures ParseTop(LEVELS, Toks(x, op, y, op, z), 2) == Ok(Bin(op, Var(x), Var(y)), 5)
  {
    hide LEVELS, Rank, ParseTop, Layered;
    var b := Arith(op);
    LeafLayered(x, b, b);
    LeafLayered(y, b, b);
    LeafLayered(z, b, b);
    TwoOperators([LBrace, KwReturn], Var(x), b, Var(y), b, Var(z), [Semi, RBrace]);
    assert Toks(x, op, y, op, z)
        == [LBrace, KwReturn] + ([Ident(x)] + [Operator(b)] + [Ident(y)] + [Operator(b)] + [Ident(z)]) + [Semi, RBrace];
  }

  lemma {:induction false} NoSemicolonAborts(toks: seq<Tok>, t: Tree)
    requires |toks| > 5 && toks[0] == LBrace && toks[1] == KwReturn && toks[2] != Semi && toks[5] != Semi
    requires ParseTop(LEVELS, toks, 2) == Ok(t, 5)
    ensures ParseBody(LEVELS, toks, 0).Abort?
  {
    hide LEVELS, ParseTop;
    assert ParseJump(LEVELS, toks, 1).Abort?;
  }

  /** The same operator twice is no expression: the compiler aborts. */
  lemma {:induction false} SameOperatorAborts(x: string, op: Ssa.BinOp, y: string, z: string, gaps: seq<string>)
    requires 0 < Rank(Arith(op)) && Lexer.Blanks(gaps, 9)
    requires Writable(Ident(x)) && Writable(Ident(y)) && Writable(Ident(z))
    ensures ParseBody(LEVELS, TokensOf(TextOf(x, Written(op), y, Written(op), z, gaps)), 0).Abort?
  {
    hide LEVELS, Rank, TokensOf, SourceOf, Written, Writable, TextOf, Lexer.Blank, ParseTop, ParseBody;
    TextIsSource(x, op, y, op, z, gaps);
    TokensReadBackLength(x, op, y, op, z, gaps);
    TwiceStops(x, op, y, z);
    NoSemicolonAborts(Toks(x, op, y, op, z), Bin(op, Var(x), Var(y)));
  }

  // ---------- conditionals ----------

  function ChoiceToks(c: string, x: string, y: string): seq<Tok> {
    [LBrace, KwReturn, Ident(c), QMark, Ident(x), Colon, Ident(y), Semi, RBrace]
  }

  function Choice(c: string, x: string, y: string): Tree {
    Tree(If, [Var(c), Var(x), Var(y)])
  }

  lemma {:induction false} VarFits(x: string)
    ensures Fits(LEVELS, |LEVELS|, Var(x)) && FitsTop(LEVELS, Var(x)) && Render(Var(x)) == [Ident(x)]
  {
    hide LEVELS;
  }

  lemma {:induction false} ChoiceSpelled(c: string, x: string, y: string)
    ensures FitsJumps(LEVELS, [Tree(Return, [Choice(c, x, y)])])
    ensures BodyTokens([Tree(Return, [Choice(c, x, y)])]) == ChoiceToks(c, x, y)
  {
    hide LEVELS;
    var e := Choice(c, x, y);
    var t := Tree(Return, [e]);
    VarFits(c);
    VarFits(x);
    VarFits(y);
    assert e.kids == [Var(c), Var(x), Var(y)] && t.kids == [e] && [t][0] == t && [t][1..] == [];
    NoJumps(LEVELS);
    assert Render(e) == [Ident(c), QMark, Ident(x), Colon, Ident(y)];
    assert RenderJumps(LEVELS, [t]) == RenderJump(t);
    assert BodyTokens([t]) == [LBrace] + ([KwReturn] + Render(e) + [Semi]) + [RBrace];
  }

  /** A conditional in characters: what comes before the question mark, between it and the colon, and
      after that. */
  lemma {:induction false} ChoiceParses(c: string, x: string, y: string, gaps: seq<string>)
    requires Writable(Ident(c)) && Writable(Ident(x)) && Writable(Ident(y)) && Lexer.Blanks(gaps, 9)
    ensures var text := Spaced(["{", "return", c, "?", x, ":", y, ";", "}"], gaps);
      ParseBody(LEVELS, TokensOf(text), 0) == Ok([Tree(Return, [Choice(c, x, y)])], 9)
  {
    hide LEVELS, TokensOf, ParseBody, SourceOf, Writable, FitsJumps, BodyTokens, Lexer.Blank, LexemeFor, Spaced,
         Lexer.Lexable;
    var ts, toks := [Tree(Return, [Choice(c, x, y)])], ChoiceToks(c, x, y);
    Texts(Ssa.Add, c);
    Texts(Ssa.Add, x);
    Texts(Ssa.Add, y);
    SpacedIsSource(toks, ["{", "return", c, "?", x, ":", y, ";", "}"], gaps);
    ChoiceSpelled(c, x, y);
    ChoiceNameable(c, x, y);
    BodyReadBack(ts, gaps);
    ChoiceReadBack(c, x, y, gaps);
  }

  lemma {:induction false} ChoiceReadBack(c: string, x: string, y: string, gaps: seq<string>)
    requires Writable(Ident(c)) && Writable(Ident(x)) && Writable(Ident(y)) && Lexer.Blanks(gaps, 9)
    ensures TokensOf(SourceOf(ChoiceToks(c, x, y), gaps)) == ChoiceToks(c, x, y)
  {
    hide TokensOf, SourceOf, Lexer.Lexable, Lexer.Blank;
    TokensReadBack(ChoiceToks(c, x, y), gaps);
  }

  lemma {:induction false} ChoiceNameable(c: string, x: string, y: string)
    requires Writable(Ident(c)) && Writable(Ident(x)) && Writable(Ident(y))
    ensures Nameable(Tree(Return, [Choice(c, x, y)]))
  {
    hide Writable;
    VarNameable(c);
    VarNameable(x);
    VarNameable(y);
    assert Choice(c, x, y).kids == [Var(c), Var(x), Var(y)];
    assert Nameable(Choice(c, x, y));
    assert Tree(Return, [Choice(c, x, y)]).kids == [Choice(c, x, y)];
  }

  lemma {:induction false} FitsShaped(k: nat, t: Tree)
    requires Fits(LEVELS, k, t)
    ensures Emission.Shaped(t)
    decreases t
  {
    hide LEVELS;
    if t.kind.Binop? {
      FitsShaped(LevelOf(LEVELS, t.kind.bin) - 1, t.kids[0]);
      FitsShaped(LevelOf(LEVELS, t.kind.bin) - 1, t.kids[1]);
    }
  }

  lemma {:induction false} TopShaped(t: Tree)
    requires FitsTop(LEVELS, t)
    ensures Emission.Shaped(t)
    decreases t
  {
    hide LEVELS, Fits;
    if t.kind.If? {
      FitsShaped(|LEVELS|, t.kids[0]);
      TopShaped(t.kids[1]);
      TopShaped(t.kids[2]);
    } else {
      FitsShaped(|LEVELS|, t);
    }
  }

  /** Of the expressions the parser reads and the emitter accepts, exactly those over parameters and
      operators yield an id with no operand missing. */
  lemma {:induction false} ParsedUsableExactly(toks: seq<Tok>, cur: nat, params: seq<string>, id: nat)
    requires ParseTop(LEVELS, toks, cur).Ok? && id > 0
    requires Emission.Emit(ParseTop(LEVELS, toks, cur).value, params, id).Some?
    ensures var t := ParseTop(LEVELS, toks, cur).value;
      Emission.Usable(Emission.Emit(t, params, id).value) <==> Emission.IsExpr(t, params)
  {
    hide LEVELS, ParseTop, Emission.Emit, Emission.IsExpr, FitsTop, StopsTop;
    LevelsDistinct();
    TopSound(LEVELS, toks, cur);
    TopShaped(ParseTop(LEVELS, toks, cur).value);
    Emission.UsableExactly(ParseTop(LEVELS, toks, cur).value, params, id);
  }

  // ---------- any expression ----------

  /** `i` is the first parameter of that name. */
  ghost predicate Names(params: seq<string>, name: string, i: nat) {
    i < |params| && params[i] == name && forall j :: 0 <= j < i ==> params[j] != name
  }

  /** What an expression means, told by what its operators denote and the registers that hold the
      parameters, the first of a name counting. */
  ghost predicate Means(host: Host, r: seq<u32>, params: seq<string>, t: Tree, v: u32)
    requires |r| == 16 && |params| <= 4
    decreases t
  {
    match t.kind
    case RefVar(name) => exists i :: Names(params, name, i) && v == r[8 + i]
    case Binop(b) =>
      && b.Arith? && |t.kids| == 2
      && exists x: u32, y: u32 ::
           Means(host, r, params, t.kids[0], x) && Means(host, r, params, t.kids[1], y)
           && Denotes(host, Written(b.op), x, y, v)
    case _ => false
  }

  lemma {:induction false} ExprMeans(host: Host, c: Cpu, params: seq<string>, t: Tree)
    requires CpuOk(c) && |params| <= 4 && Emission.IsExpr(t, params)
    ensures Means(host, c.r, params, t, Emission.EvalExpr(OnMachine(host), Passed(c), params, t))
    decreases t
  {
    hide Denotes, Written, Alu;
    match t.kind
    case RefVar(name) =>
      var n := Emission.ParamIndex(params, name).value;
      assert Exactness.Param(Ssa.ParamId(n)).Param? && Ssa.ParamId(n) in Exactness.ParamTerms(4);
      assert Names(params, name, n);
    case Binop(b) =>
      ExprMeans(host, c, params, t.kids[0]);
      ExprMeans(host, c, params, t.kids[1]);
      var I, e := OnMachine(host), Passed(c);
      AluDenotes(host, b.op, Emission.EvalExpr(I, e, params, t.kids[0]), Emission.EvalExpr(I, e, params, t.kids[1]));
    case _ => assert false;
  }

  /** At most one value is meant. */
  lemma {:induction false} MeansOne(host: Host, r: seq<u32>, params: seq<string>, t: Tree, v: u32, w: u32)
    requires |r| == 16 && |params| <= 4 && Means(host, r, params, t, v) && Means(host, r, params, t, w)
    ensures v == w
    decreases t
  {
    hide Denotes, Written;
    match t.kind
    case RefVar(name) =>
      var i :| Names(params, name, i) && v == r[8 + i];
      var j :| Names(params, name, j) && w == r[8 + j];
    case Binop(b) =>
      var x: u32, y: u32 :| Means(host, r, params, t.kids[0], x) && Means(host, r, params, t.kids[1], y)
                            && Denotes(host, Written(b.op), x, y, v);
      var x': u32, y': u32 :| Means(host, r, params, t.kids[0], x') && Means(host, r, params, t.kids[1], y')
                              && Denotes(host, Written(b.op), x', y', w);
      MeansOne(host, r, params, t.kids[0], x, x');
      MeansOne(host, r, params, t.kids[1], y, y');
      DenotesOne(host, Written(b.op), x, y, v, w);
    case _ => assert false;
  }

  /** Whatever text parses to a body the compiler handles, the value its call comes back with is the one
      its first returned expression means. */
  lemma {:induction false} TextMeans(host: Host, s: Core, text: string, params: seq<string>, compared: nat,
                                     fixed: L.Policy, name: string)
    requires ParseBody(LEVELS, TokensOf(text), 0).Ok?
    requires var t := Descent.BodyTree(ParseBody(LEVELS, TokensOf(text), 0).value);
      C.Compilable(t, params, compared) && L.CoversAbi(fixed) && FitsMachine(t, params, compared, fixed)
    requires Toolchain.PlainName(name) && CoreOk(s)
    ensures var t := Descent.BodyTree(ParseBody(LEVELS, TokensOf(text), 0).value);
      RunsAsMeant(host, s, t, params, compared, fixed, name)
  {
    hide LEVELS, TokensOf, ParseBody, RunsAsWritten, C.Compilable, FitsMachine, Descent.BodyTree, RunsAsMeant;
    var t := Descent.BodyTree(ParseBody(LEVELS, TokensOf(text), 0).value);
    TextToResult(host, s, text, params, compared, fixed, name);
    WrittenIsMeant(host, s, t, params, compared, fixed, name);
  }

  /** The listing of a body assembles, and its bytes, called at the start of ROM, come back with what the
      first returned expression means, in the register of the returned id. */
  ghost predicate RunsAsMeant(host: Host, s: Core, t: Tree, params: seq<string>, compared: nat, fixed: L.Policy,
      name: string)
    requires CoreOk(s) && compared <= Ssa.MAX_ARGS && |params| <= 4
  {
    var ts, code, e := C.Frontend(t, params, compared), CodeOf(t, params, compared, fixed), Emission.FirstReturned(t);
    && ts.Some? && code.Some? && e.Some? && L.AllNamed(code.value) && L.HasName(ResultRegister(ts.value, fixed))
    && var st := Assembler.AssembleText(Printing.Concat(Toolchain.FuncLines(name, code.value)));
       && st.Some? && st.value.fixups == []
       && (st.value.out <= s.mem.rom ==>
             exists v :: Means(host, s.cpu.r, params, e.value, v)
                         && ReturnsWith(host, s, Toolchain.Phys(ResultRegister(ts.value, fixed)), v))
  }

  lemma {:induction false} WrittenIsMeant(host: Host, s: Core, t: Tree, params: seq<string>, compared: nat,
                                          fixed: L.Policy, name: string)
    requires C.Compilable(t, params, compared) && CoreOk(s) && RunsAsWritten(host, s, t, params, compared, fixed, name)
    ensures RunsAsMeant(host, s, t, params, compared, fixed, name)
  {
    hide L.AllNamed, L.HasName, Assembler.AssembleText, Toolchain.FuncLines, CodeOf, ResultRegister, ReturnsWith,
         Emission.EvalExpr, Emission.IsExpr, Emission.IsBody, Passed, OnMachine, C.Frontend, MemOk, Means,
         Passes.ComparesEnough;
    ExprMeans(host, s.cpu, params, Emission.FirstReturned(t).value);
  }

  // ---------- an example ----------

  const ABC: seq<string> := ["a", "b", "c"]
  const SPACED: seq<string> := [" ", " ", " ", " ", " ", " ", " ", " ", "\n"]

  lemma {:induction false} LettersPlain()
    ensures PlainParams(ABC) && Lexer.Blanks(SPACED, 9)
  {
    hide Lexer.KEYWORDS, Vocabulary.RESERVED;
    Vocabulary.ReservedLong();
    Vocabulary.KeywordsReserved("a");
    Vocabulary.KeywordsReserved("b");
    Vocabulary.KeywordsReserved("c");
    assert forall i :: 0 <= i < 3 ==> Writable(Ident(ABC[i]));
  }

  const PIECES: seq<string> := ["{", "return", "a", "*", "b", "+", "c", ";", "}"]

  lemma {:induction false} ExampleEnd()
    ensures Spaced(PIECES[6..], SPACED[6..]) == "c ; }\n"
  {
    hide Spaced;
    SpacedNone(PIECES, SPACED);
    SpacedFirst(PIECES, SPACED, 8);
    SpacedFirst(PIECES, SPACED, 7);
    SpacedFirst(PIECES, SPACED, 6);
  }

  lemma {:induction false} ExampleMiddle()
    ensures Spaced(PIECES[3..], SPACED[3..]) == "* b + c ; }\n"
  {
    hide Spaced;
    ExampleEnd();
    SpacedFirst(PIECES, SPACED, 5);
    SpacedFirst(PIECES, SPACED, 4);
    SpacedFirst(PIECES, SPACED, 3);
  }

  lemma {:induction false} SpacedNone(texts: seq<string>, gaps: seq<string>)
    requires |gaps| == |texts|
    ensures Spaced(texts[|texts|..], gaps[|gaps|..]) == ""
  {
  }

  lemma {:induction false} FrontText()
    ensures "{" + " " + ("return" + " " + ("a" + " " + "* b + c ; }\n")) == "{ return a * b + c ; }\n"
  {
    assert "a" + " " + "* b + c ; }\n" == "a * b + c ; }\n";
    assert "return" + " " + "a * b + c ; }\n" == "return a * b + c ; }\n";
  }

  lemma {:induction false} ExampleWhole()
    ensures Spaced(PIECES, SPACED) == "{ return a * b + c ; }\n"
  {
    hide Spaced;
    ExampleMiddle();
    FrontText();
    SpacedFirst(PIECES, SPACED, 2);
    SpacedFirst(PIECES, SPACED, 1);
    SpacedFirst(PIECES, SPACED, 0);
    assert PIECES[0..] == PIECES && SPACED[0..] == SPACED;
    assert PIECES[2] == "a" && PIECES[1] == "return" && PIECES[0] == "{";
    assert SPACED[2] == " " && SPACED[1] == " " && SPACED[0] == " ";
  }

  lemma {:induction false} ExampleText()
    ensures "{ return a * b + c ; }\n" == TextOf("a", Written(Ssa.Mul), "b", Written(Ssa.Add), "c", SPACED)
  {
    hide Spaced, SPACED;
    ExampleWhole();
  }

  lemma {:induction false} SpacedFirst(texts: seq<string>, gaps: seq<string>, i: nat)
    requires |gaps| == |texts| && i < |texts|
    ensures Spaced(texts[i..], gaps[i..]) == texts[i] + gaps[i] + Spaced(texts[i + 1..], gaps[i + 1..])
  {
    assert texts[i..][1..] == texts[i + 1..] && gaps[i..][1..] == gaps[i + 1..];
  }

  lemma {:induction false} ProductPlus(host: Host, a: u32, b: u32, c: u32, v: u32)
    requires Valued(host, Ssa.Mul, Ssa.Add, a, b, c, v)
    ensures exists w :: IsProduct(w, a, b) && IsSum(v, w, c)
  {
    hide IsProduct, IsSum;
    var w :| Denotes(host, "*", a, b, w) && Denotes(host, "+", w, c, v);
    assert IsProduct(w, a, b) && IsSum(v, w, c);
  }

  /** The text `{ return a * b + c ; }` returns the sum of the product and `c`. */
  lemma {:induction false} SumOfProduct(host: Host, s: Core, name: string) returns (out: seq<byte>)
    requires Toolchain.PlainName(name) && CoreOk(s)
    ensures Becomes("{ return a * b + c ; }\n", ABC, name, out)
    ensures out <= s.mem.rom ==>
              exists v, w :: IsProduct(w, s.cpu.r[8], s.cpu.r[9]) && IsSum(v, w, s.cpu.r[10]) && ComesBack(host, s, v)
  {
    hide TextOf, Toolchain.PlainName, PlainParams, Lexer.Blank, Lexer.Blanks, IsProduct, IsSum, ComesBack, Becomes,
         Valued, Written, MemOk, SPACED;
    LettersPlain();
    ExampleText();
    out := TwoOperatorWorth(host, s, ABC, 0, Ssa.Mul, 1, Ssa.Add, 2, SPACED, name);
    if out <= s.mem.rom {
      var v :| Valued(host, Ssa.Mul, Ssa.Add, s.cpu.r[8], s.cpu.r[9], s.cpu.r[10], v) && ComesBack(host, s, v);
      ProductPlus(host, s.cpu.r[8], s.cpu.r[9], s.cpu.r[10], v);
    }
  }
}

/** Expressions and bodies as tokens: what the recursive descent accepts, and the trees it stands for. */
module Grammar {
  import opened Ast
  import Ssa

  // One level index serves all the precedence levels; the theorems hold for any list of distinct
  // operators, tightest first.

  /** Token types the parser tells apart; operators carry the node kind they make. */
  datatype Tok =
    | Nothing | Ident(name: string) | Literal(value: int) | Operator(op: BinKind)
    | QMark | Colon | Semi | KwReturn | LBrace | RBrace | Other

  /** The parser's sixteen levels. Equality and remainder have none. */
  const LEVELS: seq<BinKind> := [
    Arith(Ssa.Mul), Arith(Ssa.Div), Arith(Ssa.Sub), Arith(Ssa.Add), Arith(Ssa.LShift), Arith(Ssa.RShift),
    CondLte, CondGte, CondLt, CondGt, CondNeq, Arith(Ssa.And), Arith(Ssa.Xor), Arith(Ssa.Or), CondAnd, CondOr
  ]

  /** A parse, `Abort` being the compiler's abort. */
  datatype Parse<T> = Ok(value: T, next: nat) | Fail | Abort

  /** The token at `i`; past the end there is an invalid one. */
  function At(toks: seq<Tok>, i: nat): Tok {
    if i < |toks| then toks[i] else Nothing
  }

  function Leaf(kind: Kind): Tree {
    Tree(kind, [])
  }

  predicate StartsOperand(tok: Tok) {
    tok.Ident? || tok.Literal?
  }

  function OperandOf(tok: Tok): Tree
    requires StartsOperand(tok)
  {
    if tok.Ident? then Leaf(RefVar(tok.name)) else Leaf(LiteralInteger(tok.value))
  }

  // ---------- what is parsed ----------

  /** Level `k`: at most one operator of that level, between operands of the level below. An
      operator without a right operand aborts. */
  function ParseBin(ops: seq<BinKind>, k: nat, toks: seq<Tok>, cur: nat): (r: Parse<Tree>)
    requires k <= |ops|
    ensures r.Ok? ==> cur < r.next <= |toks|
    ensures r.Fail? <==> !StartsOperand(At(toks, cur))
    decreases k
  {
    if k == 0 then
      if StartsOperand(At(toks, cur)) then Ok(OperandOf(toks[cur]), cur + 1) else Fail
    else
      var l := ParseBin(ops, k - 1, toks, cur);
      if !l.Ok? || At(toks, l.next) != Operator(ops[k - 1]) then l
      else
        var r := ParseBin(ops, k - 1, toks, l.next + 1);
        if r.Ok? then Ok(Tree(Binop(ops[k - 1]), [l.value, r.value]), r.next) else Abort
  }

  /** The conditional expression above them. */
  function ParseTop(ops: seq<BinKind>, toks: seq<Tok>, cur: nat): (r: Parse<Tree>)
    ensures r.Ok? ==> cur < r.next <= |toks|
    ensures r.Fail? <==> !StartsOperand(At(toks, cur))
    decreases |toks| - cur
  {
    var c := ParseBin(ops, |ops|, toks, cur);
    if !c.Ok? || At(toks, c.next) != QMark then c
    else
      var t := ParseTop(ops, toks, c.next + 1);
      if !t.Ok? || At(toks, t.next) != Colon then Abort
      else
        var e := ParseTop(ops, toks, t.next + 1);
        if e.Ok? then Ok(Tree(If, [c.value, t.value, e.value]), e.next) else Abort
  }

  // ---------- trees and their tokens ----------

  function Render(t: Tree): seq<Tok>
    decreases t
  {
    match t.kind
    case RefVar(name) => [Ident(name)]
    case LiteralInteger(v) => [Literal(v)]
    case Binop(b) => if |t.kids| == 2 then Render(t.kids[0]) + [Operator(b)] + Render(t.kids[1]) else []
    case If =>
      if |t.kids| == 3 then Render(t.kids[0]) + [QMark] + Render(t.kids[1]) + [Colon] + Render(t.kids[2]) else []
    case _ => []
  }

  predicate IsLeaf(t: Tree) {
    (t.kind.RefVar? || t.kind.LiteralInteger?) && t.kids == []
  }

  /** The level of an operator, counted from 1; 0 for one that has none. */
  function LevelOf(ops: seq<BinKind>, b: BinKind): (j: nat)
    ensures j <= |ops| && (j > 0 ==> ops[j - 1] == b) && (j == 0 <==> b !in ops)
  {
    if ops == [] then 0
    else if ops[|ops| - 1] == b then |ops|
    else LevelOf(ops[..|ops| - 1], b)
  }

  /** Operators strictly rise in level towards the root, none above level `k`. */
  predicate Fits(ops: seq<BinKind>, k: nat, t: Tree)
    decreases t
  {
    IsLeaf(t)
    || (t.kind.Binop? && |t.kids| == 2 && 1 <= LevelOf(ops, t.kind.bin) <= k
        && Fits(ops, LevelOf(ops, t.kind.bin) - 1, t.kids[0]) && Fits(ops, LevelOf(ops, t.kind.bin) - 1, t.kids[1]))
  }

  /** Conditionals over such trees. */
  predicate FitsTop(ops: seq<BinKind>, t: Tree)
    decreases t
  {
    if t.kind.If? then
      |t.kids| == 3 && Fits(ops, |ops|, t.kids[0]) && FitsTop(ops, t.kids[1]) && FitsTop(ops, t.kids[2])
    else Fits(ops, |ops|, t)
  }

  /** `tok` is no operator of the levels above `j` up to `k`. */
  predicate NoOperator(ops: seq<BinKind>, j: nat, k: nat, tok: Tok)
    requires k <= |ops|
  {
    forall i :: j <= i < k ==> tok != Operator(ops[i])
  }

  /** Having read `t` at level `k`, the parser does not go on at `tok`: the levels of the operators
      on the right edge of `t` have had their operator, the others look for theirs. */
  predicate Stops(ops: seq<BinKind>, k: nat, t: Tree, tok: Tok)
    requires k <= |ops| && Fits(ops, k, t)
    decreases t
  {
    if t.kind.Binop? then
      var j := LevelOf(ops, t.kind.bin);
      Stops(ops, j - 1, t.kids[1], tok) && NoOperator(ops, j, k, tok)
    else NoOperator(ops, 0, k, tok)
  }

  predicate StopsTop(ops: seq<BinKind>, t: Tree, tok: Tok)
    requires FitsTop(ops, t)
    decreases t
  {
    if t.kind.If? then StopsTop(ops, t.kids[2], tok) else Stops(ops, |ops|, t, tok) && tok != QMark
  }

  predicate Distinct(ops: seq<BinKind>) {
    forall i, j :: 0 <= i < j < |ops| ==> ops[i] != ops[j]
  }

  /** `toks` from `i` to `j` spell `t`. */
  predicate Spelled(toks: seq<Tok>, i: nat, j: nat, t: Tree) {
    i <= j <= |toks| && toks[i..j] == Render(t)
  }

  // ---------- one level ----------

  lemma {:induction false} LevelAt(ops: seq<BinKind>, k: nat)
    requires Distinct(ops) && 1 <= k <= |ops|
    ensures LevelOf(ops, ops[k - 1]) == k
  {
    if k < |ops| {
      LevelAt(ops[..|ops| - 1], k);
    }
  }

  /** A tree that fits level `k` but not `k - 1` has its root there. */
  lemma {:induction false} FitsBelow(ops: seq<BinKind>, k: nat, t: Tree)
    requires 1 <= k <= |ops| && Fits(ops, k, t)
    ensures Fits(ops, k - 1, t) || (t.kind == Binop(ops[k - 1]) && |t.kids| == 2
                                    && Fits(ops, k - 1, t.kids[0]) && Fits(ops, k - 1, t.kids[1]))
  {
  }

  lemma {:induction false} StopsAbove(ops: seq<BinKind>, k: nat, t: Tree, tok: Tok)
    requires 1 <= k <= |ops| && Fits(ops, k - 1, t)
    ensures Fits(ops, k, t) && (Stops(ops, k, t, tok) <==> Stops(ops, k - 1, t, tok) && tok != Operator(ops[k - 1]))
  {
  }

  /** What is no operator stops every level. */
  lemma {:induction false} StopsAt(ops: seq<BinKind>, k: nat, t: Tree, tok: Tok)
    requires k <= |ops| && Fits(ops, k, t) && NoOperator(ops, 0, k, tok)
    ensures Stops(ops, k, t, tok)
    decreases t
  {
    if t.kind.Binop? {
      StopsAt(ops, LevelOf(ops, t.kind.bin) - 1, t.kids[1], tok);
    }
  }

  lemma {:induction false} SpelledLeaf(toks: seq<Tok>, cur: nat, t: Tree)
    requires IsLeaf(t)
    ensures |Render(t)| == 1
    ensures Spelled(toks, cur, cur + 1, t) <==> cur < |toks| && StartsOperand(toks[cur]) && OperandOf(toks[cur]) == t
  {
    if cur < |toks| {
      assert toks[cur..cur + 1] == [toks[cur]];
    }
  }

  lemma {:induction false} SpelledBinop(toks: seq<Tok>, cur: nat, c1: nat, c2: nat, l: Tree, b: BinKind, r: Tree)
    requires Spelled(toks, cur, c1, l) && At(toks, c1) == Operator(b) && Spelled(toks, c1 + 1, c2, r)
    ensures Spelled(toks, cur, c2, Tree(Binop(b), [l, r]))
  {
    assert toks[cur..c2] == toks[cur..c1] + [toks[c1]] + toks[c1 + 1..c2];
  }

  /** The tokens of a joined tree come apart. */
  lemma {:induction false} SplitSpelling(toks: seq<Tok>, i: nat, j: nat, a: seq<Tok>, x: Tok, b: seq<Tok>)
    requires i <= j <= |toks| && toks[i..j] == a + [x] + b
    ensures var m := i + |a|;
      m < j && toks[i..m] == a && At(toks, m) == x && toks[m + 1..j] == b
  {
    var s := toks[i..j];
    assert s == a + ([x] + b) && s[|a|] == x;
    assert s[..|a|] == a && s[|a| + 1..] == b;
    assert toks[i..i + |a|] == s[..|a|] && toks[i + |a| + 1..j] == s[|a| + 1..];
  }

  /** What a level accepts is spelled by what it yields. */
  lemma {:induction false} BinSound(ops: seq<BinKind>, k: nat, toks: seq<Tok>, cur: nat)
    requires Distinct(ops) && k <= |ops| && ParseBin(ops, k, toks, cur).Ok?
    ensures var r := ParseBin(ops, k, toks, cur);
      Spelled(toks, cur, r.next, r.value) && Fits(ops, k, r.value) && Stops(ops, k, r.value, At(toks, r.next))
    decreases k
  {
    hide Render, Stops, Spelled;
    var p := ParseBin(ops, k, toks, cur);
    if k == 0 {
      SpelledLeaf(toks, cur, p.value);
      StopsAt(ops, 0, p.value, At(toks, p.next));
    } else {
      BinSound(ops, k - 1, toks, cur);
      var l := ParseBin(ops, k - 1, toks, cur);
      if At(toks, l.next) == Operator(ops[k - 1]) {
        BinSound(ops, k - 1, toks, l.next + 1);
        LevelAt(ops, k);
        SpelledBinop(toks, cur, l.next, p.next, l.value, ops[k - 1], p.value.kids[1]);
        StopsAfter(ops, k, p.value, At(toks, p.next));
      } else {
        StopsAbove(ops, k, l.value, At(toks, l.next));
      }
    }
  }

  lemma {:induction false} StopsAfter(ops: seq<BinKind>, k: nat, t: Tree, tok: Tok)
    requires 1 <= k <= |ops| && Fits(ops, k, t) && t.kind.Binop? && LevelOf(ops, t.kind.bin) == k
    ensures Stops(ops, k, t, tok) <==> Stops(ops, k - 1, t.kids[1], tok)
  {
  }

  lemma {:induction false} FitsZero(ops: seq<BinKind>, t: Tree)
    ensures Fits(ops, 0, t) <==> IsLeaf(t)
  {
  }

  lemma {:induction false} RenderParts(t: Tree)
    ensures t.kind.Binop? && |t.kids| == 2 ==>
            Render(t) == Render(t.kids[0]) + [Operator(t.kind.bin)] + Render(t.kids[1])
    ensures t.kind.If? && |t.kids| == 3 ==>
              Render(t) == Render(t.kids[0]) + [QMark] + Render(t.kids[1]) + [Colon] + Render(t.kids[2])
  {
  }

  /** A level accepts every spelling of a tree that fits it, up to where it stops. */
  lemma {:induction false} BinComplete(ops: seq<BinKind>, k: nat, toks: seq<Tok>, cur: nat, t: Tree, c: nat)
    requires Distinct(ops) && k <= |ops| && Spelled(toks, cur, c, t)
    requires Fits(ops, k, t) && Stops(ops, k, t, At(toks, c))
    ensures ParseBin(ops, k, toks, cur) == Ok(t, c)
    decreases k
  {
    hide Stops, LevelOf, Render, Fits;
    if k == 0 {
      FitsZero(ops, t);
      SpelledLeaf(toks, cur, t);
    } else if Fits(ops, k - 1, t) {
      StopsAbove(ops, k, t, At(toks, c));
      BinComplete(ops, k - 1, toks, cur, t, c);
    } else {
      FitsBelow(ops, k, t);
      LevelAt(ops, k);
      var l, r, b := t.kids[0], t.kids[1], ops[k - 1];
      RenderParts(t);
      SplitSpelling(toks, cur, c, Render(l), Operator(b), Render(r));
      var c1 := cur + |Render(l)|;
      StopsAt(ops, k - 1, l, Operator(b));
      BinComplete(ops, k - 1, toks, cur, l, c1);
      StopsAfter(ops, k, t, At(toks, c));
      BinComplete(ops, k - 1, toks, c1 + 1, r, c);
      assert t.kids == [l, r];
    }
  }

  // ---------- conditionals ----------

  lemma {:induction false} SpelledIf(toks: seq<Tok>, i: nat, c1: nat, c2: nat, j: nat, c: Tree, t: Tree, e: Tree)
    requires Spelled(toks, i, c1, c) && At(toks, c1) == QMark && Spelled(toks, c1 + 1, c2, t)
    requires At(toks, c2) == Colon && Spelled(toks, c2 + 1, j, e)
    ensures Spelled(toks, i, j, Tree(If, [c, t, e]))
  {
    assert toks[i..j] == toks[i..c1] + [toks[c1]] + toks[c1 + 1..c2] + [toks[c2]] + toks[c2 + 1..j];
  }

  lemma {:induction false} TopSound(ops: seq<BinKind>, toks: seq<Tok>, cur: nat)
    requires Distinct(ops) && ParseTop(ops, toks, cur).Ok?
    ensures var r := ParseTop(ops, toks, cur);
      Spelled(toks, cur, r.next, r.value) && FitsTop(ops, r.value) && StopsTop(ops, r.value, At(toks, r.next))
    decreases |toks| - cur
  {
    hide Render, Stops, Spelled, ParseBin, Fits;
    var c := ParseBin(ops, |ops|, toks, cur);
    BinSound(ops, |ops|, toks, cur);
    if At(toks, c.next) == QMark {
      TopSound(ops, toks, c.next + 1);
      var t := ParseTop(ops, toks, c.next + 1);
      TopSound(ops, toks, t.next + 1);
      var e := ParseTop(ops, toks, t.next + 1);
      SpelledIf(toks, cur, c.next, t.next, e.next, c.value, t.value, e.value);
    } else {
      FitsNoIf(ops, |ops|, c.value);
    }
  }

  lemma {:induction false} FitsNoIf(ops: seq<BinKind>, k: nat, t: Tree)
    requires Fits(ops, k, t)
    ensures !t.kind.If?
  {
  }

  lemma {:induction false} StopsTopAt(ops: seq<BinKind>, t: Tree, tok: Tok)
    requires FitsTop(ops, t) && !tok.Operator? && tok != QMark
    ensures StopsTop(ops, t, tok)
    decreases t
  {
    if t.kind.If? {
      StopsTopAt(ops, t.kids[2], tok);
    } else {
      StopsAt(ops, |ops|, t, tok);
    }
  }

  lemma {:induction false} TopComplete(ops: seq<BinKind>, toks: seq<Tok>, cur: nat, t: Tree, c: nat)
    requires Distinct(ops) && Spelled(toks, cur, c, t) && FitsTop(ops, t) && StopsTop(ops, t, At(toks, c))
    ensures ParseTop(ops, toks, cur) == Ok(t, c)
    decreases t
  {
    hide Stops, ParseBin, Fits, Render, Spelled;
    if t.kind.If? {
      var x, y, z := t.kids[0], t.kids[1], t.kids[2];
      var c1, c2 := IfParts(toks, cur, t, c);
      StopsAt(ops, |ops|, x, QMark);
      BinComplete(ops, |ops|, toks, cur, x, c1);
      StopsTopAt(ops, y, Colon);
      TopComplete(ops, toks, c1 + 1, y, c2);
      TopComplete(ops, toks, c2 + 1, z, c);
      assert t == Tree(If, [x, y, z]);
    } else {
      BinComplete(ops, |ops|, toks, cur, t, c);
    }
  }

  lemma {:induction false} IfParts(toks: seq<Tok>, cur: nat, t: Tree, c: nat) returns (c1: nat, c2: nat)
    requires t.kind.If? && |t.kids| == 3 && Spelled(toks, cur, c, t)
    ensures Spelled(toks, cur, c1, t.kids[0]) && At(toks, c1) == QMark && Spelled(toks, c1 + 1, c2, t.kids[1])
    ensures At(toks, c2) == Colon && Spelled(toks, c2 + 1, c, t.kids[2])
  {
    hide Render;
    RenderParts(t);
    var x, y, z := Render(t.kids[0]), Render(t.kids[1]), Render(t.kids[2]);
    SplitSpelling(toks, cur, c, x + [QMark] + y, Colon, z);
    c2 := cur + |x + [QMark] + y|;
    SplitSpelling(toks, cur, c2, x, QMark, y);
    c1 := cur + |x|;
  }

  /** The parser inverts rendering, exactly: it yields a tree and a position if and only if the tree
      fits the levels, the tokens up to the position spell it, and the token there does not
      continue it. */
  lemma {:induction false} ParsesExactly(ops: seq<BinKind>, toks: seq<Tok>, cur: nat, t: Tree, c: nat)
    requires Distinct(ops)
    ensures ParseTop(ops, toks, cur) == Ok(t, c)
            <==> Spelled(toks, cur, c, t) && FitsTop(ops, t) && StopsTop(ops, t, At(toks, c))
  {
    if ParseTop(ops, toks, cur) == Ok(t, c) {
      TopSound(ops, toks, cur);
    } else if Spelled(toks, cur, c, t) && FitsTop(ops, t) && StopsTop(ops, t, At(toks, c)) {
      TopComplete(ops, toks, cur, t, c);
    }
  }

  /** No two trees share their tokens. */
  lemma {:induction false} RenderInjective(ops: seq<BinKind>, t: Tree, u: Tree)
    requires Distinct(ops) && FitsTop(ops, t) && FitsTop(ops, u) && Render(t) == Render(u)
    ensures t == u
  {
    var toks := Render(t);
    assert toks[0..|toks|] == toks;
    StopsTopAt(ops, t, Nothing);
    StopsTopAt(ops, u, Nothing);
    TopComplete(ops, toks, 0, t, |toks|);
    TopComplete(ops, toks, 0, u, |toks|);
  }

  lemma {:induction false} LevelsDistinct()
    ensures Distinct(LEVELS) && |LEVELS| == 16
  {
  }

  /** No level parses `==` or `%`. */
  lemma {:induction false} LevelsMissing()
    ensures CondEq !in LEVELS && Arith(Ssa.Rem) !in LEVELS
  {
  }

  // ---------- statements ----------

  /** A return statement; anything else is no statement. */
  function ParseJump(ops: seq<BinKind>, toks: seq<Tok>, cur: nat): (r: Parse<Tree>)
    ensures r.Ok? ==> cur < r.next <= |toks|
  {
    if At(toks, cur) != KwReturn then Fail
    else if At(toks, cur + 1) == Semi then Ok(Tree(Return, [Tree(Block, [])]), cur + 2)
    else
      var e := ParseTop(ops, toks, cur + 1);
      if e.Ok? && At(toks, e.next) == Semi then Ok(Tree(Return, [e.value]), e.next + 1) else Abort
  }

  function ParseJumps(ops: seq<BinKind>, toks: seq<Tok>, cur: nat): (r: Parse<seq<Tree>>)
    ensures !r.Fail?
    ensures r.Ok? ==> cur <= r.next && (cur <= |toks| ==> r.next <= |toks|)
    decreases |toks| - cur
  {
    var s := ParseJump(ops, toks, cur);
    if s.Abort? then Abort
    else if s.Fail? then Ok([], cur)
    else
      var more := ParseJumps(ops, toks, s.next);
      if more.Ok? then Ok([s.value] + more.value, more.next) else Abort
  }

  /** A compound statement: braces around return statements. */
  function ParseBody(ops: seq<BinKind>, toks: seq<Tok>, cur: nat): (r: Parse<seq<Tree>>)
    ensures r.Ok? ==> cur < r.next <= |toks|
  {
    if At(toks, cur) != LBrace then Fail
    else if At(toks, cur + 1) == RBrace then Ok([], cur + 2)
    else
      var ss := ParseJumps(ops, toks, cur + 1);
      if ss.Ok? && ss.value != [] && At(toks, ss.next) == RBrace then Ok(ss.value, ss.next + 1) else Abort
  }

  predicate FitsJump(ops: seq<BinKind>, t: Tree) {
    t.kind.Return? && |t.kids| == 1 && (t.kids[0] == Tree(Block, []) || FitsTop(ops, t.kids[0]))
  }

  function RenderJump(t: Tree): seq<Tok>
    requires |t.kids| == 1
  {
    [KwReturn] + Render(t.kids[0]) + [Semi]
  }

  predicate FitsJumps(ops: seq<BinKind>, ts: seq<Tree>) {
    forall i :: 0 <= i < |ts| ==> FitsJump(ops, ts[i])
  }

  function RenderJumps(ops: seq<BinKind>, ts: seq<Tree>): seq<Tok>
    requires FitsJumps(ops, ts)
  {
    if ts == [] then [] else RenderJump(ts[0]) + RenderJumps(ops, ts[1..])
  }

  lemma {:induction false} RenderNonEmpty(ops: seq<BinKind>, t: Tree)
    requires FitsTop(ops, t)
    ensures Render(t) != [] && StartsOperand(Render(t)[0])
    decreases t
  {
    if t.kind.If? {
      FitsIsTop(ops, |ops|, t.kids[0]);
      RenderNonEmpty(ops, t.kids[0]);
    } else if t.kind.Binop? {
      FitsIsTop(ops, LevelOf(ops, t.kind.bin) - 1, t.kids[0]);
      RenderNonEmpty(ops, t.kids[0]);
    }
  }

  lemma {:induction false} FitsIsTop(ops: seq<BinKind>, k: nat, t: Tree)
    requires Fits(ops, k, t) && k <= |ops|
    ensures FitsTop(ops, t)
  {
  }

  lemma {:induction false} JumpSound(ops: seq<BinKind>, toks: seq<Tok>, cur: nat)
    requires Distinct(ops) && ParseJump(ops, toks, cur).Ok?
    ensures var r := ParseJump(ops, toks, cur);
      FitsJump(ops, r.value) && toks[cur..r.next] == RenderJump(r.value)
  {
    hide ParseTop, FitsTop, StopsTop;
    var r := ParseJump(ops, toks, cur);
    if At(toks, cur + 1) == Semi {
      assert toks[cur..cur + 2] == [toks[cur], toks[cur + 1]];
    } else {
      TopSound(ops, toks, cur + 1);
      assert toks[cur..r.next] == [toks[cur]] + toks[cur + 1..r.next - 1] + [toks[r.next - 1]];
    }
  }

  lemma {:induction false} JumpComplete(ops: seq<BinKind>, toks: seq<Tok>, cur: nat, t: Tree, c: nat)
    requires Distinct(ops) && FitsJump(ops, t) && cur <= c <= |toks| && toks[cur..c] == RenderJump(t)
    ensures ParseJump(ops, toks, cur) == Ok(t, c)
  {
    hide ParseTop, FitsTop;
    var e := t.kids[0];
    assert t.kids == [e];
    assert [] + [KwReturn] + (Render(e) + [Semi]) == RenderJump(t);
    SplitSpelling(toks, cur, c, [], KwReturn, Render(e) + [Semi]);
    assert Render(e) + [Semi] + [] == Render(e) + [Semi];
    SplitSpelling(toks, cur + 1, c, Render(e), Semi, []);
    if e != Tree(Block, []) {
      RenderNonEmpty(ops, e);
      assert toks[cur + 1] == Render(e)[0];
      StopsTopAt(ops, e, Semi);
      TopComplete(ops, toks, cur + 1, e, c - 1);
    }
  }

  lemma {:induction false} JumpsSound(ops: seq<BinKind>, toks: seq<Tok>, cur: nat)
    requires Distinct(ops) && cur <= |toks| && ParseJumps(ops, toks, cur).Ok?
    ensures var r := ParseJumps(ops, toks, cur);
      FitsJumps(ops, r.value) && toks[cur..r.next] == RenderJumps(ops, r.value)
    decreases |toks| - cur
  {
    hide ParseJump, RenderJump, FitsJump;
    var s, r := ParseJump(ops, toks, cur), ParseJumps(ops, toks, cur);
    if s.Ok? {
      JumpSound(ops, toks, cur);
      JumpsSound(ops, toks, s.next);
      var more := ParseJumps(ops, toks, s.next);
      assert r.value[0] == s.value && r.value[1..] == more.value;
      assert toks[cur..r.next] == toks[cur..s.next] + toks[s.next..r.next];
    }
  }

  lemma {:induction false} JumpsComplete(ops: seq<BinKind>, toks: seq<Tok>, cur: nat, ts: seq<Tree>, c: nat)
    requires Distinct(ops) && FitsJumps(ops, ts) && cur <= c <= |toks| && toks[cur..c] == RenderJumps(ops, ts)
    requires At(toks, c) != KwReturn
    ensures ParseJumps(ops, toks, cur) == Ok(ts, c)
    decreases ts
  {
    hide ParseJump, FitsJump;
    if ts == [] {
      assert At(toks, cur) != KwReturn;
      assert ParseJump(ops, toks, cur).Fail? by {
        NoJump(ops, toks, cur);
      }
    } else {
      assert FitsJump(ops, ts[0]);
      OneKid(ops, ts[0]);
      var a, b := RenderJump(ts[0]), RenderJumps(ops, ts[1..]);
      var m := cur + |a|;
      assert toks[cur..c][..|a|] == a && toks[cur..c][|a|..] == b;
      assert toks[cur..m] == toks[cur..c][..|a|] && toks[m..c] == toks[cur..c][|a|..];
      JumpComplete(ops, toks, cur, ts[0], m);
      JumpsComplete(ops, toks, m, ts[1..], c);
      assert ts == [ts[0]] + ts[1..];
    }
  }

  lemma {:induction false} OneKid(ops: seq<BinKind>, t: Tree)
    requires FitsJump(ops, t)
    ensures |t.kids| == 1
  {
  }

  lemma {:induction false} NoJump(ops: seq<BinKind>, toks: seq<Tok>, cur: nat)
    ensures At(toks, cur) != KwReturn <==> ParseJump(ops, toks, cur).Fail?
  {
  }

  lemma {:induction false} JumpStarts(ops: seq<BinKind>, ts: seq<Tree>)
    requires FitsJumps(ops, ts) && ts != []
    ensures RenderJumps(ops, ts) != [] && RenderJumps(ops, ts)[0] == KwReturn
  {
    assert FitsJump(ops, ts[0]);
  }

  /** A body is parsed if and only if the tokens spell one, whatever follows. */
  lemma {:induction false} BodyParsesExactly(ops: seq<BinKind>, toks: seq<Tok>, cur: nat, ts: seq<Tree>, c: nat)
    requires Distinct(ops)
    ensures ParseBody(ops, toks, cur) == Ok(ts, c)
            <==> FitsJumps(ops, ts) && cur <= c <= |toks| && toks[cur..c] == [LBrace] + RenderJumps(ops, ts) + [RBrace]
  {
    hide ParseJumps, RenderJumps;
    var p := ParseBody(ops, toks, cur);
    if p == Ok(ts, c) {
      assert toks[cur..c] == [toks[cur]] + toks[cur + 1..c - 1] + [toks[c - 1]];
      if At(toks, cur + 1) == RBrace {
        NoJumps(ops);
      } else {
        JumpsSound(ops, toks, cur + 1);
      }
    } else if FitsJumps(ops, ts) && cur <= c <= |toks| && toks[cur..c] == [LBrace] + RenderJumps(ops, ts) + [RBrace] {
      BodyComplete(ops, toks, cur, ts, c);
    }
  }

  lemma {:induction false} BodyComplete(ops: seq<BinKind>, toks: seq<Tok>, cur: nat, ts: seq<Tree>, c: nat)
    requires Distinct(ops) && FitsJumps(ops, ts)
    requires cur <= c <= |toks| && toks[cur..c] == [LBrace] + RenderJumps(ops, ts) + [RBrace]
    ensures ParseBody(ops, toks, cur) == Ok(ts, c)
  {
    hide ParseJumps, RenderJumps, FitsJumps;
    var mid := RenderJumps(ops, ts);
    assert [] + [LBrace] + (mid + [RBrace]) == [LBrace] + mid + [RBrace];
    SplitSpelling(toks, cur, c, [], LBrace, mid + [RBrace]);
    assert mid + [RBrace] + [] == mid + [RBrace];
    SplitSpelling(toks, cur + 1, c, mid, RBrace, []);
    if ts == [] {
      NoJumps(ops);
    } else {
      JumpStarts(ops, ts);
      assert toks[cur + 1] == toks[cur + 1..cur + 1 + |mid|][0] == mid[0];
      JumpsComplete(ops, toks, cur + 1, ts, c - 1);
    }
  }

  lemma {:induction false} NoJumps(ops: seq<BinKind>)
    ensures RenderJumps(ops, []) == []
  {
  }
}

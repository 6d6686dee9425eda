/** The parser's functions, one method each.

    A failed parse leaves cursor and arena exactly as found, a parse fills the target block, and
    an abort is where the grammar has no tree. Every method is proved against the function of
    the grammar that describes its production. */
module Descent {
  import opened Options
  import opened Ast
  import opened Coalesce
  import opened Grammar
  import opened Parser

  datatype Outcome = Parsed | NoParse | Aborted

  /** What a production did, `spec` being what the grammar says: nothing when it fails, and when it
      succeeds a tree in the target that normalises to the grammar's. */
  ghost predicate Did(spec: Parse<Tree>, out: Outcome, u: Tree, g: Graph, h: Graph, n: nat, cur: nat, cur': nat) {
    && (out.NoParse? <==> spec.Fail?) && (out.Aborted? <==> spec.Abort?)
    && (out.NoParse? ==> h == g && cur' == cur)
    && (out.Parsed? ==> spec == Ok(Norm(u), cur') && Landed(g, h, n, [u]))
  }

  lemma {:induction false} NormBinop(b: BinKind, u: Tree, v: Tree)
    ensures Norm(Tree(Binop(b), [Tree(Block, [u]), Tree(Block, [v])])) == Tree(Binop(b), [Norm(u), Norm(v)])
  {
    assert Tree(Block, [u]).kids == [u] && Tree(Block, [v]).kids == [v];
    var w := Tree(Binop(b), [Tree(Block, [u]), Tree(Block, [v])]);
    assert Norm(w).kids == [Norm(w.kids[0]), Norm(w.kids[1])];
  }

  lemma {:induction false} NormIf(c: Tree, t: Tree, e: Tree)
    ensures Norm(Tree(If, [Tree(Block, [c]), Tree(Block, [t]), Tree(Block, [e])]))
            == Tree(If, [Norm(c), Norm(t), Norm(e)])
  {
    assert Tree(Block, [c]).kids == [c] && Tree(Block, [t]).kids == [t] && Tree(Block, [e]).kids == [e];
    var w := Tree(If, [Tree(Block, [c]), Tree(Block, [t]), Tree(Block, [e])]);
    assert Norm(w).kids == [Norm(w.kids[0]), Norm(w.kids[1]), Norm(w.kids[2])];
  }

  lemma {:induction false} NormSingle(u: Tree)
    ensures Norm(Tree(Block, [u])) == Norm(u)
  {
    assert Tree(Block, [u]).kids == [u];
  }

  lemma {:induction false} NormOperand(tok: Tok)
    requires StartsOperand(tok)
    ensures Norm(OperandOf(tok)) == OperandOf(tok)
  {
    assert Norm(OperandOf(tok)).kids == [];
  }

  /** A level finished at its left operand: the target, empty, takes over its block, or gets it as a child. */
  lemma {:induction false} OperandLands(g0: Graph, n: nat, g2: Graph, u: Tree)
    requires IsBlock(g0, n) && Landed(WithNode(g0, EMPTY_BLOCK), g2, |g0.nodes|, [u])
    ensures IsBlock(g2, n) && n != |g0.nodes| < |g2.nodes| && Slots(g2, n) == Slots(g0, n)
    ensures Slots(g0, n) == [] ==> Landed(g0, g2.(nodes := g2.nodes[n := g2.nodes[|g0.nodes|]]), n, [u])
    ensures Slots(g0, n) != [] ==> Landed(g0, WithChild(g2, n, |g0.nodes|), n, [Tree(Block, [u])])
  {
    hide Above, Landed, WithChild;
    var l := |g0.nodes|;
    FreshBlock(g0, g0, g2, u);
    KeptBlock(g0, g2, n);
    if Slots(g0, n) == [] {
      Copied(g0, g2, n, l, [u]);
    } else {
      Attached(g0, g2, n, l, Tree(Block, [u]));
    }
  }

  lemma {:induction false} LeafLands(g: Graph, n: nat, u: Tree)
    requires IsBlock(g, n) && u.kids == []
    ensures var g1 := WithNode(g, Node(u.kind, [], None));
      IsBlock(g1, n) && n != |g.nodes| && Landed(g, WithChild(g1, n, |g.nodes|), n, [u])
  {
    hide Landed, WithChild;
    var g1 := WithNode(g, Node(u.kind, [], None));
    assert Above(g1, |g.nodes|, |g.nodes|, u);
    Attached(g, g1, n, |g.nodes|, u);
  }

  class Parsing {
    const tokens: seq<Tok>
    const ops: seq<BinKind>
    const arena: Arena
    var cur: nat

    constructor (tokens: seq<Tok>, ops: seq<BinKind>, arena: Arena)
      ensures this.tokens == tokens && this.ops == ops && this.arena == arena && cur == 0
    {
      this.tokens, this.ops, this.arena := tokens, ops, arena;
      cur := 0;
    }

    ghost function G(): Graph
      reads arena
    {
      arena.G()
    }

    function Peek(): Tok
      reads this
    {
      At(tokens, cur)
    }

    method NextToken()
      modifies this
      ensures cur == old(cur) + 1
    {
      cur := cur + 1;
    }

    /** A new block unless `n` is an empty one. */
    method PushBlockCoalesce(n: nat) returns (inner: nat, isNew: bool)
      requires IsBlock(G(), n)
      modifies arena
      ensures isNew <==> old(Slots(G(), n) != [])
      ensures isNew ==> G() == WithNode(old(G()), EMPTY_BLOCK) && inner == |old(G()).nodes|
      ensures !isNew ==> G() == old(G()) && inner == n
      ensures IsBlock(G(), inner) && Slots(G(), inner) == []
    {
      KeptWithNode(G(), EMPTY_BLOCK);
      inner := n;
      isNew := arena.nodes[n].childs.Some? && arena.arrays[arena.nodes[n].childs.value] != [];
      if isNew {
        inner := arena.PushNode(EMPTY_BLOCK);
      }
    }

    method PopBlockCoalesce(inner: nat, isNew: bool)
      requires isNew ==> inner + 1 == |G().nodes|
      modifies arena
      ensures G() == if isNew then old(G()).(nodes := old(G()).nodes[..inner]) else old(G())
    {
      if isNew {
        arena.PopNode(inner);
      }
    }

    method Primary(expr: nat) returns (out: Outcome, ghost u: Tree)
      requires IsBlock(G(), expr)
      modifies this, arena
      ensures Did(ParseBin(ops, 0, tokens, old(cur)), out, u, old(G()), G(), expr, old(cur), cur)
    {
      hide Landed, IsBlock, WithChild, WithNode, Norm;
      var tok := Peek();
      u := Leaf(Invalid);
      if !StartsOperand(tok) {
        return NoParse, u;
      }
      u := OperandOf(tok);
      NormOperand(tok);
      LeafLands(G(), expr, u);
      var kind := if tok.Ident? then RefVar(tok.name) else LiteralInteger(tok.value);
      var primary := arena.PushNode(Node(kind, [], None));
      NextToken();
      arena.PushChild(expr, primary);
      return Parsed, u;
    }

    /** What an operand parsed into a block that has children comes to: it is left in a block of its
        own that nothing refers to. */
    ghost predicate Lost(spec: Parse<Tree>, out: Outcome, g: Graph, h: Graph, c: nat, c': nat) {
      && (out.Parsed? <==> spec.Ok?) && (out.NoParse? <==> spec.Fail?)
      && (out.NoParse? ==> h == g && c' == c) && (out.Parsed? ==> c' == spec.next && Kept(g, h))
    }

    method Postfix(expr: nat) returns (out: Outcome, ghost u: Tree)
      requires IsBlock(G(), expr)
      modifies this, arena
      ensures old(Slots(G(), expr)) == [] ==>
                Did(ParseBin(ops, 0, tokens, old(cur)), out, u, old(G()), G(), expr, old(cur), cur)
      ensures old(Slots(G(), expr)) != [] ==>
              Lost(ParseBin(ops, 0, tokens, old(cur)), out, old(G()), G(), old(cur), cur)
    {
      hide Landed, IsBlock, WithNode, Norm, Slots;
      ghost var g0 := G();
      KeptWithNode(g0, EMPTY_BLOCK);
      var inner, isNew := PushBlockCoalesce(expr);
      ghost var g1 := G();
      out, u := Primary(inner);
      if out.Parsed? {
        if isNew {
          KeptLanded(g0, g1, G(), inner, [u]);
        }
        return;
      }
      PopBlockCoalesce(inner, isNew);
    }

    method Unary(expr: nat) returns (out: Outcome, ghost u: Tree)
      requires IsBlock(G(), expr)
      modifies this, arena
      ensures old(Slots(G(), expr)) == [] ==>
                Did(ParseBin(ops, 0, tokens, old(cur)), out, u, old(G()), G(), expr, old(cur), cur)
      ensures old(Slots(G(), expr)) != [] ==>
              Lost(ParseBin(ops, 0, tokens, old(cur)), out, old(G()), G(), old(cur), cur)
    {
      hide Landed, IsBlock, WithNode, Norm, Slots;
      ghost var g0 := G();
      KeptWithNode(g0, EMPTY_BLOCK);
      var inner, isNew := PushBlockCoalesce(expr);
      ghost var g1 := G();
      out, u := Postfix(inner);
      if out.Parsed? {
        if isNew {
          KeptLanded(g0, g1, G(), inner, [u]);
        }
        return;
      }
      PopBlockCoalesce(inner, isNew);
    }

    method Cast(expr: nat) returns (out: Outcome, ghost u: Tree)
      requires IsBlock(G(), expr) && Slots(G(), expr) == []
      modifies this, arena
      ensures Did(ParseBin(ops, 0, tokens, old(cur)), out, u, old(G()), G(), expr, old(cur), cur)
    {
      out, u := Unary(expr);
    }

    /** Precedence level `k`; level 0 is the cast expression. The retry under the lock never succeeds. */
    method Binary(k: nat, expr: nat, lock: bool) returns (out: Outcome, ghost u: Tree)
      requires k <= |ops| && IsBlock(G(), expr) && (k == 0 ==> Slots(G(), expr) == [])
      modifies this, arena
      ensures Did(ParseBin(ops, k, tokens, old(cur)), out, u, old(G()), G(), expr, old(cur), cur)
      decreases k, if lock then 1 else 2
    {
      hide Landed, IsBlock, WithChild, WithNode, Norm, Slots, Kept;
      if k == 0 {
        out, u := Cast(expr);
        return;
      }
      ghost var g0 := G();
      KeptWithNode(g0, EMPTY_BLOCK);
      var lhs := arena.PushNode(EMPTY_BLOCK);
      var left;
      left, u := Binary(k - 1, lhs, false);
      ghost var g2 := G();
      match left {
        case Aborted =>
          return Aborted, u;
        case NoParse =>
          if !lock {
            var again;
            again, u := Binary(k, lhs, true);
            assert again.NoParse?;
          }
          arena.PopNode(lhs);
          return NoParse, u;
        case Parsed =>
          OperandLands(g0, expr, g2, u);
          if Peek() != Operator(ops[k - 1]) {
            arena.PushChildCoalesce(expr, lhs);
            NormSingle(u);
            u := if Slots(g0, expr) == [] then u else Tree(Block, [u]);
            return Parsed, u;
          }
          out, u := RightOperand(k, expr, lhs, g0, u);
      }
    }

    /** The operator of level `k` is next, its left operand in the block `lhs`. */
    method RightOperand(k: nat, expr: nat, lhs: nat, ghost g0: Graph, ghost u: Tree)
        returns (out: Outcome, ghost w: Tree)
      requires 1 <= k <= |ops| && IsBlock(g0, expr) && lhs == |g0.nodes|
      requires Landed(WithNode(g0, EMPTY_BLOCK), G(), lhs, [u])
      modifies this, arena
      ensures var r := ParseBin(ops, k - 1, tokens, old(cur) + 1);
        if r.Ok? then
          && out.Parsed? && cur == r.next && Norm(w) == Tree(Binop(ops[k - 1]), [Norm(u), r.value])
          && Landed(g0, G(), expr, [w])
        else out.Aborted?
      decreases k, 0
    {
      hide Landed, IsBlock, WithChild, WithNode, Norm, Slots, Kept, ParseBin;
      ghost var g2 := G();
      KeptWithNode(g2, EMPTY_BLOCK);
      var rhs := arena.PushNode(EMPTY_BLOCK);
      ghost var node := Node(Binop(ops[k - 1]), [lhs, rhs], None);
      KeptWithNode(WithNode(g2, EMPTY_BLOCK), node);
      KeptBlock(WithNode(g2, EMPTY_BLOCK), WithNode(WithNode(g2, EMPTY_BLOCK), node), rhs);
      var op := arena.PushNode(Node(Binop(ops[k - 1]), [lhs, rhs], None));
      NextToken();
      var right;
      ghost var v: Tree;
      right, v := Binary(k - 1, rhs, false);
      w := Tree(Binop(ops[k - 1]), [Tree(Block, [u]), Tree(Block, [v])]);
      if !right.Parsed? {
        return Aborted, w;
      }
      BinopLands(g0, expr, g2, u, ops[k - 1], G(), v);
      arena.PushChild(expr, op);
      NormBinop(ops[k - 1], u, v);
      return Parsed, w;
    }

    method Conditional(expr: nat) returns (out: Outcome, ghost u: Tree)
      requires IsBlock(G(), expr) && cur <= |tokens|
      modifies this, arena
      ensures Did(ParseTop(ops, tokens, old(cur)), out, u, old(G()), G(), expr, old(cur), cur)
      decreases |tokens| - cur, 0, 0
    {
      hide Landed, IsBlock, WithChild, WithNode, Norm, Slots, Kept, ParseBin;
      ghost var g0 := G();
      KeptWithNode(g0, EMPTY_BLOCK);
      var condExpr := arena.PushNode(EMPTY_BLOCK);
      var cond;
      cond, u := Binary(|ops|, condExpr, false);
      if cond.Aborted? {
        return Aborted, u;
      }
      if cond.NoParse? {
        arena.PopNode(condExpr);
        return NoParse, u;
      }
      if Peek() == QMark {
        out, u := Branches(expr, condExpr, g0, u);
        return;
      }
      ConditionLands(g0, expr, G(), u);
      arena.PushChild(expr, condExpr);
      NormSingle(u);
      return Parsed, Tree(Block, [u]);
    }

    /** A question mark is next, the condition in the block `condExpr`. */
    method Branches(expr: nat, condExpr: nat, ghost g0: Graph, ghost u: Tree) returns (out: Outcome, ghost w: Tree)
      requires IsBlock(g0, expr) && condExpr == |g0.nodes| && cur < |tokens|
      requires Landed(WithNode(g0, EMPTY_BLOCK), G(), condExpr, [u])
      modifies this, arena
      ensures var t := ParseTop(ops, tokens, old(cur) + 1);
        if t.Ok? && At(tokens, t.next) == Colon && ParseTop(ops, tokens, t.next + 1).Ok? then
          var e := ParseTop(ops, tokens, t.next + 1);
          && out.Parsed? && cur == e.next && Norm(w) == Tree(If, [Norm(u), t.value, e.value])
          && Landed(g0, G(), expr, [w])
        else out.Aborted?
      decreases |tokens| - cur, 0, 0
    {
      hide Landed, IsBlock, WithChild, Norm, Slots, Kept, ParseTop, WithNode;
      ghost var g2 := G();
      var thenExpr := arena.PushNode(EMPTY_BLOCK);
      var elseExpr := arena.PushNode(EMPTY_BLOCK);
      var ifExpr := arena.PushNode(Node(If, [condExpr, thenExpr, elseExpr], None));
      PushedForIf(g0, g2);
      assert G() == WithIf(g0, g2);
      NextToken();
      w := u;
      var thenOut, elseOut;
      ghost var t, e: Tree;
      thenOut, t := Expression(thenExpr, false);
      if !thenOut.Parsed? || Peek() != Colon {
        return Aborted, w;
      }
      NextToken();
      ghost var g4 := G();
      LandedOther(WithIf(g0, g2), g4, thenExpr, [t], elseExpr);
      elseOut, e := Conditional(elseExpr);
      if !elseOut.Parsed? {
        return Aborted, w;
      }
      IfLands(g0, expr, g2, u, g4, t, G(), e);
      arena.PushChild(expr, ifExpr);
      NormIf(u, t, e);
      return Parsed, Tree(If, [Tree(Block, [u]), Tree(Block, [t]), Tree(Block, [e])]);
    }

    /** What is no conditional expression starts with no operand either, so that the assignment
        itself is never reached. */
    method Assignment(expr: nat) returns (out: Outcome, ghost u: Tree)
      requires IsBlock(G(), expr) && cur <= |tokens|
      modifies this, arena
      ensures Did(ParseTop(ops, tokens, old(cur)), out, u, old(G()), G(), expr, old(cur), cur)
      decreases |tokens| - cur, 1, 0
    {
      hide Landed, IsBlock, WithChild, Norm, Slots, Kept, WithNode;
      ghost var g0 := G();
      out, u := Conditional(expr);
      if !out.NoParse? {
        return;
      }
      var lhsExpr := arena.PushNode(EMPTY_BLOCK);
      var rhsExpr := arena.PushNode(EMPTY_BLOCK);
      var assignExpr := arena.PushNode(Node(Binop(Assign), [lhsExpr, lhsExpr], None));
      PushedForAssignment(g0);
      ghost var none;
      out, none := Unary(lhsExpr);
      assert out.NoParse?;
      arena.PopNode(assignExpr);
      arena.PopNode(rhsExpr);
      arena.PopNode(lhsExpr);
    }

    /** The retry under the lock never succeeds here either. */
    method Expression(expr: nat, lock: bool) returns (out: Outcome, ghost u: Tree)
      requires IsBlock(G(), expr) && cur <= |tokens|
      modifies this, arena
      ensures Did(ParseTop(ops, tokens, old(cur)), out, u, old(G()), G(), expr, old(cur), cur)
      decreases |tokens| - cur, 2, if lock then 0 else 1
    {
      hide Landed, IsBlock, Norm;
      out, u := Assignment(expr);
      if out.NoParse? && !lock {
        var again;
        again, u := Expression(expr, true);
        assert again.NoParse?;
      }
    }

    // ---------- statements ----------

    method Jump(expr: nat) returns (out: Outcome, ghost u: Tree)
      requires IsBlock(G(), expr) && cur <= |tokens|
      modifies this, arena
      ensures Did(ParseJump(ops, tokens, old(cur)), out, u, old(G()), G(), expr, old(cur), cur)
    {
      hide Landed, IsBlock, WithChild, Norm, Slots, Kept, ParseTop, WithNode;
      u := Leaf(Invalid);
      if Peek() != KwReturn {
        return NoParse, u;
      }
      ghost var g0 := G();
      var inner := arena.PushNode(EMPTY_BLOCK);
      var ret := arena.PushNode(Node(Return, [inner], None));
      PushedForReturn(g0);
      ghost var g1 := G();
      NextToken();
      if Peek() == Semi {
        NextToken();
        EmptyReturnLands(g0, expr);
        arena.PushChild(expr, ret);
        u := Tree(Return, [Tree(Block, [])]);
        return Parsed, u;
      }
      ghost var v: Tree;
      out, v := Expression(inner, false);
      if !out.Parsed? || Peek() != Semi {
        return Aborted, u;
      }
      NextToken();
      ReturnLands(g0, expr, G(), v);
      arena.PushChild(expr, ret);
      return Parsed, Tree(Return, [Tree(Block, [v])]);
    }

    /** Statements up to the first token that starts none; they land in `expr` if it was empty, and in
        a block nothing refers to if it was not. */
    method StatementList(expr: nat) returns (out: Outcome, ghost us: seq<Tree>)
      requires IsBlock(G(), expr) && cur <= |tokens|
      modifies this, arena
      ensures DidAll(ParseJumps(ops, tokens, old(cur)), out, us, old(G()), G(), expr, old(cur), cur)
    {
      hide Landed, Norm, ParseJump, Slots, IsBlock, WithNode, Kept;
      ghost var g0, start := G(), cur;
      KeptWithNode(g0, EMPTY_BLOCK);
      KeptSelf(g0);
      var inner, isNew := PushBlockCoalesce(expr);
      ghost var g1 := G();
      ghost var u: Tree;
      us := [];
      out, u := Jump(inner);
      if !out.Parsed? {
        if out.NoParse? {
          PopBlockCoalesce(inner, isNew);
        }
        return;
      }
      us := [u];
      var more := true;
      JoinedFirst(ops, tokens, start, cur, u);
      while more
        invariant cur <= |tokens| && start < cur && us != []
        invariant Landed(g1, G(), inner, us)
        invariant Joined(ParseJumps(ops, tokens, start), us, ParseJumps(ops, tokens, cur))
        invariant !more ==> ParseJump(ops, tokens, cur).Fail?
        decreases |tokens| - cur, more
      {
        ghost var g2, c := G(), cur;
        LandedBlock(g1, g2, inner, us);
        var next;
        next, u := Jump(inner);
        if next.Aborted? {
          return Aborted, us;
        }
        if next.Parsed? {
          LandedTwice(g1, g2, G(), inner, us, u);
          JoinedNext(ops, tokens, start, c, cur, us, u);
          us := us + [u];
        }
        more := next.Parsed?;
      }
      assert NormAll(us) + [] == NormAll(us);
      if isNew {
        KeptLanded(g0, g1, G(), inner, us);
      }
      return Parsed, us;
    }

    /** A compound statement; its statements land in `expr` if it was empty. */
    method Compound(expr: nat) returns (out: Outcome, ghost us: seq<Tree>)
      requires IsBlock(G(), expr) && cur <= |tokens|
      modifies this, arena
      ensures var spec := ParseBody(ops, tokens, old(cur));
        && (out.Parsed? <==> spec.Ok?) && (out.Aborted? <==> spec.Abort?)
        && (out.NoParse? ==> G() == old(G()) && cur == old(cur))
        && (out.Parsed? ==> spec == Ok(NormAll(us), cur) && LandedOrLost(old(G()), G(), expr, us))
    {
      hide Landed, Norm, ParseJumps, Slots, IsBlock, Kept;
      KeptSelf(G());
      us := [];
      if Peek() != LBrace {
        return NoParse, us;
      }
      NextToken();
      if Peek() == RBrace {
        NextToken();
        LandedNothing(G(), expr);
        return Parsed, us;
      }
      out, us := StatementList(expr);
      if !out.Parsed? || Peek() != RBrace {
        return Aborted, us;
      }
      NextToken();
    }

    /** Parses a function body into a fresh block and coalesces it. */
    method Body() returns (out: Outcome, root: nat)
      requires cur <= |tokens|
      modifies this, arena
      ensures var spec := ParseBody(ops, tokens, old(cur));
        && (out.Parsed? <==> spec.Ok?) && (out.Aborted? <==> spec.Abort?)
        && (out.NoParse? ==> G() == old(G()) && cur == old(cur))
        && (out.Parsed? ==> cur == spec.next && Unfolds(G(), root, BodyTree(spec.value)))
    {
      hide Landed, Norm, ParseBody, Slots, IsBlock, Unfolds, WithNode;
      ghost var g0 := G();
      KeptWithNode(g0, EMPTY_BLOCK);
      root := arena.PushNode(EMPTY_BLOCK);
      ghost var g1 := G();
      ghost var us;
      out, us := Compound(root);
      match out {
        case Aborted =>
        case NoParse => arena.PopNode(root);
        case Parsed =>
          FilledBlock(g1, G(), root, us, root);
          AboveUnfolds(G(), root, root, Tree(Block, us));
          NormBody(us);
          root := arena.CoalesceTree(root, Tree(Block, us));
      }
    }
  }

  // ---------- what the larger productions leave ----------

  lemma {:induction false} ConditionLands(g0: Graph, n: nat, g2: Graph, u: Tree)
    requires IsBlock(g0, n) && Landed(WithNode(g0, EMPTY_BLOCK), g2, |g0.nodes|, [u])
    ensures IsBlock(g2, n) && n != |g0.nodes| && Landed(g0, WithChild(g2, n, |g0.nodes|), n, [Tree(Block, [u])])
  {
    hide Above, Landed, WithChild;
    FreshBlock(g0, g0, g2, u);
    KeptBlock(g0, g2, n);
    Attached(g0, g2, n, |g0.nodes|, Tree(Block, [u]));
  }

  lemma {:induction false} PushedForIf(g0: Graph, g2: Graph)
    ensures var h, r := WithIf(g0, g2), |g2.nodes|;
      && h == WithNode(WithNode(WithNode(g2, EMPTY_BLOCK), EMPTY_BLOCK), Node(If, [|g0.nodes|, r, r + 1], None))
      && |WithNode(g2, EMPTY_BLOCK).nodes| == r + 1 && |WithNode(WithNode(g2, EMPTY_BLOCK), EMPTY_BLOCK).nodes| == r + 2
      && |h.nodes| == r + 3 && IsBlock(h, r) && Slots(h, r) == [] && IsBlock(h, r + 1) && Slots(h, r + 1) == []
  {
    WithIfKeeps(g0, g2);
  }

  lemma {:induction false} PushedForAssignment(g: Graph)
    ensures var l := |g.nodes|;
      var g1 := WithNode(g, EMPTY_BLOCK);
      var g2 := WithNode(g1, EMPTY_BLOCK);
      var g3 := WithNode(g2, Node(Binop(Assign), [l, l], None));
      && |g1.nodes| == l + 1 && |g2.nodes| == l + 2 && |g3.nodes| == l + 3
      && IsBlock(g3, l) && Slots(g3, l) == []
      && g3.(nodes := g3.nodes[..l + 2]) == g2 && g2.(nodes := g2.nodes[..l + 1]) == g1
      && g1.(nodes := g1.nodes[..l]) == g
  {
    KeptWithNode(g, EMPTY_BLOCK);
    var g1 := WithNode(g, EMPTY_BLOCK);
    KeptWithNode(g1, EMPTY_BLOCK);
    var g2 := WithNode(g1, EMPTY_BLOCK);
    KeptWithNode(g2, Node(Binop(Assign), [|g.nodes|, |g.nodes|], None));
  }

  /** The arena with the block of a return and the return pushed. */
  function WithReturn(g: Graph): Graph {
    WithNode(WithNode(g, EMPTY_BLOCK), Node(Return, [|g.nodes|], None))
  }

  lemma {:induction false} PushedForReturn(g: Graph)
    ensures var h, l := WithReturn(g), |g.nodes|;
      && h == WithNode(WithNode(g, EMPTY_BLOCK), Node(Return, [l], None)) && |WithNode(g, EMPTY_BLOCK).nodes| == l + 1
      && Kept(g, h) && |h.nodes| == l + 2 && h.nodes[l + 1] == Node(Return, [l], None)
      && IsBlock(h, l) && Slots(h, l) == []
  {
  }

  lemma {:induction false} EmptyReturnLands(g0: Graph, n: nat)
    requires IsBlock(g0, n)
    ensures var h, r, u := WithReturn(g0), |g0.nodes| + 1, Tree(Return, [Tree(Block, [])]);
      IsBlock(h, n) && n != r && Landed(g0, WithChild(h, n, r), n, [u]) && Norm(u) == u
  {
    hide Landed, WithChild;
    var h, l, u := WithReturn(g0), |g0.nodes|, Tree(Return, [Tree(Block, [])]);
    PushedForReturn(g0);
    assert Above(h, l, l, Tree(Block, []));
    JoinedNode(h, l + 1, l, Return, [l], [Tree(Block, [])]);
    Attached(g0, h, n, l + 1, u);
    assert Norm(Tree(Block, [])).kids == [];
    assert Norm(u).kids == [Norm(u.kids[0])];
  }

  lemma {:induction false} ReturnLands(g0: Graph, n: nat, g: Graph, v: Tree)
    requires IsBlock(g0, n) && Landed(WithReturn(g0), g, |g0.nodes|, [v])
    ensures var r, u := |g0.nodes| + 1, Tree(Return, [Tree(Block, [v])]);
      IsBlock(g, n) && n != r && Landed(g0, WithChild(g, n, r), n, [u]) && Norm(u) == Tree(Return, [Norm(v)])
  {
    hide Landed, WithChild, Above, WithReturn;
    var g1, l, u := WithReturn(g0), |g0.nodes|, Tree(Return, [Tree(Block, [v])]);
    PushedForReturn(g0);
    KeptLanded(g0, g1, g, l, [v]);
    LandedOther(g1, g, l, [v], l + 1);
    FilledBlock(g1, g, l, [v], l);
    JoinedNode(g, l + 1, l, Return, [l], [Tree(Block, [v])]);
    Attached(g0, g, n, l + 1, u);
    NormSingle(v);
    assert Norm(u).kids == [Norm(u.kids[0])];
  }

  function NormAll(us: seq<Tree>): (ts: seq<Tree>)
    ensures |ts| == |us| && forall i :: 0 <= i < |us| ==> ts[i] == Norm(us[i])
  {
    seq(|us|, i requires 0 <= i < |us| => Norm(us[i]))
  }

  /** What a statement list did: an empty one counts as no parse. */
  ghost predicate DidAll(spec: Parse<seq<Tree>>, out: Outcome, us: seq<Tree>, g: Graph, h: Graph, n: nat,
      cur: nat, cur': nat) {
    && (out.Aborted? <==> spec.Abort?) && (out.NoParse? <==> spec.Ok? && spec.value == [])
    && (out.NoParse? ==> h == g && cur' == cur)
    && (out.Parsed? ==> spec == Ok(NormAll(us), cur') && LandedOrLost(g, h, n, us))
  }

  /** The trees land in a block that was empty; for one that was not they are lost. */
  ghost predicate LandedOrLost(g: Graph, h: Graph, n: nat, us: seq<Tree>) {
    if Slots(g, n) == [] then Landed(g, h, n, us) else Kept(g, h)
  }

  lemma {:induction false} KeptSelf(g: Graph)
    ensures Kept(g, g)
  {
  }

  /** The statements so far and those parsed from here make up the whole list. */
  ghost predicate Joined(whole: Parse<seq<Tree>>, us: seq<Tree>, rest: Parse<seq<Tree>>) {
    && (whole.Ok? <==> rest.Ok?) && !whole.Fail? && !rest.Fail?
    && (whole.Ok? ==> whole.next == rest.next && whole.value == NormAll(us) + rest.value)
  }

  lemma {:induction false} JoinedFirst(ops: seq<BinKind>, toks: seq<Tok>, c: nat, c': nat, u: Tree)
    requires ParseJump(ops, toks, c) == Ok(Norm(u), c')
    ensures Joined(ParseJumps(ops, toks, c), [u], ParseJumps(ops, toks, c'))
  {
    hide ParseJump;
    assert NormAll([u]) == [Norm(u)];
  }

  lemma {:induction false} JoinedNext(ops: seq<BinKind>, toks: seq<Tok>, start: nat, c: nat, c': nat,
      us: seq<Tree>, u: Tree)
    requires Joined(ParseJumps(ops, toks, start), us, ParseJumps(ops, toks, c))
    requires ParseJump(ops, toks, c) == Ok(Norm(u), c')
    ensures Joined(ParseJumps(ops, toks, start), us + [u], ParseJumps(ops, toks, c'))
  {
    hide ParseJumps;
    JoinedFirst(ops, toks, c, c', u);
    var rest := ParseJumps(ops, toks, c');
    assert NormAll(us + [u]) == NormAll(us) + NormAll([u]);
    if rest.Ok? {
      assert NormAll(us) + (NormAll([u]) + rest.value) == NormAll(us + [u]) + rest.value;
    }
  }

  lemma {:induction false} LandedBlock(g: Graph, h: Graph, n: nat, us: seq<Tree>)
    requires Landed(g, h, n, us)
    ensures IsBlock(h, n)
  {
  }

  /** A body of one statement is that statement. */
  function BodyTree(ts: seq<Tree>): Tree {
    if |ts| == 1 then ts[0] else Tree(Block, ts)
  }

  lemma {:induction false} NormBody(us: seq<Tree>)
    ensures Norm(Tree(Block, us)) == BodyTree(NormAll(us))
  {
    assert Tree(Block, us).kids == us;
    if |us| != 1 {
      assert Norm(Tree(Block, us)).kids == NormAll(us);
    }
  }
}

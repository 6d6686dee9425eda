/** Which operator binds tighter, and what a text of two operators is worth. */
module Precedence {
  import opened Ast
  import opened Grammar
  import Ssa

  /** How tightly an operator binds, the product tightest; 0 for one the parser never reads. */
  function Rank(b: BinKind): nat {
    match b
    case Arith(Mul) => 1
    case Arith(Div) => 2
    case Arith(Sub) => 3
    case Arith(Add) => 4
    case Arith(LShift) => 5
    case Arith(RShift) => 6
    case CondLte => 7
    case CondGte => 8
    case CondLt => 9
    case CondGt => 10
    case CondNeq => 11
    case Arith(And) => 12
    case Arith(Xor) => 13
    case Arith(Or) => 14
    case CondAnd => 15
    case CondOr => 16
    case _ => 0
  }

  lemma {:induction false} RankIsLevel(b: BinKind)
    ensures LevelOf(LEVELS, b) == Rank(b)
  {
    if Rank(b) > 0 {
      assert LEVELS[Rank(b) - 1] == b;
      LevelsDistinct();
      LevelAt(LEVELS, Rank(b));
    } else {
      assert b !in LEVELS;
    }
  }

  /** Operators of rank below `k`, each looser than all the operators under it. */
  predicate Layered(t: Tree, k: nat)
    decreases t
  {
    IsLeaf(t)
    || (t.kind.Binop? && |t.kids| == 2 && 0 < Rank(t.kind.bin) < k
        && Layered(t.kids[0], Rank(t.kind.bin)) && Layered(t.kids[1], Rank(t.kind.bin)))
  }

  /** Conditionals over such trees. */
  predicate LayeredTop(t: Tree)
    decreases t
  {
    if t.kind.If? then |t.kids| == 3 && Layered(t.kids[0], 17) && LayeredTop(t.kids[1]) && LayeredTop(t.kids[2])
    else Layered(t, 17)
  }

  lemma {:induction false} FitsIsLayered(t: Tree, k: nat)
    requires k <= 16
    ensures Fits(LEVELS, k, t) <==> Layered(t, k + 1)
    decreases t
  {
    hide LEVELS, Rank, LevelOf;
    if t.kind.Binop? && |t.kids| == 2 {
      var j := Rank(t.kind.bin);
      RankIsLevel(t.kind.bin);
      if 1 <= j <= k {
        FitsIsLayered(t.kids[0], j - 1);
        FitsIsLayered(t.kids[1], j - 1);
      }
    }
  }

  /** Whatever the parser reads is layered by rank, and it reads every layered tree: an expression is
      parsed to a tree if and only if the tree is layered, spelled by the tokens, and not continued. */
  lemma {:induction false} ParsesByRank(toks: seq<Tok>, cur: nat, t: Tree, c: nat)
    ensures FitsTop(LEVELS, t) <==> LayeredTop(t)
    ensures ParseTop(LEVELS, toks, cur) == Ok(t, c)
            <==> LayeredTop(t) && FitsTop(LEVELS, t) && Spelled(toks, cur, c, t) && StopsTop(LEVELS, t, At(toks, c))
  {
    hide LEVELS, ParseTop, StopsTop, Spelled;
    LevelsDistinct();
    TopIsLayered(t);
    ParsesExactly(LEVELS, toks, cur, t, c);
  }

  lemma {:induction false} TopIsLayered(t: Tree)
    ensures FitsTop(LEVELS, t) <==> LayeredTop(t)
    decreases t
  {
    hide LEVELS, Fits, Layered;
    LevelsDistinct();
    if t.kind.If? && |t.kids| == 3 {
      FitsIsLayered(t.kids[0], 16);
      TopIsLayered(t.kids[1]);
      TopIsLayered(t.kids[2]);
    } else {
      FitsIsLayered(t, 16);
    }
  }

  // ---------- two operators ----------

  lemma {:induction false} RankInjective(b: BinKind, c: BinKind)
    requires Rank(b) == Rank(c) > 0
    ensures b == c
  {
  }

  /** No level but its own reads an operator. */
  lemma {:induction false} OwnLevelOnly(b: BinKind, i: nat)
    requires i < 16 && i + 1 != Rank(b)
    ensures |LEVELS| == 16 && Operator(LEVELS[i]) != Operator(b)
  {
    hide Rank, LEVELS;
    LevelsDistinct();
    RankIsLevel(b);
    LevelAt(LEVELS, i + 1);
  }

  lemma {:induction false} JoinLayered(b: BinKind, l: Tree, r: Tree, k: nat)
    requires 0 < Rank(b) < k && Layered(l, Rank(b)) && Layered(r, Rank(b))
    ensures Layered(Tree(Binop(b), [l, r]), k)
    ensures Render(Tree(Binop(b), [l, r])) == Render(l) + [Operator(b)] + Render(r)
  {
  }

  lemma {:induction false} LayeredLooser(t: Tree, j: nat, k: nat)
    requires Layered(t, j) && j <= k
    ensures Layered(t, k)
  {
  }

  lemma {:induction false} LayeredIsTop(t: Tree)
    requires Layered(t, 17)
    ensures LayeredTop(t)
  {
  }

  lemma {:induction false} ReadWhole(t: Tree, toks: seq<Tok>, cur: nat, c: nat)
    requires Layered(t, 17) && Spelled(toks, cur, c, t) && !At(toks, c).Operator? && At(toks, c) != QMark
    ensures ParseTop(LEVELS, toks, cur) == Ok(t, c)
  {
    hide LEVELS, ParseTop, StopsTop, FitsTop, Layered, Render;
    LayeredIsTop(t);
    TopIsLayered(t);
    StopsTopAt(LEVELS, t, At(toks, c));
    ParsesByRank(toks, cur, t, c);
  }

  /** The same operator again ends the expression. */
  lemma {:induction false} ReadOnce(b: BinKind, x: Tree, y: Tree, toks: seq<Tok>, cur: nat, c: nat)
    requires Rank(b) > 0 && Layered(x, Rank(b)) && Layered(y, Rank(b)) && At(toks, c) == Operator(b)
    requires Spelled(toks, cur, c, Tree(Binop(b), [x, y]))
    ensures ParseTop(LEVELS, toks, cur) == Ok(Tree(Binop(b), [x, y]), c)
  {
    hide LEVELS, ParseTop, FitsTop, Layered, Render, Rank, Fits;
    var t, j := Tree(Binop(b), [x, y]), Rank(b);
    RankAtMost(b);
    JoinLayered(b, x, y, 17);
    LayeredIsTop(t);
    TopIsLayered(t);
    RankIsLevel(b);
    LevelsDistinct();
    FitsIsLayered(y, j - 1);
    FitsIsLayered(t, 16);
    forall i | 0 <= i < 16 && i + 1 != j
      ensures Operator(b) != Operator(LEVELS[i])
    {
      OwnLevelOnly(b, i);
    }
    StopsAt(LEVELS, j - 1, y, Operator(b));
    assert t.kids == [x, y];
    StopsTwice(t, y, j, Operator(b));
    ParsesByRank(toks, cur, t, c);
  }

  lemma {:induction false} RankAtMost(b: BinKind)
    ensures Rank(b) <= 16
  {
  }

  lemma {:induction false} StopsTwice(t: Tree, y: Tree, j: nat, tok: Tok)
    requires t.kind.Binop? && |t.kids| == 2 && t.kids[1] == y && |LEVELS| == 16 && 1 <= j <= 16
    requires j == LevelOf(LEVELS, t.kind.bin) && Fits(LEVELS, 16, t) && FitsTop(LEVELS, t) && tok != QMark
    requires Fits(LEVELS, j - 1, y) && Stops(LEVELS, j - 1, y, tok) && NoOperator(LEVELS, j, 16, tok)
    ensures StopsTop(LEVELS, t, tok)
  {
    hide LEVELS, Fits, LevelOf, NoOperator;
  }

  /** The tree two operators make: the tighter one below. */
  function TwoJoined(x: Tree, b1: BinKind, y: Tree, b2: BinKind, z: Tree): Tree {
    if Rank(b2) < Rank(b1) then Tree(Binop(b1), [x, Tree(Binop(b2), [y, z])])
    else Tree(Binop(b2), [Tree(Binop(b1), [x, y]), z])
  }

  lemma {:induction false} TwoJoinedLayered(x: Tree, b1: BinKind, y: Tree, b2: BinKind, z: Tree)
    requires 0 < Rank(b1) && 0 < Rank(b2) && b1 != b2
    requires var k := if Rank(b1) < Rank(b2) then Rank(b1) else Rank(b2);
      Layered(x, k) && Layered(y, k) && Layered(z, k)
    ensures Layered(TwoJoined(x, b1, y, b2, z), 17)
    ensures Render(TwoJoined(x, b1, y, b2, z)) == Render(x) + [Operator(b1)] + Render(y) + [Operator(b2)] + Render(z)
  {
    hide Layered, Render, Rank;
    RankAtMost(b1);
    RankAtMost(b2);
    if Rank(b2) < Rank(b1) {
      LayeredLooser(x, Rank(b2), Rank(b1));
      JoinLayered(b2, y, z, Rank(b1));
      JoinLayered(b1, x, Tree(Binop(b2), [y, z]), 17);
      assert Render(x) + [Operator(b1)] + Render(y) + [Operator(b2)] + Render(z)
          == Render(x) + [Operator(b1)] + (Render(y) + [Operator(b2)] + Render(z));
    } else {
      if Rank(b1) == Rank(b2) {
        RankInjective(b1, b2);
      }
      LayeredLooser(z, Rank(b1), Rank(b2));
      JoinLayered(b1, x, y, Rank(b2));
      JoinLayered(b2, Tree(Binop(b1), [x, y]), z, 17);
    }
  }

  /** Two operators between operands that bind tighter than both: the tighter of the two comes out below
      the other; the same operator twice ends the expression after its first operands. */
  lemma {:induction false} TwoOperators(before: seq<Tok>, x: Tree, b1: BinKind, y: Tree, b2: BinKind, z: Tree,
      rest: seq<Tok>)
    requires 0 < Rank(b1) && 0 < Rank(b2)
    requires var k := if Rank(b1) < Rank(b2) then Rank(b1) else Rank(b2);
      Layered(x, k) && Layered(y, k) && Layered(z, k)
    requires rest != [] && !rest[0].Operator? && rest[0] != QMark
    ensures var front := Render(x) + [Operator(b1)] + Render(y);
      var whole := front + [Operator(b2)] + Render(z);
      ParseTop(LEVELS, before + whole + rest, |before|)
      == if Rank(b1) == Rank(b2) then Ok(Tree(Binop(b1), [x, y]), |before| + |front|)
         else Ok(if Rank(b2) < Rank(b1) then Tree(Binop(b1), [x, Tree(Binop(b2), [y, z])])
                 else Tree(Binop(b2), [Tree(Binop(b1), [x, y]), z]), |before| + |whole|)
  {
    hide LEVELS, ParseTop, Layered, Render, Rank;
    var front := Render(x) + [Operator(b1)] + Render(y);
    var whole := front + [Operator(b2)] + Render(z);
    var toks, cur := before + whole + rest, |before|;
    if Rank(b1) == Rank(b2) {
      RankInjective(b1, b2);
      RankAtMost(b1);
      JoinLayered(b1, x, y, 17);
      assert toks[cur..cur + |front|] == front && toks[cur + |front|] == Operator(b1);
      ReadOnce(b1, x, y, toks, cur, cur + |front|);
    } else {
      TwoJoinedLayered(x, b1, y, b2, z);
      assert toks[cur..cur + |whole|] == whole && toks[cur + |whole|] == rest[0];
      ReadWhole(TwoJoined(x, b1, y, b2, z), toks, cur, cur + |whole|);
    }
  }
}

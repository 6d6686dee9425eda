/** How the arena grows while the recursive descent runs.

    A production pushes nodes, lets its operands land in fresh blocks, and attaches the finished
    node to its target; whatever was in the arena before, but for the target, stays as it was.
    The lemmas here say so for each shape of production. */
module Parser {
  import opened Options
  import opened Ast
  import opened Coalesce
  import opened Grammar

  // ---------- how the arena grows ----------

  /** Nothing that was in `g` has changed. */
  ghost predicate Kept(g: Graph, h: Graph) {
    |g.nodes| <= |h.nodes| && g.arrays <= h.arrays && forall r :: 0 <= r < |g.nodes| ==> h.nodes[r] == g.nodes[r]
  }

  /** Nothing from node `lo` on has changed. */
  ghost predicate KeptFrom(g: Graph, h: Graph, lo: nat) {
    |g.nodes| <= |h.nodes| && g.arrays <= h.arrays && forall r :: lo <= r < |g.nodes| ==> h.nodes[r] == g.nodes[r]
  }

  /** Node `r` spells out `u` with nodes from `lo` on. */
  ghost predicate Above(g: Graph, r: nat, lo: nat, u: Tree)
    decreases u
  {
    && lo <= r && HasNode(g, r) && g.nodes[r].kind == u.kind && |Slots(g, r)| == |u.kids|
    && forall i :: 0 <= i < |u.kids| ==> Above(g, Slots(g, r)[i], lo, u.kids[i])
  }

  /** The only old node that differs is block `n`, which got new children, made of new nodes, that
      spell out `us`. */
  ghost predicate Landed(g: Graph, h: Graph, n: nat, us: seq<Tree>) {
    && IsBlock(g, n) && IsBlock(h, n) && |g.nodes| <= |h.nodes| && g.arrays <= h.arrays
    && (forall r :: 0 <= r < |g.nodes| && r != n ==> h.nodes[r] == g.nodes[r])
    && Slots(g, n) <= Slots(h, n) && |Slots(h, n)| == |Slots(g, n)| + |us|
    && forall i :: 0 <= i < |us| ==> Above(h, Slots(h, n)[|Slots(g, n)| + i], |g.nodes|, us[i])
  }

  lemma {:induction false} AboveUnfolds(g: Graph, r: nat, lo: nat, u: Tree)
    requires Above(g, r, lo, u)
    ensures Unfolds(g, r, u)
    decreases u
  {
    forall i | 0 <= i < |u.kids|
      ensures Unfolds(g, Slots(g, r)[i], u.kids[i])
    {
      AboveUnfolds(g, Slots(g, r)[i], lo, u.kids[i]);
    }
  }

  lemma {:induction false} KeptSlots(g: Graph, h: Graph, r: nat)
    requires HasNode(g, r) && g.arrays <= h.arrays && r < |h.nodes| && h.nodes[r] == g.nodes[r]
    ensures HasNode(h, r) && Slots(h, r) == Slots(g, r)
  {
  }

  lemma {:induction false} AboveKept(g: Graph, h: Graph, r: nat, lo: nat, u: Tree)
    requires Above(g, r, lo, u) && KeptFrom(g, h, lo)
    ensures Above(h, r, lo, u)
    decreases u
  {
    KeptSlots(g, h, r);
    forall i | 0 <= i < |u.kids|
      ensures Above(h, Slots(h, r)[i], lo, u.kids[i])
    {
      AboveKept(g, h, Slots(g, r)[i], lo, u.kids[i]);
    }
  }

  lemma {:induction false} AboveLower(g: Graph, r: nat, lo: nat, lo': nat, u: Tree)
    requires Above(g, r, lo, u) && lo' <= lo
    ensures Above(g, r, lo', u)
    decreases u
  {
    forall i | 0 <= i < |u.kids|
      ensures Above(g, Slots(g, r)[i], lo', u.kids[i])
    {
      AboveLower(g, Slots(g, r)[i], lo, lo', u.kids[i]);
    }
  }

  lemma {:induction false} KeptTransitive(g: Graph, h: Graph, k: Graph)
    requires Kept(g, h) && Kept(h, k)
    ensures Kept(g, k)
  {
  }

  lemma {:induction false} KeptFromAny(g: Graph, h: Graph, lo: nat)
    requires Kept(g, h)
    ensures KeptFrom(g, h, lo)
  {
  }

  lemma {:induction false} KeptBlock(g: Graph, h: Graph, n: nat)
    requires Kept(g, h) && IsBlock(g, n)
    ensures IsBlock(h, n) && Slots(h, n) == Slots(g, n)
  {
  }

  lemma {:induction false} KeptWithNode(g: Graph, node: Node)
    ensures Kept(g, WithNode(g, node)) && |WithNode(g, node).nodes| == |g.nodes| + 1
    ensures WithNode(g, node).nodes[|g.nodes|] == node
    ensures node == EMPTY_BLOCK ==> IsBlock(WithNode(g, node), |g.nodes|) && Slots(WithNode(g, node), |g.nodes|) == []
    ensures WithNode(g, node).(nodes := WithNode(g, node).nodes[..|g.nodes|]) == g
  {
  }

  /** What lands in a node beyond `g0` keeps `g0`. */
  lemma {:induction false} KeptLanded(g0: Graph, g: Graph, h: Graph, n: nat, us: seq<Tree>)
    requires Kept(g0, g) && Landed(g, h, n, us) && |g0.nodes| <= n
    ensures Kept(g0, h)
  {
  }

  lemma {:induction false} LandedOther(g: Graph, h: Graph, n: nat, us: seq<Tree>, r: nat)
    requires Landed(g, h, n, us) && r < |g.nodes| && r != n
    ensures |g.nodes| <= |h.nodes| && h.nodes[r] == g.nodes[r]
    ensures IsBlock(g, r) ==> IsBlock(h, r) && Slots(h, r) == Slots(g, r)
  {
  }

  /** A block that was empty spells out what landed in it. */
  lemma {:induction false} FilledBlock(g: Graph, h: Graph, n: nat, us: seq<Tree>, lo: nat)
    requires Landed(g, h, n, us) && Slots(g, n) == [] && lo <= n
    ensures Above(h, n, lo, Tree(Block, us))
  {
    hide Slots;
    forall i | 0 <= i < |us|
      ensures Above(h, Slots(h, n)[i], lo, us[i])
    {
      AboveLower(h, Slots(h, n)[i], |g.nodes|, lo, us[i]);
    }
  }

  /** A new subtree attached to a block lands in it. */
  lemma {:induction false} Attached(g0: Graph, g: Graph, n: nat, c: nat, u: Tree)
    requires IsBlock(g0, n) && Kept(g0, g) && Above(g, c, |g0.nodes|, u)
    ensures IsBlock(g, n) && n != c && Landed(g0, WithChild(g, n, c), n, [u])
  {
    KeptBlock(g0, g, n);
    var h := WithChild(g, n, c);
    assert h.arrays[|g.arrays|] == Slots(g, n) + [c];
    assert Slots(h, n) == Slots(g0, n) + [c];
    AboveKept(g, h, c, |g0.nodes|, u);
  }

  /** Copying a block filled since into an empty one has the same effect. */
  lemma {:induction false} Copied(g0: Graph, g: Graph, n: nat, c: nat, us: seq<Tree>)
    requires IsBlock(g0, n) && Slots(g0, n) == [] && Kept(g0, g) && IsBlock(g, c) && n < c && |Slots(g, c)| == |us|
    requires forall i :: 0 <= i < |us| ==> Above(g, Slots(g, c)[i], |g0.nodes|, us[i])
    ensures Landed(g0, g.(nodes := g.nodes[n := g.nodes[c]]), n, us)
  {
    hide Above;
    var h := g.(nodes := g.nodes[n := g.nodes[c]]);
    assert Slots(h, n) == Slots(g, c);
    forall i | 0 <= i < |us|
      ensures Above(h, Slots(h, n)[i], |g0.nodes|, us[i])
    {
      AboveKept(g, h, Slots(g, c)[i], |g0.nodes|, us[i]);
    }
  }

  /** What lands after something else adds to it. */
  lemma {:induction false} LandedTwice(g: Graph, h: Graph, k: Graph, n: nat, us: seq<Tree>, u: Tree)
    requires Landed(g, h, n, us) && Landed(h, k, n, [u])
    ensures Landed(g, k, n, us + [u])
  {
    hide Above, Slots;
    var vs, m := us + [u], |Slots(g, n)|;
    forall i | 0 <= i < |vs|
      ensures Above(k, Slots(k, n)[m + i], |g.nodes|, vs[i])
    {
      if i < |us| {
        assert Above(h, Slots(h, n)[m + i], |g.nodes|, us[i]);
        AboveKept(h, k, Slots(h, n)[m + i], |g.nodes|, us[i]);
      } else {
        assert Above(k, Slots(k, n)[|Slots(h, n)| + 0], |h.nodes|, [u][0]);
        AboveLower(k, Slots(k, n)[m + i], |h.nodes|, |g.nodes|, u);
      }
    }
  }

  lemma {:induction false} LandedNothing(g: Graph, n: nat)
    requires IsBlock(g, n)
    ensures Landed(g, g, n, [])
  {
  }

  // ---------- the steps of the productions ----------

  lemma {:induction false} OneLanded(g: Graph, h: Graph, n: nat, u: Tree, lo: nat)
    requires Landed(g, h, n, [u]) && Slots(g, n) == [] && lo <= |g.nodes|
    ensures IsBlock(h, n) && |Slots(h, n)| == 1 && Above(h, Slots(h, n)[0], lo, u)
  {
    hide Above, Slots, HasNode;
    assert Above(h, Slots(h, n)[|Slots(g, n)| + 0], |g.nodes|, [u][0]);
    AboveLower(h, Slots(h, n)[0], |g.nodes|, lo, u);
  }

  /** A fresh block in which a subtree landed, the rest of the arena as before. */
  lemma {:induction false} FreshBlock(g0: Graph, g: Graph, h: Graph, u: Tree)
    requires Kept(g0, g) && Landed(WithNode(g, EMPTY_BLOCK), h, |g.nodes|, [u])
    ensures Kept(g, h) && Kept(g0, h) && |g.nodes| < |h.nodes| && IsBlock(h, |g.nodes|) && |Slots(h, |g.nodes|)| == 1
    ensures Above(h, Slots(h, |g.nodes|)[0], |g0.nodes|, u)
    ensures Above(h, |g.nodes|, |g0.nodes|, Tree(Block, [u]))
  {
    hide Above, Slots, HasNode;
    var g1 := WithNode(g, EMPTY_BLOCK);
    KeptWithNode(g, EMPTY_BLOCK);
    KeptLanded(g, g1, h, |g.nodes|, [u]);
    KeptTransitive(g0, g, h);
    FilledBlock(g1, h, |g.nodes|, [u], |g0.nodes|);
    OneLanded(g1, h, |g.nodes|, u, |g0.nodes|);
  }

  /** Left operand in block `l`, right operand in block `l'`, operator node after it. */
  lemma {:induction false} BinopLands(g0: Graph, n: nat, g2: Graph, u: Tree, b: BinKind, g4: Graph, v: Tree)
    requires IsBlock(g0, n)
    requires Landed(WithNode(g0, EMPTY_BLOCK), g2, |g0.nodes|, [u])
    requires var op := Node(Binop(b), [|g0.nodes|, |g2.nodes|], None);
      Landed(WithNode(WithNode(g2, EMPTY_BLOCK), op), g4, |g2.nodes|, [v])
    ensures var o, w := |g2.nodes| + 1, Tree(Binop(b), [Tree(Block, [u]), Tree(Block, [v])]);
      IsBlock(g4, n) && n != o && Landed(g0, WithChild(g4, n, o), n, [w])
  {
    hide Above, Landed, WithChild;
    var l, r, lo := |g0.nodes|, |g2.nodes|, |g0.nodes|;
    FreshBlock(g0, g0, g2, u);
    KeptWithNode(g2, EMPTY_BLOCK);
    var op := Node(Binop(b), [l, r], None);
    var g3 := WithNode(WithNode(g2, EMPTY_BLOCK), op);
    KeptWithNode(WithNode(g2, EMPTY_BLOCK), op);
    KeptTransitive(g2, WithNode(g2, EMPTY_BLOCK), g3);
    KeptBlock(WithNode(g2, EMPTY_BLOCK), g3, r);
    KeptLanded(g2, g3, g4, r, [v]);
    KeptTransitive(g0, g2, g4);
    FilledBlock(g3, g4, r, [v], lo);
    KeptFromAny(g2, g4, lo);
    AboveKept(g2, g4, l, lo, Tree(Block, [u]));
    LandedOther(g3, g4, r, [v], r + 1);
    JoinedNode(g4, r + 1, lo, Binop(b), [l, r], [Tree(Block, [u]), Tree(Block, [v])]);
    Attached(g0, g4, n, r + 1, Tree(Binop(b), [Tree(Block, [u]), Tree(Block, [v])]));
  }

  lemma {:induction false} JoinedNode(g: Graph, r: nat, lo: nat, kind: Kind, kids: seq<nat>, us: seq<Tree>)
    requires lo <= r < |g.nodes| && g.nodes[r] == Node(kind, kids, None) && |kids| == |us|
    requires forall i :: 0 <= i < |us| ==> Above(g, kids[i], lo, us[i])
    ensures Above(g, r, lo, Tree(kind, us))
  {
    assert kids + [] == kids;
  }

  /** Three blocks and the conditional node that joins them. */
  lemma {:induction false} IfLands(g0: Graph, n: nat, g2: Graph, c: Tree, g4: Graph, t: Tree, g5: Graph, e: Tree)
    requires IsBlock(g0, n)
    requires Landed(WithNode(g0, EMPTY_BLOCK), g2, |g0.nodes|, [c])
    requires Landed(WithIf(g0, g2), g4, |g2.nodes|, [t]) && Landed(g4, g5, |g2.nodes| + 1, [e])
    ensures var i, w := |g2.nodes| + 2, Tree(If, [Tree(Block, [c]), Tree(Block, [t]), Tree(Block, [e])]);
      IsBlock(g5, n) && n != i && Landed(g0, WithChild(g5, n, i), n, [w])
  {
    hide Above, Landed, WithChild, WithIf, Slots, IsBlock, WithNode;
    var l, r, lo := |g0.nodes|, |g2.nodes|, |g0.nodes|;
    FreshBlock(g0, g0, g2, c);
    var g3 := WithIf(g0, g2);
    WithIfKeeps(g0, g2);
    KeptLanded(g2, g3, g4, r, [t]);
    KeptLanded(g2, g4, g5, r + 1, [e]);
    KeptTransitive(g0, g2, g5);
    KeptFromAny(g2, g5, lo);
    AboveKept(g2, g5, l, lo, Tree(Block, [c]));
    LandedOther(g3, g4, r, [t], r + 1);
    LandedOther(g3, g4, r, [t], r + 2);
    LandedOther(g4, g5, r + 1, [e], r);
    LandedOther(g4, g5, r + 1, [e], r + 2);
    OneLanded(g3, g4, r, t, r + 2);
    FilledBlock(g4, g5, r + 1, [e], lo);
    BlockStays(g4, g5, r, r + 1, lo, t, e);
    JoinedNode(g5, r + 2, lo, If, [l, r, r + 1], [Tree(Block, [c]), Tree(Block, [t]), Tree(Block, [e])]);
    Attached(g0, g5, n, r + 2, Tree(If, [Tree(Block, [c]), Tree(Block, [t]), Tree(Block, [e])]));
  }

  /** The arena with the blocks of both branches and the conditional pushed. */
  function WithIf(g0: Graph, g2: Graph): Graph {
    var r := |g2.nodes|;
    WithNode(WithNode(WithNode(g2, EMPTY_BLOCK), EMPTY_BLOCK), Node(If, [|g0.nodes|, r, r + 1], None))
  }

  lemma {:induction false} WithIfKeeps(g0: Graph, g2: Graph)
    ensures var h, r := WithIf(g0, g2), |g2.nodes|;
      && Kept(g2, h) && |h.nodes| == r + 3 && h.nodes[r + 2] == Node(If, [|g0.nodes|, r, r + 1], None)
      && IsBlock(h, r) && Slots(h, r) == [] && IsBlock(h, r + 1) && Slots(h, r + 1) == []
  {
  }

  /** A filled block among the new nodes stays while its neighbour is filled. */
  lemma {:induction false} BlockStays(g: Graph, h: Graph, r: nat, n: nat, lo: nat, t: Tree, e: Tree)
    requires Landed(g, h, n, [e]) && lo <= r < n && n < |g.nodes| && IsBlock(g, r) && Slots(g, n) == []
    requires |Slots(g, r)| == 1 && Above(g, Slots(g, r)[0], n + 1, t)
    ensures Above(h, r, lo, Tree(Block, [t]))
  {
    hide Above;
    LandedOther(g, h, n, [e], r);
    AboveKept(g, h, Slots(g, r)[0], n + 1, t);
    AboveLower(h, Slots(h, r)[0], n + 1, lo, t);
    OneChild(h, r, lo, t);
  }

  lemma {:induction false} OneChild(h: Graph, r: nat, lo: nat, t: Tree)
    requires lo <= r && IsBlock(h, r) && |Slots(h, r)| == 1 && Above(h, Slots(h, r)[0], lo, t)
    ensures Above(h, r, lo, Tree(Block, [t]))
  {
  }
}

/** The syntax tree as the compiler stores it: an arena of nodes that refer to each other by
    index, child lists living in arrays that copied nodes share. */
module Ast {
  import opened Options
  import Ssa

  datatype BinKind =
    | Assign | Arith(op: Ssa.BinOp)
    | CondEq | CondNeq | CondGt | CondLt | CondGte | CondLte | CondAnd | CondOr | CondXor

  /** Node kinds with what they carry besides references. Casts and unary operators are kept
      as kinds whose operand no pass visits. */
  datatype Kind =
    | Invalid | NewVar(name: string) | NewType | RefType(typeName: string) | RefVar(varName: string)
    | Block | If | Cast | Return | LiteralFloat | LiteralInteger(value: int) | Binop(bin: BinKind) | Unop

  /** `kids` are the references a node holds itself, in the order the passes visit them;
      `childs` is the array of a block or type, absent while it has no child. */
  datatype Node = Node(kind: Kind, kids: seq<nat>, childs: Option<nat>)

  datatype Graph = Graph(nodes: seq<Node>, arrays: seq<seq<nat>>)

  /** The tree a node stands for. */
  datatype Tree = Tree(kind: Kind, kids: seq<Tree>)

  predicate HasNode(g: Graph, r: nat) {
    r < |g.nodes| && (g.nodes[r].childs.Some? ==> g.nodes[r].childs.value < |g.arrays|)
  }

  /** All the references node `r` holds. */
  function Slots(g: Graph, r: nat): seq<nat> {
    if !HasNode(g, r) then []
    else g.nodes[r].kids + (if g.nodes[r].childs.Some? then g.arrays[g.nodes[r].childs.value] else [])
  }

  /** A block with one child, which means its child. */
  predicate Single(g: Graph, r: nat) {
    HasNode(g, r) && g.nodes[r].kind.Block? && |Slots(g, r)| == 1
  }

  /** Node `r` spells out exactly the tree `t`. */
  ghost predicate Unfolds(g: Graph, r: nat, t: Tree)
    decreases t
  {
    && HasNode(g, r) && g.nodes[r].kind == t.kind && |Slots(g, r)| == |t.kids|
    && forall i :: 0 <= i < |t.kids| ==> Unfolds(g, Slots(g, r)[i], t.kids[i])
  }

  /** A tree with every one-child block replaced by its child. */
  function Norm(t: Tree): Tree
    decreases t
  {
    if t.kind.Block? && |t.kids| == 1 then Norm(t.kids[0])
    else Tree(t.kind, seq(|t.kids|, i requires 0 <= i < |t.kids| => Norm(t.kids[i])))
  }

  ghost function Height(t: Tree): nat
    decreases t
  {
    1 + MaxHeight(t.kids)
  }

  ghost function MaxHeight(ts: seq<Tree>): (h: nat)
    ensures forall i :: 0 <= i < |ts| ==> Height(ts[i]) <= h
    decreases ts
  {
    if ts == [] then 0
    else
      var h, m := Height(ts[0]), MaxHeight(ts[1..]);
      assert forall i :: 1 <= i < |ts| ==> ts[i] == ts[1..][i - 1];
      if h > m then h else m
  }

  // ---------- acyclic arenas ----------

  /** `rank` witnesses that the references among its nodes never cycle. */
  ghost predicate Ranked(g: Graph, rank: map<nat, nat>) {
    forall r :: r in rank ==>
      && HasNode(g, r)
      && forall i :: 0 <= i < |Slots(g, r)| ==> Slots(g, r)[i] in rank && rank[Slots(g, r)[i]] < rank[r]
  }

  ghost predicate Unfoldable(g: Graph, r: nat) {
    exists t :: Unfolds(g, r, t)
  }

  lemma {:induction false} UnfoldsUnique(g: Graph, r: nat, t: Tree, u: Tree)
    requires Unfolds(g, r, t) && Unfolds(g, r, u)
    ensures t == u
    decreases t
  {
    forall i | 0 <= i < |t.kids|
      ensures t.kids[i] == u.kids[i]
    {
      UnfoldsUnique(g, Slots(g, r)[i], t.kids[i], u.kids[i]);
    }
  }

  ghost function UnfoldingHeight(g: Graph, r: nat): nat
    requires Unfoldable(g, r)
  {
    var t :| Unfolds(g, r, t);
    Height(t)
  }

  /** Every arena has a rank on the nodes that spell out a finite tree. */
  lemma {:induction false} UnfoldableRanked(g: Graph) returns (rank: map<nat, nat>)
    ensures Ranked(g, rank)
    ensures forall r: nat :: r in rank <==> r < |g.nodes| && Unfoldable(g, r)
  {
    rank := map r: nat | r < |g.nodes| && Unfoldable(g, r) :: UnfoldingHeight(g, r);
    forall r, i | r in rank && 0 <= i < |Slots(g, r)|
      ensures Slots(g, r)[i] in rank && rank[Slots(g, r)[i]] < rank[r]
    {
      var s := Slots(g, r)[i];
      var t :| Unfolds(g, r, t) && UnfoldingHeight(g, r) == Height(t);
      assert Unfolds(g, s, t.kids[i]);
      assert Unfoldable(g, s);
      var u :| Unfolds(g, s, u) && UnfoldingHeight(g, s) == Height(u);
      UnfoldsUnique(g, s, t.kids[i], u);
      assert Unfoldable(g, s) && s < |g.nodes|;
      assert s in rank && rank[s] == Height(u) && rank[r] == Height(t);
      assert Height(t.kids[i]) <= MaxHeight(t.kids);
    }
  }

  // ---------- meaning ----------

  /** What node `r` means: its tree, one-child blocks standing for their child. */
  ghost function Meaning(g: Graph, rank: map<nat, nat>, r: nat): Tree
    requires Ranked(g, rank) && r in rank
    decreases rank[r]
  {
    var s := Slots(g, r);
    if Single(g, r) then Meaning(g, rank, s[0])
    else Tree(g.nodes[r].kind, seq(|s|, i requires 0 <= i < |s| => Meaning(g, rank, s[i])))
  }

  lemma {:induction false} MeaningIsNorm(g: Graph, rank: map<nat, nat>, r: nat, t: Tree)
    requires Ranked(g, rank) && r in rank && Unfolds(g, r, t)
    ensures Meaning(g, rank, r) == Norm(t)
    decreases t
  {
    forall i | 0 <= i < |t.kids|
      ensures Meaning(g, rank, Slots(g, r)[i]) == Norm(t.kids[i])
    {
      MeaningIsNorm(g, rank, Slots(g, r)[i], t.kids[i]);
    }
  }

  /** No one-child block is reachable from `r`. */
  ghost predicate Clean(g: Graph, rank: map<nat, nat>, r: nat)
    requires Ranked(g, rank) && r in rank
    decreases rank[r]
  {
    !Single(g, r) && forall i :: 0 <= i < |Slots(g, r)| ==> Clean(g, rank, Slots(g, r)[i])
  }

  /** A clean node spells out its meaning as it stands. */
  lemma {:induction false} CleanUnfolds(g: Graph, rank: map<nat, nat>, r: nat)
    requires Ranked(g, rank) && r in rank && Clean(g, rank, r)
    ensures Unfolds(g, r, Meaning(g, rank, r))
    decreases rank[r]
  {
    forall i | 0 <= i < |Slots(g, r)|
      ensures Unfolds(g, Slots(g, r)[i], Meaning(g, rank, Slots(g, r)[i]))
    {
      CleanUnfolds(g, rank, Slots(g, r)[i]);
    }
  }
}

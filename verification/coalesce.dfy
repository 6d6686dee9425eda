/** Coalescing: one-child blocks are skipped by rewriting the references to them in place. */
module Coalesce {
  import opened Options
  import opened Ast

  /** `h` is `g` with some references to one-child blocks moved on to what they mean. */
  ghost predicate Refined(g: Graph, h: Graph, rank: map<nat, nat>)
    requires Ranked(g, rank)
  {
    && |h.nodes| == |g.nodes| && |h.arrays| == |g.arrays|
    && forall n :: n in rank ==>
         && HasNode(h, n) && h.nodes[n].kind == g.nodes[n].kind && |Slots(h, n)| == |Slots(g, n)|
         && forall i :: 0 <= i < |Slots(g, n)| ==> MovedOn(g, rank, Slots(g, n)[i], Slots(h, n)[i])
  }

  /** Reference `s` may be replaced by `s'`. */
  ghost predicate MovedOn(g: Graph, rank: map<nat, nat>, s: nat, s': nat)
    requires Ranked(g, rank) && s in rank
  {
    && s' in rank && rank[s'] <= rank[s] && Meaning(g, rank, s') == Meaning(g, rank, s)
    && (s' != s ==> Single(g, s))
  }

  lemma {:induction false} RefinedRanked(g: Graph, h: Graph, rank: map<nat, nat>)
    requires Ranked(g, rank) && Refined(g, h, rank)
    ensures Ranked(h, rank)
  {
    forall r, i | r in rank && 0 <= i < |Slots(h, r)|
      ensures Slots(h, r)[i] in rank && rank[Slots(h, r)[i]] < rank[r]
    {
      assert MovedOn(g, rank, Slots(g, r)[i], Slots(h, r)[i]);
    }
  }

  lemma {:induction false} RefinedSingle(g: Graph, h: Graph, rank: map<nat, nat>, n: nat)
    requires Ranked(g, rank) && Refined(g, h, rank) && n in rank
    ensures Single(h, n) <==> Single(g, n)
  {
  }

  /** Moving references on changes the meaning of no node. */
  lemma {:induction false} RefinedMeaning(g: Graph, h: Graph, rank: map<nat, nat>, n: nat)
    requires Ranked(g, rank) && Ranked(h, rank) && Refined(g, h, rank) && n in rank
    ensures Meaning(h, rank, n) == Meaning(g, rank, n)
    decreases rank[n]
  {
    forall i | 0 <= i < |Slots(g, n)|
      ensures Meaning(h, rank, Slots(h, n)[i]) == Meaning(g, rank, Slots(g, n)[i])
    {
      assert MovedOn(g, rank, Slots(g, n)[i], Slots(h, n)[i]);
      RefinedMeaning(g, h, rank, Slots(h, n)[i]);
    }
    RefinedSingle(g, h, rank, n);
  }

  /** Clean nodes stay clean: nothing they refer to may be moved on. */
  lemma {:induction false} RefinedClean(g: Graph, h: Graph, rank: map<nat, nat>, n: nat)
    requires Ranked(g, rank) && Ranked(h, rank) && Refined(g, h, rank) && n in rank && Clean(g, rank, n)
    ensures Clean(h, rank, n) && Slots(h, n) == Slots(g, n)
    decreases rank[n]
  {
    RefinedSingle(g, h, rank, n);
    forall i | 0 <= i < |Slots(g, n)|
      ensures Slots(h, n)[i] == Slots(g, n)[i] && Clean(h, rank, Slots(g, n)[i])
    {
      assert MovedOn(g, rank, Slots(g, n)[i], Slots(h, n)[i]);
      RefinedClean(g, h, rank, Slots(g, n)[i]);
    }
  }

  /** Only references to nodes ranked below `bound` were moved on. */
  ghost predicate OnlyBelow(g: Graph, h: Graph, rank: map<nat, nat>, bound: nat)
    requires Ranked(g, rank) && Refined(g, h, rank)
  {
    forall n, i :: n in rank && 0 <= i < |Slots(g, n)| && Slots(h, n)[i] != Slots(g, n)[i]
      ==> rank[Slots(g, n)[i]] < bound
  }

  lemma {:induction false} CleanSlots(g: Graph, rank: map<nat, nat>, r: nat)
    requires Ranked(g, rank) && r in rank && Clean(g, rank, r)
    ensures forall i :: 0 <= i < |Slots(g, r)| ==> Clean(g, rank, Slots(g, r)[i])
  {
  }

  lemma {:induction false} RefinedReflexive(g: Graph, rank: map<nat, nat>, bound: nat)
    requires Ranked(g, rank)
    ensures Refined(g, g, rank) && OnlyBelow(g, g, rank, bound)
  {
  }

  lemma {:induction false} RefinedTransitive(g: Graph, h: Graph, k: Graph, rank: map<nat, nat>)
    requires Ranked(g, rank) && Ranked(h, rank) && Refined(g, h, rank) && Refined(h, k, rank)
    ensures Refined(g, k, rank)
  {
    forall n, i | n in rank && 0 <= i < |Slots(g, n)|
      ensures MovedOn(g, rank, Slots(g, n)[i], Slots(k, n)[i])
    {
      assert MovedOn(g, rank, Slots(g, n)[i], Slots(h, n)[i]);
      assert MovedOn(h, rank, Slots(h, n)[i], Slots(k, n)[i]);
      RefinedMeaning(g, h, rank, Slots(h, n)[i]);
      RefinedMeaning(g, h, rank, Slots(k, n)[i]);
      RefinedSingle(g, h, rank, Slots(h, n)[i]);
    }
  }

  /** Stores `v` in slot `i` of node `r`; through a shared array it shows in every sharer. */
  function SetSlot(g: Graph, r: nat, i: nat, v: nat): Graph
    requires HasNode(g, r) && i < |Slots(g, r)|
  {
    var node := g.nodes[r];
    if i < |node.kids| then g.(nodes := g.nodes[r := node.(kids := node.kids[i := v])])
    else
      var row: seq<nat> := g.arrays[node.childs.value];
      g.(arrays := g.arrays[node.childs.value := row[i - |node.kids| := v]])
  }

  lemma {:induction false} SetSlotRefined(g: Graph, rank: map<nat, nat>, r: nat, i: nat, v: nat)
    requires Ranked(g, rank) && r in rank && i < |Slots(g, r)| && MovedOn(g, rank, Slots(g, r)[i], v)
    ensures Refined(g, SetSlot(g, r, i, v), rank) && OnlyBelow(g, SetSlot(g, r, i, v), rank, rank[r])
    ensures i < |Slots(SetSlot(g, r, i, v), r)| && Slots(SetSlot(g, r, i, v), r)[i] == v
  {
    hide Meaning;
    var h := SetSlot(g, r, i, v);
    forall n, j | n in rank && 0 <= j < |Slots(g, n)|
      ensures |Slots(h, n)| == |Slots(g, n)|
      ensures Slots(h, n)[j] == Slots(g, n)[j] || (Slots(g, n)[j] == Slots(g, r)[i] && Slots(h, n)[j] == v)
    {
    }
    forall n | n in rank
      ensures HasNode(h, n) && h.nodes[n].kind == g.nodes[n].kind && |Slots(h, n)| == |Slots(g, n)|
    {
    }
  }

  lemma {:induction false} OnlyBelowTransitive(g: Graph, h: Graph, k: Graph, rank: map<nat, nat>, bound: nat)
    requires Ranked(g, rank) && Ranked(h, rank) && Refined(g, h, rank) && Refined(h, k, rank) && Refined(g, k, rank)
    requires OnlyBelow(g, h, rank, bound) && OnlyBelow(h, k, rank, bound)
    ensures OnlyBelow(g, k, rank, bound)
  {
  }

  lemma {:induction false} MovedOnLater(g: Graph, h: Graph, rank: map<nat, nat>, s: nat, s': nat)
    requires Ranked(g, rank) && Ranked(h, rank) && Refined(g, h, rank) && s in rank && MovedOn(g, rank, s, s')
    ensures MovedOn(h, rank, s, s')
  {
    RefinedMeaning(g, h, rank, s);
    RefinedMeaning(g, h, rank, s');
    RefinedSingle(g, h, rank, s);
  }

  /** One round of the loop: the visit of slot `i` took `before` to `mid` and returned `c'`,
      which is then stored. */
  lemma {:induction false} VisitSlot(was: Graph, before: Graph, mid: Graph, rank: map<nat, nat>, r: nat, i: nat,
      c': nat)
    requires Ranked(was, rank) && Ranked(before, rank) && Ranked(mid, rank) && r in rank
    requires Refined(was, before, rank) && OnlyBelow(was, before, rank, rank[r])
    requires i < |Slots(before, r)|
    requires Refined(before, mid, rank) && OnlyBelow(before, mid, rank, rank[Slots(before, r)[i]])
    requires MovedOn(before, rank, Slots(before, r)[i], c') && Clean(mid, rank, c')
    requires forall k :: 0 <= k < i ==> Clean(before, rank, Slots(before, r)[k])
    ensures HasNode(mid, r) && i < |Slots(mid, r)| && Slots(mid, r)[i] == Slots(before, r)[i]
    ensures var h := SetSlot(mid, r, i, c');
      && Refined(was, h, rank) && Ranked(h, rank) && OnlyBelow(was, h, rank, rank[r])
      && |Slots(h, r)| == |Slots(was, r)|
      && forall k :: 0 <= k <= i ==> Clean(h, rank, Slots(h, r)[k])
  {
    hide Meaning, Refined, MovedOn, Clean, OnlyBelow, SetSlot;
    var c := Slots(before, r)[i];
    SlotMovedOn(was, before, rank, r);
    SlotMovedOn(before, mid, rank, r);
    var h := SetSlot(mid, r, i, c');
    UnmovedSlot(before, mid, rank, r, i);
    MovedOnLater(before, mid, rank, c, c');
    SetSlotRefined(mid, rank, r, i, c');
    RefinedRanked(mid, h, rank);
    SlotMovedOn(mid, h, rank, r);
    RefinedTransitive(was, before, mid, rank);
    RefinedTransitive(was, mid, h, rank);
    OnlyBelowWeaker(before, mid, rank, rank[c], rank[r]);
    OnlyBelowTransitive(was, before, mid, rank, rank[r]);
    OnlyBelowTransitive(was, mid, h, rank, rank[r]);
    forall k | 0 <= k <= i
      ensures Clean(h, rank, Slots(h, r)[k])
    {
      if k < i {
        CleanSlotStays(before, mid, rank, r, k);
        CleanSlotStays(mid, h, rank, r, k);
      } else {
        RefinedClean(mid, h, rank, c');
      }
    }
  }

  lemma {:induction false} SlotMovedOn(g: Graph, h: Graph, rank: map<nat, nat>, n: nat)
    requires Ranked(g, rank) && Refined(g, h, rank) && n in rank
    ensures HasNode(h, n) && |Slots(h, n)| == |Slots(g, n)|
    ensures forall i :: 0 <= i < |Slots(g, n)| ==> MovedOn(g, rank, Slots(g, n)[i], Slots(h, n)[i])
  {
  }

  lemma {:induction false} CleanSlotStays(g: Graph, h: Graph, rank: map<nat, nat>, n: nat, i: nat)
    requires Ranked(g, rank) && Ranked(h, rank) && Refined(g, h, rank) && n in rank
    requires i < |Slots(g, n)| && Clean(g, rank, Slots(g, n)[i])
    ensures i < |Slots(h, n)| && Slots(h, n)[i] == Slots(g, n)[i] && Clean(h, rank, Slots(h, n)[i])
  {
    hide Meaning;
    assert MovedOn(g, rank, Slots(g, n)[i], Slots(h, n)[i]);
    RefinedClean(g, h, rank, Slots(g, n)[i]);
  }

  lemma {:induction false} UnmovedSlot(g: Graph, h: Graph, rank: map<nat, nat>, n: nat, i: nat)
    requires Ranked(g, rank) && Refined(g, h, rank) && n in rank && i < |Slots(g, n)|
    requires OnlyBelow(g, h, rank, rank[Slots(g, n)[i]])
    ensures i < |Slots(h, n)| && Slots(h, n)[i] == Slots(g, n)[i]
  {
  }

  lemma {:induction false} OnlyBelowWeaker(g: Graph, h: Graph, rank: map<nat, nat>, bound: nat, bound': nat)
    requires Ranked(g, rank) && Refined(g, h, rank) && OnlyBelow(g, h, rank, bound) && bound <= bound'
    ensures OnlyBelow(g, h, rank, bound')
  {
  }

  /** Whatever spelled out a tree before still spells out one with the same meaning. */
  ghost predicate SameTrees(was: Graph, now: Graph) {
    forall n: nat, u :: Unfolds(was, n, u) ==> exists v :: Unfolds(now, n, v) && Norm(v) == Norm(u)
  }

  /** A block that takes children: what a push to it demands. */
  predicate IsBlock(g: Graph, n: nat) {
    HasNode(g, n) && g.nodes[n].kind.Block? && g.nodes[n].kids == []
  }

  const EMPTY_BLOCK: Node := Node(Block, [], None)

  function WithNode(g: Graph, node: Node): Graph {
    g.(nodes := g.nodes + [node])
  }

  /** Block `n` with one more child, its list moved to an array of its own. */
  function WithChild(g: Graph, n: nat, c: nat): Graph
    requires IsBlock(g, n)
  {
    Graph(g.nodes[n := g.nodes[n].(childs := Some(|g.arrays|))], g.arrays + [Slots(g, n) + [c]])
  }

  class Arena {
    var nodes: seq<Node>
    var arrays: seq<seq<nat>>

    constructor ()
      ensures G() == Graph([], [])
    {
      nodes, arrays := [], [];
    }

    method PushNode(node: Node) returns (r: nat)
      modifies this
      ensures r == |old(G()).nodes| && G() == WithNode(old(G()), node)
    {
      r := |nodes|;
      nodes := nodes + [node];
    }

    /** Only the newest node is ever popped. */
    method PopNode(r: nat)
      requires r + 1 == |G().nodes|
      modifies this
      ensures G() == old(G()).(nodes := old(G()).nodes[..r])
    {
      nodes := nodes[..r];
    }

    method PushChild(n: nat, c: nat)
      requires IsBlock(G(), n) && n != c
      modifies this
      ensures G() == WithChild(old(G()), n, c)
    {
      var childs := if nodes[n].childs.Some? then arrays[nodes[n].childs.value] else [];
      assert childs == Slots(G(), n);
      nodes := nodes[n := nodes[n].(childs := Some(|arrays|))];
      arrays := arrays + [childs + [c]];
    }

    /** An empty block becomes a copy of `c`, sharing its child list. */
    method PushChildCoalesce(n: nat, c: nat)
      requires IsBlock(G(), n) && c < |G().nodes| && n != c
      modifies this
      ensures G() == if Slots(old(G()), n) == [] then old(G()).(nodes := old(G()).nodes[n := old(G()).nodes[c]])
                     else WithChild(old(G()), n, c)
    {
      if nodes[n].childs.None? || arrays[nodes[n].childs.value] == [] {
        nodes := nodes[n := nodes[c]];
      } else {
        PushChild(n, c);
      }
    }

    ghost function G(): Graph
      reads this
    {
      Graph(nodes, arrays)
    }

    /** Coalesces what `r` refers to and returns the reference to use for `r`. It keeps every
        node's meaning, leaves no one-child block reachable from the result, and does
        nothing where there is none. */
    method CoalesceRef(r: nat, ghost rank: map<nat, nat>) returns (r': nat)
      requires Ranked(G(), rank) && r in rank
      modifies this
      ensures Refined(old(G()), G(), rank) && Ranked(G(), rank) && OnlyBelow(old(G()), G(), rank, rank[r])
      ensures MovedOn(old(G()), rank, r, r')
      ensures Clean(G(), rank, r')
      ensures old(Clean(G(), rank, r)) ==> G() == old(G()) && r' == r
      decreases rank[r]
    {
      hide Meaning, Refined, MovedOn, Clean, OnlyBelow, SetSlot, Slots;
      ghost var was := G();
      RefinedReflexive(was, rank, rank[r]);
      var i := 0;
      var count := SlotCount(r);
      while i < count
        invariant Refined(was, G(), rank) && Ranked(G(), rank) && OnlyBelow(was, G(), rank, rank[r])
        invariant i <= count == |Slots(G(), r)| == |Slots(was, r)|
        invariant forall k :: 0 <= k < i ==> Clean(G(), rank, Slots(G(), r)[k])
        invariant Clean(was, rank, r) ==> G() == was
      {
        ghost var before := G();
        var c := GetSlot(r, i);
        var c' := CoalesceRef(c, rank);
        ghost var mid := G();
        VisitSlot(was, before, mid, rank, r, i, c');
        if Clean(was, rank, r) {
          CleanSlots(was, rank, r);
        }
        PutSlot(r, i, c');
        i := i + 1;
      }
      r' := r;
      if nodes[r].kind.Block? && count == 1 {
        r' := GetSlot(r, 0);
      }
      Skipped(was, G(), rank, r);
    }

    /** The pass on a whole tree: `r` spells out `t`, sharing and all, and ends up spelling
        out `t` normalised. Every other node that spells out a tree keeps its meaning. */
    method CoalesceTree(r: nat, ghost t: Tree) returns (r': nat)
      requires Unfolds(G(), r, t)
      modifies this
      ensures Unfolds(G(), r', Norm(t))
      ensures Norm(t) == t ==> G() == old(G()) && r' == r
      ensures SameTrees(old(G()), G())
    {
      hide Unfolds, Ranked, Refined, MovedOn, Clean, OnlyBelow, Norm;
      ghost var was := G();
      assert Unfoldable(was, r);
      ghost var rank := UnfoldableRanked(was);
      RootInRange(was, r, t);
      if Norm(t) == t {
        NormalIsClean(was, rank, r, t);
      }
      r' := CoalesceRef(r, rank);
      RefinedTree(was, G(), rank, r, r', t);
      RefinedTrees(was, G(), rank);
    }

    method SlotCount(r: nat) returns (n: nat)
      requires HasNode(G(), r)
      ensures n == |Slots(G(), r)|
    {
      n := |nodes[r].kids|;
      if nodes[r].childs.Some? {
        n := n + |arrays[nodes[r].childs.value]|;
      }
    }

    method GetSlot(r: nat, i: nat) returns (s: nat)
      requires HasNode(G(), r) && i < |Slots(G(), r)|
      ensures s == Slots(G(), r)[i]
    {
      if i < |nodes[r].kids| {
        s := nodes[r].kids[i];
      } else {
        s := arrays[nodes[r].childs.value][i - |nodes[r].kids|];
      }
    }

    method PutSlot(r: nat, i: nat, v: nat)
      requires HasNode(G(), r) && i < |Slots(G(), r)|
      modifies this
      ensures G() == SetSlot(old(G()), r, i, v)
      ensures old(Slots(G(), r)[i]) == v ==> G() == old(G())
    {
      if i < |nodes[r].kids| {
        nodes := nodes[r := nodes[r].(kids := nodes[r].kids[i := v])];
      } else {
        var row: seq<nat> := arrays[nodes[r].childs.value];
        arrays := arrays[nodes[r].childs.value := row[i - |nodes[r].kids| := v]];
      }
      SameValueSameGraph(old(G()), r, i);
    }
  }

  lemma {:induction false} SameValueSameGraph(g: Graph, r: nat, i: nat)
    requires HasNode(g, r) && i < |Slots(g, r)|
    ensures SetSlot(g, r, i, Slots(g, r)[i]) == g
  {
    var h := SetSlot(g, r, i, Slots(g, r)[i]);
    if i < |g.nodes[r].kids| {
      assert g.nodes[r].kids[i := g.nodes[r].kids[i]] == g.nodes[r].kids;
      assert h.nodes == g.nodes;
    } else {
      var a := g.nodes[r].childs.value;
      assert g.arrays[a][i - |g.nodes[r].kids| := Slots(g, r)[i]] == g.arrays[a];
      assert h.arrays == g.arrays;
    }
  }

  lemma {:induction false} RankedUnfolds(g: Graph, rank: map<nat, nat>, r: nat) returns (t: Tree)
    requires Ranked(g, rank) && r in rank
    ensures Unfolds(g, r, t)
    decreases rank[r]
  {
    var kids := [];
    for i := 0 to |Slots(g, r)|
      invariant |kids| == i
      invariant forall k :: 0 <= k < i ==> Unfolds(g, Slots(g, r)[k], kids[k])
    {
      var kid := RankedUnfolds(g, rank, Slots(g, r)[i]);
      kids := kids + [kid];
    }
    t := Tree(g.nodes[r].kind, kids);
  }

  lemma {:induction false} NormShrinks(t: Tree)
    ensures Height(Norm(t)) <= Height(t)
    decreases t
  {
    forall i | 0 <= i < |t.kids|
      ensures Height(Norm(t.kids[i])) <= Height(t.kids[i])
    {
      NormShrinks(t.kids[i]);
    }
    if !(t.kind.Block? && |t.kids| == 1) {
      MaxHeightMonotone(Norm(t).kids, t.kids);
    }
  }

  lemma {:induction false} MaxHeightMonotone(ts: seq<Tree>, us: seq<Tree>)
    requires |ts| == |us| && forall i :: 0 <= i < |ts| ==> Height(ts[i]) <= Height(us[i])
    ensures MaxHeight(ts) <= MaxHeight(us)
  {
    if ts != [] {
      MaxHeightMonotone(ts[1..], us[1..]);
    }
  }

  /** A tree that normalising leaves alone has no one-child block. */
  lemma {:induction false} NormalIsClean(g: Graph, rank: map<nat, nat>, r: nat, t: Tree)
    requires Ranked(g, rank) && r in rank && Unfolds(g, r, t) && Norm(t) == t
    ensures Clean(g, rank, r)
    decreases t
  {
    if t.kind.Block? && |t.kids| == 1 {
      NormShrinks(t.kids[0]);
      assert false;
    }
    forall i | 0 <= i < |Slots(g, r)|
      ensures Clean(g, rank, Slots(g, r)[i])
    {
      assert Norm(t).kids[i] == Norm(t.kids[i]);
      NormalIsClean(g, rank, Slots(g, r)[i], t.kids[i]);
    }
  }

  /** Normalising twice is normalising once. */
  lemma {:induction false} NormIdempotent(t: Tree)
    ensures Norm(Norm(t)) == Norm(t)
    decreases t
  {
    forall i | 0 <= i < |t.kids|
      ensures Norm(Norm(t.kids[i])) == Norm(t.kids[i])
    {
      NormIdempotent(t.kids[i]);
    }
  }

  lemma {:induction false} RootInRange(g: Graph, r: nat, t: Tree)
    requires Unfolds(g, r, t)
    ensures r < |g.nodes|
  {
  }

  lemma {:induction false} RefinedTree(was: Graph, now: Graph, rank: map<nat, nat>, r: nat, r': nat, t: Tree)
    requires Ranked(was, rank) && Ranked(now, rank) && Refined(was, now, rank)
    requires r in rank && Unfolds(was, r, t) && MovedOn(was, rank, r, r') && Clean(now, rank, r')
    ensures Unfolds(now, r', Norm(t))
  {
    MeaningIsNorm(was, rank, r, t);
    RefinedMeaning(was, now, rank, r');
    CleanUnfolds(now, rank, r');
  }

  lemma {:induction false} RefinedTrees(was: Graph, now: Graph, rank: map<nat, nat>)
    requires Ranked(was, rank) && Ranked(now, rank) && Refined(was, now, rank)
    requires forall r: nat :: r in rank <==> r < |was.nodes| && Unfoldable(was, r)
    ensures SameTrees(was, now)
  {
    hide Refined;
    forall n: nat, u | Unfolds(was, n, u)
      ensures exists v :: Unfolds(now, n, v) && Norm(v) == Norm(u)
    {
      RootInRange(was, n, u);
      assert Unfoldable(was, n);
      MeaningIsNorm(was, rank, n, u);
      RefinedMeaning(was, now, rank, n);
      var v := RankedUnfolds(now, rank, n);
      MeaningIsNorm(now, rank, n, v);
    }
  }

  /** What the visited node itself is replaced by. */
  lemma {:induction false} Skipped(was: Graph, h: Graph, rank: map<nat, nat>, r: nat)
    requires Ranked(was, rank) && Ranked(h, rank) && Refined(was, h, rank) && r in rank
    requires forall k :: 0 <= k < |Slots(h, r)| ==> Clean(h, rank, Slots(h, r)[k])
    ensures Single(h, r) <==> HasNode(h, r) && h.nodes[r].kind.Block? && |Slots(h, r)| == 1
    ensures Single(h, r) ==> MovedOn(was, rank, r, Slots(h, r)[0]) && Clean(h, rank, Slots(h, r)[0])
    ensures Single(h, r) ==> !Clean(was, rank, r)
    ensures !Single(h, r) ==> MovedOn(was, rank, r, r) && Clean(h, rank, r)
  {
    RefinedSingle(was, h, rank, r);
    if Single(h, r) {
      assert MovedOn(was, rank, Slots(was, r)[0], Slots(h, r)[0]);
    }
  }
}

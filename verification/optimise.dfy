/** The two in-place passes over a function's tokens, as functions of the token list. */
module Optimise {
  import opened Ssa

  lemma {:induction false} KeepsTransitive<V>(I: Interp<V>, e: map<nat, V>, ts: seq<Token>, us: seq<Token>,
      ws: seq<Token>)
    requires Keeps(I, e, ts, us) && Keeps(I, e, us, ws)
    ensures Keeps(I, e, ts, ws)
  {
  }

  lemma {:induction false} KeepsReflexive<V>(I: Interp<V>, e: map<nat, V>, ts: seq<Token>)
    ensures Keeps(I, e, ts, ts)
  {
  }

  // ---------- identity elimination ----------

  function IdentityPass(ts: seq<Token>, i: nat := 0): seq<Token>
    requires i <= |ts|
    decreases |ts| - i
  {
    if i == |ts| then ts
    else IdentityPass(if ts[i].kind.Identity? then Redirect(ts, i, ts[i].args[0]) else ts, i + 1)
  }

  /** Identity elimination, chains of identities included: the result is well formed (so no
      token mentions an eliminated id), free of identities, and means the same. */
  lemma {:induction false} IdentityPassCorrect<V>(I: Interp<V>, e: map<nat, V>, ts: seq<Token>, np: nat, i: nat)
    requires WellFormed(ts, np) && i <= |ts|
    requires forall p :: 0 <= p < i ==> !ts[p].kind.Identity?
    ensures WellFormed(IdentityPass(ts, i), np)
    ensures NoIdentity(IdentityPass(ts, i))
    ensures Keeps(I, e, ts, IdentityPass(ts, i))
    decreases |ts| - i
  {
    hide Redirect, Keeps;
    if i < |ts| {
      if ts[i].kind.Identity? {
        var y := ts[i].args[0];
        assert Resolves(ts, np, i, y);
        NotAssignedLater(ts, np, i, y);
        RedirectKeepsShape(ts, i, y);
        RedirectWellFormed(ts, np, i, y);
        RedirectKeeps(I, e, ts, np, i, y);
        IdentityPassCorrect(I, e, Redirect(ts, i, y), np, i + 1);
        KeepsTransitive(I, e, ts, Redirect(ts, i, y), IdentityPass(ts, i));
      } else {
        IdentityPassCorrect(I, e, ts, np, i + 1);
      }
    } else {
      KeepsReflexive(I, e, ts);
    }
  }

  lemma {:induction false} IdentityPassShape(ts: seq<Token>, i: nat)
    requires i <= |ts|
    ensures var us := IdentityPass(ts, i);
      && |us| == |ts|
      && forall p :: 0 <= p < |ts| ==>
           us[p].kind == if i <= p && ts[p].kind.Identity? then Erased else ts[p].kind
    decreases |ts| - i
  {
    if i < |ts| {
      if ts[i].kind.Identity? {
        RedirectKeepsShape(ts, i, ts[i].args[0]);
        IdentityPassShape(Redirect(ts, i, ts[i].args[0]), i + 1);
      } else {
        IdentityPassShape(ts, i + 1);
      }
    }
  }

  // ---------- merging of repeated computations ----------

  /** The test of the merging pass. The code compares `k == 1` argument; its comment
      asks for all of them. */
  predicate Matches(a: Token, b: Token, k: nat)
    requires k <= MAX_ARGS
  {
    a.kind == b.kind && a.args[..k] == b.args[..k]
  }

  /** The inner loop: merges into token `i` every later match, from position `j` on. */
  function MergeRow(ts: seq<Token>, i: nat, j: nat, k: nat): (us: seq<Token>)
    requires i < j <= |ts| && k <= MAX_ARGS
    ensures |us| == |ts|
    decreases |ts| - j
  {
    if j == |ts| then ts
    else MergeRow(if Matches(ts[i], ts[j], k) then Redirect(ts, j, ts[i].result) else ts, i, j + 1, k)
  }

  /** The outer loop, from position `i` on. */
  function ReusedPass(ts: seq<Token>, k: nat, i: nat := 0): (us: seq<Token>)
    requires i <= |ts| && k <= MAX_ARGS
    ensures |us| == |ts|
    decreases |ts| - i
  {
    if i == |ts| then ts else ReusedPass(MergeRow(ts, i, i + 1, k), k, i + 1)
  }

  /** The id that stands for `x` once row `i` is done. */
  function StandsRow(ts: seq<Token>, i: nat, j: nat, k: nat, x: nat): nat
    requires i < j <= |ts| && k <= MAX_ARGS
    decreases |ts| - j
  {
    if j == |ts| then x
    else if Matches(ts[i], ts[j], k) then
      StandsRow(Redirect(ts, j, ts[i].result), i, j + 1, k, if x == ts[j].result then ts[i].result else x)
    else StandsRow(ts, i, j + 1, k, x)
  }

  /** The id that stands for `x` once the whole pass is done. */
  function Stands(ts: seq<Token>, k: nat, x: nat, i: nat := 0): nat
    requires i <= |ts| && k <= MAX_ARGS
    decreases |ts| - i
  {
    if i == |ts| then x
    else Stands(MergeRow(ts, i, i + 1, k), k, StandsRow(ts, i, i + 1, k, x), i + 1)
  }

  /** The two left operands are equal values but the results are not. */
  ghost predicate Clash<V>(I: Interp<V>, e: map<nat, V>, ts: seq<Token>, p: nat, q: nat)
    requires p < |ts| && q < |ts|
  {
    && ts[p].kind.Bin? && ts[q].kind == ts[p].kind
    && Get(I, EnvAt(I, e, ts, p), ts[p].args[0]) == Get(I, EnvAt(I, e, ts, q), ts[q].args[0])
    && Computed(I, e, ts, p) != Computed(I, e, ts, q)
  }

  /** What the operation at `p` computes. */
  ghost function Computed<V>(I: Interp<V>, e: map<nat, V>, ts: seq<Token>, p: nat): V
    requires p < |ts| && ts[p].kind.Bin?
  {
    var f := EnvAt(I, e, ts, p);
    I.op(ts[p].kind.op, Get(I, f, ts[p].args[0]), Get(I, f, ts[p].args[1]))
  }

  ghost predicate NoClash<V>(I: Interp<V>, e: map<nat, V>, ts: seq<Token>) {
    forall p, q :: 0 <= p < q < |ts| ==> !Clash(I, e, ts, p, q)
  }

  /** `x` names a live token of `ts`. */
  ghost predicate Live(ts: seq<Token>, x: nat) {
    exists p :: 0 <= p < |ts| && ts[p].IsValue() && ts[p].result == x
  }

  lemma {:induction false} ErasedRedirect(ts: seq<Token>, np: nat, j: nat, y: nat)
    requires WellFormed(ts, np) && j < |ts| && !ts[j].IsValue()
    ensures Redirect(ts, j, y) == Erase(ts, j)
  {
    var us := Subst(ts, j + 1, ts[j].result, y);
    forall p | 0 <= p < |ts|
      ensures us[p] == ts[p]
    {
      if p > j {
        forall a | 0 <= a < MAX_ARGS
          ensures ts[p].args[a] != ts[j].result
        {
          ErasedNeverMentioned(ts, np, j, p, a);
        }
        assert Rename(ts[p].args, ts[j].result, y) == ts[p].args;
      }
    }
    assert us == ts;
  }

  /** Erasing a repeated RETURN, or a token already erased, changes nothing. */
  lemma {:induction false} EraseRepeated<V>(I: Interp<V>, e: map<nat, V>, ts: seq<Token>, np: nat, i: nat, j: nat)
    requires WellFormed(ts, np) && i < j < |ts| && !ts[j].IsValue() && ts[i].kind == ts[j].kind
    ensures var us := Erase(ts, j);
      && WellFormed(us, np) && Keeps(I, e, ts, us)
      && (forall q :: 0 <= q < |ts| ==> SameArguments(I, e, ts, us, q))
      && (forall z :: ValueOf(I, e, us, z) == ValueOf(I, e, ts, z))
  {
    hide WellFormed;
    var us := Erase(ts, j);
    EraseWellFormed(ts, np, j);
    forall q | 0 <= q <= |ts|
      ensures EnvAt(I, e, us, q) == EnvAt(I, e, ts, q)
    {
      EraseSameEnv(I, e, ts, j, q);
    }
    FirstReturnIs(us, FirstReturn(ts));
  }

  lemma {:induction false} EraseWellFormed(ts: seq<Token>, np: nat, j: nat)
    requires WellFormed(ts, np) && j < |ts| && !ts[j].IsValue()
    ensures WellFormed(Erase(ts, j), np)
  {
    var us := Erase(ts, j);
    forall p, a | 0 <= p < |us| && 0 <= a < MAX_ARGS && us[p].args[a] != 0
      ensures Resolves(us, np, p, us[p].args[a])
    {
      var x := us[p].args[a];
      assert Resolves(ts, np, p, ts[p].args[a]);
      if !IsParam(np, x) {
        var q :| 0 <= q < p && ts[q].IsValue() && ts[q].result == x;
        assert us[q].IsValue() && us[q].result == x;
      }
    }
  }

  lemma {:induction false} EraseSameEnv<V>(I: Interp<V>, e: map<nat, V>, ts: seq<Token>, j: nat, q: nat)
    requires j < |ts| && !ts[j].IsValue() && q <= |ts|
    ensures EnvAt(I, e, Erase(ts, j), q) == EnvAt(I, e, ts, q)
    decreases q
  {
    if q > 0 {
      EraseSameEnv(I, e, ts, j, q - 1);
    }
  }

  /** An argument the two tokens share has the same value at both. */
  lemma {:induction false} SharedArgument<V>(I: Interp<V>, e: map<nat, V>, ts: seq<Token>, np: nat, i: nat, j: nat,
      a: nat)
    requires WellFormed(ts, np) && i < j < |ts| && a < MAX_ARGS && ts[i].args[a] == ts[j].args[a]
    ensures Get(I, EnvAt(I, e, ts, i), ts[i].args[a]) == Get(I, EnvAt(I, e, ts, j), ts[j].args[a])
  {
    if ts[i].args[a] != 0 {
      NotAssignedLater(ts, np, i, ts[i].args[a]);
    }
    Stable(I, e, ts, i, j, ts[i].args[a]);
  }

  /** Matching value tokens compute the same value, given that right operands agree. */
  lemma {:induction false} MatchingTokensAgree<V>(I: Interp<V>, e: map<nat, V>, ts: seq<Token>, np: nat,
      i: nat, j: nat, k: nat)
    requires WellFormed(ts, np) && i < j < |ts| && 1 <= k <= MAX_ARGS && Matches(ts[i], ts[j], k)
    requires ts[j].IsValue() && (k >= 2 || NoClash(I, e, ts))
    ensures Resolves(ts, np, j, ts[i].result)
    ensures Get(I, EnvAt(I, e, ts, j + 1), ts[j].result) == Get(I, EnvAt(I, e, ts, j + 1), ts[i].result)
  {
    var y := ts[i].result;
    assert ts[i].args[0] == ts[i].args[..k][0] == ts[j].args[0];
    SharedArgument(I, e, ts, np, i, j, 0);
    if k >= 2 {
      assert ts[i].args[1] == ts[i].args[..k][1] == ts[j].args[1];
      SharedArgument(I, e, ts, np, i, j, 1);
    } else {
      assert !Clash(I, e, ts, i, j);
    }
    assert Resolves(ts, np, j, y) && Resolves(ts, np, i + 1, y);
    NotAssignedLater(ts, np, i + 1, y);
    Stable(I, e, ts, i + 1, j + 1, y);
  }

  lemma {:induction false} NoClashKept<V>(I: Interp<V>, e: map<nat, V>, ts: seq<Token>, us: seq<Token>)
    requires |us| == |ts| && NoClash(I, e, ts)
    requires forall q :: 0 <= q < |ts| ==> SameArguments(I, e, ts, us, q)
    requires forall q :: 0 <= q < |ts| ==> us[q].kind == ts[q].kind || us[q].kind.Erased?
    ensures NoClash(I, e, us)
  {
    forall p, q | 0 <= p < q < |us|
      ensures !Clash(I, e, us, p, q)
    {
      assert SameArguments(I, e, ts, us, p) && SameArguments(I, e, ts, us, q);
      assert !Clash(I, e, ts, p, q);
    }
  }

  /** One merge is sound as soon as the right operands agree in value. */
  lemma {:induction false} MergeStep<V>(I: Interp<V>, e: map<nat, V>, ts: seq<Token>, np: nat, i: nat, j: nat, k: nat)
    requires WellFormed(ts, np) && i < j < |ts| && 1 <= k <= MAX_ARGS && Matches(ts[i], ts[j], k)
    requires k >= 2 || NoClash(I, e, ts)
    ensures var us := Redirect(ts, j, ts[i].result);
      && WellFormed(us, np) && Keeps(I, e, ts, us) && (NoClash(I, e, ts) ==> NoClash(I, e, us))
      && forall x :: Live(ts, x) ==> var x' := if x == ts[j].result then ts[i].result else x;
                       Live(us, x') && ValueOf(I, e, us, x') == ValueOf(I, e, ts, x)
  {
    hide Redirect, Keeps, Matches, NoClash;
    var y := ts[i].result;
    var us := Redirect(ts, j, y);
    MatchesKind(ts[i], ts[j], k);
    RedirectKeepsShape(ts, j, y);
    MergeKeepsLive(ts, np, i, j);
    if ts[j].IsValue() {
      MatchingTokensAgree(I, e, ts, np, i, j, k);
      RedirectWellFormed(ts, np, j, y);
      RedirectKeeps(I, e, ts, np, j, y);
    } else {
      ErasedRedirect(ts, np, j, y);
      EraseRepeated(I, e, ts, np, i, j);
      NonValueNotLive(ts, np, j);
    }
    if NoClash(I, e, ts) {
      NoClashKept(I, e, ts, us);
    }
  }

  lemma {:induction false} MatchesKind(a: Token, b: Token, k: nat)
    requires k <= MAX_ARGS && Matches(a, b, k)
    ensures a.kind == b.kind
  {
  }

  lemma {:induction false} NonValueNotLive(ts: seq<Token>, np: nat, j: nat)
    requires WellFormed(ts, np) && j < |ts| && !ts[j].IsValue()
    ensures !Live(ts, ts[j].result)
  {
  }

  lemma {:induction false} MergeKeepsLive(ts: seq<Token>, np: nat, i: nat, j: nat)
    requires i < j < |ts| && ts[i].kind == ts[j].kind && WellFormed(ts, np)
    ensures forall x :: Live(ts, x) ==>
              Live(Redirect(ts, j, ts[i].result), if x == ts[j].result then ts[i].result else x)
  {
    var us := Redirect(ts, j, ts[i].result);
    RedirectKeepsShape(ts, j, ts[i].result);
    forall x | Live(ts, x)
      ensures Live(us, if x == ts[j].result then ts[i].result else x)
    {
      var p :| 0 <= p < |ts| && ts[p].IsValue() && ts[p].result == x;
      if p == j {
        assert us[i].IsValue() && us[i].result == ts[i].result;
      } else {
        assert us[p].IsValue() && us[p].result == x;
      }
    }
  }

  lemma {:induction false} MergeRowSound<V>(I: Interp<V>, e: map<nat, V>, ts: seq<Token>, np: nat,
                                            i: nat, j: nat, k: nat)
    requires WellFormed(ts, np) && i < j <= |ts| && 1 <= k <= MAX_ARGS
    requires k >= 2 || NoClash(I, e, ts)
    ensures var us := MergeRow(ts, i, j, k);
      && WellFormed(us, np) && Keeps(I, e, ts, us) && (NoClash(I, e, ts) ==> NoClash(I, e, us))
      && forall x :: Live(ts, x) ==> var x' := StandsRow(ts, i, j, k, x);
                       Live(us, x') && ValueOf(I, e, us, x') == ValueOf(I, e, ts, x)
    decreases |ts| - j
  {
    hide Redirect, Keeps, NoClash, WellFormed, Live, Matches, ValueOf;
    if j < |ts| {
      if Matches(ts[i], ts[j], k) {
        var us := Redirect(ts, j, ts[i].result);
        RedirectKeepsShape(ts, j, ts[i].result);
        MergeStep(I, e, ts, np, i, j, k);
        MergeRowSound(I, e, us, np, i, j + 1, k);
        KeepsTransitive(I, e, ts, us, MergeRow(ts, i, j, k));
      } else {
        MergeRowSound(I, e, ts, np, i, j + 1, k);
      }
    } else {
      KeepsReflexive(I, e, ts);
    }
  }

  /** Merging keeps every value: what stands for an id after the pass has the value the id
      had before, survivors and the returned value included. It asks for two compared
      arguments, or for a function in which equal left operands come with equal right ones. */
  lemma {:induction false} ReusedPassSound<V>(I: Interp<V>, e: map<nat, V>, ts: seq<Token>, np: nat,
                                              k: nat, i: nat)
    requires WellFormed(ts, np) && i <= |ts| && 1 <= k <= MAX_ARGS
    requires k >= 2 || NoClash(I, e, ts)
    ensures var us := ReusedPass(ts, k, i);
      && WellFormed(us, np) && Keeps(I, e, ts, us)
      && forall x :: Live(ts, x) ==> var x' := Stands(ts, k, x, i);
                       Live(us, x') && ValueOf(I, e, us, x') == ValueOf(I, e, ts, x)
    decreases |ts| - i
  {
    hide MergeRow, Keeps, NoClash, WellFormed, Live, ValueOf;
    if i < |ts| {
      var us := MergeRow(ts, i, i + 1, k);
      MergeRowSound(I, e, ts, np, i, i + 1, k);
      ReusedPassSound(I, e, us, np, k, i + 1);
      KeepsTransitive(I, e, ts, us, ReusedPass(ts, k, i));
    } else {
      KeepsReflexive(I, e, ts);
    }
  }

  // ---------- completeness and idempotence, for any number of compared arguments ----------

  /** No live token at or after `from` matches an earlier live token below `rows`. */
  ghost predicate RowsDone(ts: seq<Token>, rows: nat, k: nat)
    requires k <= MAX_ARGS
  {
    forall p, q :: 0 <= p < q < |ts| && p < rows && !ts[p].kind.Erased? ==> !Matches(ts[p], ts[q], k)
  }

  /** No two surviving tokens match. */
  ghost predicate Complete(ts: seq<Token>, k: nat)
    requires k <= MAX_ARGS
  {
    RowsDone(ts, |ts|, k)
  }

  ghost predicate RowDoneUpTo(ts: seq<Token>, i: nat, j: nat, k: nat)
    requires i < j <= |ts| && k <= MAX_ARGS
  {
    ts[i].kind.Erased? || forall q :: i < q < j ==> !Matches(ts[i], ts[q], k)
  }

  /** The substitution runs ahead of the cursor, yet it cannot create a match with a finished
      row: it only introduces the id of row `i`, which no row before `i` can mention. */
  lemma {:induction false} RedirectKeepsRows(ts: seq<Token>, np: nat, i: nat, j: nat, k: nat)
    requires WellFormed(ts, np) && i < j < |ts| && 1 <= k <= MAX_ARGS && Matches(ts[i], ts[j], k)
    requires RowsDone(ts, i, k) && RowDoneUpTo(ts, i, j, k)
    ensures var us := Redirect(ts, j, ts[i].result);
      WellFormed(us, np) && RowsDone(us, i, k) && RowDoneUpTo(us, i, j + 1, k)
  {
    hide Redirect, WellFormed;
    var y := ts[i].result;
    var us := Redirect(ts, j, y);
    RedirectKeepsShape(ts, j, y);
    MergeWellFormed(ts, np, i, j);
    forall p, q | 0 <= p < q < |us| && p < i && !us[p].kind.Erased?
      ensures !Matches(us[p], us[q], k)
    {
      assert !Matches(ts[p], ts[q], k);
      if q > j && ts[q].kind == ts[p].kind {
        NoNewMatch(ts, np, i, j, p, q, k);
      }
    }
    if !us[i].kind.Erased? {
      forall q | i < q < j + 1
        ensures !Matches(us[i], us[q], k)
      {
        if q < j {
          assert !Matches(ts[i], ts[q], k);
        }
      }
    }
  }

  lemma {:induction false} MergeWellFormed(ts: seq<Token>, np: nat, i: nat, j: nat)
    requires WellFormed(ts, np) && i < j < |ts| && ts[i].kind == ts[j].kind
    ensures WellFormed(Redirect(ts, j, ts[i].result), np)
  {
    if ts[j].IsValue() {
      assert Resolves(ts, np, j, ts[i].result);
      RedirectWellFormed(ts, np, j, ts[i].result);
    } else {
      ErasedRedirect(ts, np, j, ts[i].result);
      EraseWellFormed(ts, np, j);
    }
  }

  lemma {:induction false} NoNewMatch(ts: seq<Token>, np: nat, i: nat, j: nat, p: nat, q: nat, k: nat)
    requires WellFormed(ts, np) && p < i < j < q < |ts| && k <= MAX_ARGS
    requires ts[p].kind == ts[q].kind && !Matches(ts[p], ts[q], k)
    ensures ts[p].args[..k] != Rename(ts[q].args, ts[j].result, ts[i].result)[..k]
  {
    var y := ts[i].result;
    var a :| 0 <= a < k && ts[p].args[..k][a] != ts[q].args[..k][a];
    assert ts[p].args[a] != ts[q].args[a];
    assert ts[p].args[a] != y by {
      if ts[p].args[a] == y {
        assert Resolves(ts, np, p, y);
        NotAssignedLater(ts, np, p, y);
      }
    }
    var b := Rename(ts[q].args, ts[j].result, y);
    assert ts[p].args[..k][a] != b[..k][a];
  }

  lemma {:induction false} MergeRowComplete(ts: seq<Token>, np: nat, i: nat, j: nat, k: nat)
    requires WellFormed(ts, np) && i < j <= |ts| && 1 <= k <= MAX_ARGS
    requires RowsDone(ts, i, k) && RowDoneUpTo(ts, i, j, k)
    ensures WellFormed(MergeRow(ts, i, j, k), np) && RowsDone(MergeRow(ts, i, j, k), i + 1, k)
    decreases |ts| - j
  {
    hide WellFormed, Redirect;
    if j < |ts| {
      if Matches(ts[i], ts[j], k) {
        RedirectKeepsShape(ts, j, ts[i].result);
        RedirectKeepsRows(ts, np, i, j, k);
        MergeRowComplete(Redirect(ts, j, ts[i].result), np, i, j + 1, k);
      } else {
        MergeRowComplete(ts, np, i, j + 1, k);
      }
    }
  }

  /** One forward pass is complete: afterwards no two survivors match. */
  lemma {:induction false} ReusedPassComplete(ts: seq<Token>, np: nat, k: nat, i: nat)
    requires WellFormed(ts, np) && i <= |ts| && 1 <= k <= MAX_ARGS
    requires RowsDone(ts, i, k)
    ensures WellFormed(ReusedPass(ts, k, i), np) && Complete(ReusedPass(ts, k, i), k)
    decreases |ts| - i
  {
    if i < |ts| {
      MergeRowComplete(ts, np, i, i + 1, k);
      ReusedPassComplete(MergeRow(ts, i, i + 1, k), np, k, i + 1);
    }
  }

  lemma {:induction false} MergeRowIdle(ts: seq<Token>, np: nat, i: nat, j: nat, k: nat)
    requires WellFormed(ts, np) && i < j <= |ts| && k <= MAX_ARGS && Complete(ts, k)
    ensures MergeRow(ts, i, j, k) == ts
    decreases |ts| - j
  {
    if j < |ts| {
      if Matches(ts[i], ts[j], k) {
        ErasedRedirect(ts, np, j, ts[i].result);
        assert Erase(ts, j) == ts;
      }
      MergeRowIdle(ts, np, i, j + 1, k);
    }
  }

  lemma {:induction false} ReusedPassIdle(ts: seq<Token>, np: nat, k: nat, i: nat)
    requires WellFormed(ts, np) && i <= |ts| && k <= MAX_ARGS && Complete(ts, k)
    ensures ReusedPass(ts, k, i) == ts
    decreases |ts| - i
  {
    if i < |ts| {
      MergeRowIdle(ts, np, i, i + 1, k);
      ReusedPassIdle(ts, np, k, i + 1);
    }
  }

  /** A second run changes nothing. */
  lemma {:induction false} ReusedPassIdempotent(ts: seq<Token>, np: nat, k: nat)
    requires WellFormed(ts, np) && 1 <= k <= MAX_ARGS
    ensures ReusedPass(ReusedPass(ts, k), k) == ReusedPass(ts, k)
  {
    ReusedPassComplete(ts, np, k, 0);
    ReusedPassIdle(ReusedPass(ts, k), np, k, 0);
  }

  // ---------- the first return ----------

  lemma {:induction false} RowNeverErasesFirst(ts: seq<Token>, i: nat, j: nat, k: nat, r: nat)
    requires i < j <= |ts| && k <= MAX_ARGS && r < |ts| && ts[r].kind.Return?
    requires forall q :: 0 <= q < r ==> !ts[q].kind.Return?
    ensures MergeRow(ts, i, j, k)[r].kind.Return?
    ensures forall q :: 0 <= q < r ==> !MergeRow(ts, i, j, k)[q].kind.Return?
    decreases |ts| - j
  {
    hide Redirect;
    if j < |ts| {
      RedirectKeepsShape(ts, j, ts[i].result);
      RowNeverErasesFirst(if Matches(ts[i], ts[j], k) then Redirect(ts, j, ts[i].result) else ts, i, j + 1, k, r);
    }
  }

  lemma {:induction false} MergeNeverErasesFirst(ts: seq<Token>, k: nat, i: nat, r: nat)
    requires i <= |ts| && k <= MAX_ARGS && r < |ts| && ts[r].kind.Return?
    requires forall q :: 0 <= q < r ==> !ts[q].kind.Return?
    ensures ReusedPass(ts, k, i)[r].kind.Return?
    decreases |ts| - i
  {
    if i < |ts| {
      RowNeverErasesFirst(ts, i, i + 1, k, r);
      MergeNeverErasesFirst(MergeRow(ts, i, i + 1, k), k, i + 1, r);
    }
  }
}

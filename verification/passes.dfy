/** The passes as the compiler runs them: loops over one function's window of a shared array. */
module Passes {
  import opened Ssa
  import opened Optimise
  import opened Exactness
  import opened Spines

  /** The tokens of one function: `len` tokens at `pos` in the shared array. */
  ghost function Window(tokens: array<Token>, pos: nat, len: nat): seq<Token>
    requires pos + len <= tokens.Length
    reads tokens
  {
    tokens[pos..pos + len]
  }

  twostate predicate OthersUntouched(tokens: array<Token>, pos: nat, len: nat)
    reads tokens
  {
    forall q :: 0 <= q < tokens.Length && !(pos <= q < pos + len) ==> tokens[q] == old(tokens[q])
  }

  method ReplaceWith(tokens: array<Token>, pos: nat, len: nat, offset: nat, from: nat, to: nat)
    requires pos + len <= tokens.Length && offset <= len
    modifies tokens
    ensures Window(tokens, pos, len) == Subst(old(Window(tokens, pos, len)), offset, from, to)
    ensures OthersUntouched(tokens, pos, len)
  {
    for j := offset to len
      invariant forall q :: 0 <= q < tokens.Length && !(pos + offset <= q < pos + j) ==> tokens[q] == old(tokens[q])
      invariant forall q :: pos + offset <= q < pos + j ==>
                  tokens[q] == old(tokens[q]).(args := Rename(old(tokens[q]).args, from, to))
    {
      var tok := tokens[pos + j];
      for i := 0 to MAX_ARGS
        invariant tok == old(tokens[pos + j]).(args := tok.args)
        invariant forall a :: 0 <= a < i ==> tok.args[a] == Rename(old(tokens[pos + j]).args, from, to)[a]
        invariant forall a :: i <= a < MAX_ARGS ==> tok.args[a] == old(tokens[pos + j]).args[a]
      {
        if tok.args[i] == from {
          tok := tok.(args := tok.args[i := to]);
        }
      }
      assert tok.args == Rename(old(tokens[pos + j]).args, from, to);
      tokens[pos + j] := tok;
    }
    ghost var was := old(Window(tokens, pos, len));
    forall p | 0 <= p < len
      ensures Window(tokens, pos, len)[p] == Subst(was, offset, from, to)[p]
    {
      assert was[p] == old(tokens[pos + p]);
    }
  }

  /** One rewriting step in place: replace ahead of the token, then drop it. */
  method RedirectAt(tokens: array<Token>, pos: nat, len: nat, j: nat, to: nat)
    requires pos + len <= tokens.Length && j < len
    modifies tokens
    ensures Window(tokens, pos, len) == Redirect(old(Window(tokens, pos, len)), j, to)
    ensures OthersUntouched(tokens, pos, len)
  {
    ReplaceWith(tokens, pos, len, j + 1, tokens[pos + j].result, to);
    ghost var mid := Window(tokens, pos, len);
    tokens[pos + j] := tokens[pos + j].(kind := Erased);
    assert Window(tokens, pos, len) == Erase(mid, j);
  }

  method OptimiseIdentity(tokens: array<Token>, pos: nat, len: nat)
    requires pos + len <= tokens.Length
    modifies tokens
    ensures Window(tokens, pos, len) == IdentityPass(old(Window(tokens, pos, len)))
    ensures OthersUntouched(tokens, pos, len)
  {
    hide Redirect;
    for i := 0 to len
      invariant OthersUntouched(tokens, pos, len)
      invariant IdentityPass(Window(tokens, pos, len), i) == IdentityPass(old(Window(tokens, pos, len)))
    {
      if tokens[pos + i].kind.Identity? {
        RedirectAt(tokens, pos, len, i, tokens[pos + i].args[0]);
      }
    }
  }

  /** `compared` is the number of argument slots the test looks at. */
  method OptimiseReused(tokens: array<Token>, pos: nat, len: nat, compared: nat)
    requires pos + len <= tokens.Length && compared <= MAX_ARGS
    modifies tokens
    ensures Window(tokens, pos, len) == ReusedPass(old(Window(tokens, pos, len)), compared)
    ensures OthersUntouched(tokens, pos, len)
  {
    hide Redirect;
    for i := 0 to len
      invariant OthersUntouched(tokens, pos, len)
      invariant ReusedPass(Window(tokens, pos, len), compared, i) == ReusedPass(old(Window(tokens, pos, len)), compared)
    {
      ghost var row := MergeRow(Window(tokens, pos, len), i, i + 1, compared);
      for j := i + 1 to len
        invariant OthersUntouched(tokens, pos, len)
        invariant MergeRow(Window(tokens, pos, len), i, j, compared) == row
      {
        var itok, jtok := tokens[pos + i], tokens[pos + j];
        if jtok.kind == itok.kind && itok.args[..compared] == jtok.args[..compared] {
          RedirectAt(tokens, pos, len, j, itok.result);
        }
      }
    }
  }

  /** Both passes, in the order of the compiler. */
  function Optimised(ts: seq<Token>, compared: nat): seq<Token>
    requires compared <= MAX_ARGS
  {
    ReusedPass(IdentityPass(ts), compared)
  }

  method OptimiseFunc(tokens: array<Token>, pos: nat, len: nat, compared: nat)
    requires pos + len <= tokens.Length && compared <= MAX_ARGS
    modifies tokens
    ensures Window(tokens, pos, len) == Optimised(old(Window(tokens, pos, len)), compared)
    ensures OthersUntouched(tokens, pos, len)
  {
    OptimiseIdentity(tokens, pos, len);
    OptimiseReused(tokens, pos, len, compared);
  }

  /** The tokens that run: up to the first return, or all of them. */
  function Reach(ts: seq<Token>): (n: nat)
    ensures n <= |ts| && (FirstReturn(ts) < |ts| ==> FirstReturn(ts) < n)
  {
    if FirstReturn(ts) < |ts| then FirstReturn(ts) + 1 else |ts|
  }

  /** The number of compared arguments is enough for this function: at least two, or one on a
      function whose reads agree, up to its first return, after identity elimination. */
  ghost predicate ComparesEnough(ts: seq<Token>, np: nat, compared: nat) {
    1 <= compared <= MAX_ARGS && (compared >= 2 || ReadsAgree(IdentityPass(ts), np, Reach(IdentityPass(ts))))
  }

  lemma {:induction false} KeepsKeepsTo<V>(I: Interp<V>, e: map<nat, V>, ts: seq<Token>, us: seq<Token>,
      ws: seq<Token>, n: nat)
    requires Keeps(I, e, ts, us) && n <= |ts| && FirstReturn(us) == FirstReturn(ts)
    requires Keeps(I, e, us, ws) || KeepsTo(I, e, us, ws, n)
    ensures KeepsTo(I, e, ts, ws, n)
  {
  }

  lemma {:induction false} IdentityKeepsReturn(ts: seq<Token>)
    ensures |IdentityPass(ts)| == |ts| && FirstReturn(IdentityPass(ts)) == FirstReturn(ts)
  {
    IdentityPassShape(ts, 0);
    FirstReturnIs(IdentityPass(ts), FirstReturn(ts));
  }

  /** The optimiser keeps the meaning of every well-formed function, up to its first return at least,
      and leaves it free of identities and of repeated computations. */
  lemma {:induction false} OptimisedCorrect<V>(I: Interp<V>, e: map<nat, V>, ts: seq<Token>, np: nat, compared: nat)
    requires WellFormed(ts, np) && ComparesEnough(ts, np, compared) && e.Keys == ParamTerms(np).Keys
    ensures var us := Optimised(ts, compared);
      && WellFormed(us, np) && NoIdentity(us) && Complete(us, compared) && KeepsTo(I, e, ts, us, Reach(ts))
      && (compared >= 2 ==> Keeps(I, e, ts, us))
  {
    hide Keeps, KeepsTo, WellFormed, ReadsAgree, Complete, FirstReturn;
    var mid := IdentityPass(ts);
    var us := ReusedPass(mid, compared);
    IdentityKeepsReturn(ts);
    IdentityPassCorrect(I, e, ts, np, 0);
    RowsNotBegun(mid, compared);
    ReusedPassComplete(mid, np, compared, 0);
    ReusedPassNoNewIdentity(mid, compared, 0);
    if compared >= 2 {
      ReusedPassSound(I, e, mid, np, compared, 0);
      KeepsTransitive(I, e, ts, mid, us);
    } else {
      OneArgumentKeeps(I, e, mid, np, Reach(mid));
    }
    KeepsKeepsTo(I, e, ts, mid, us, Reach(ts));
  }

  /** With one argument compared this is exact: what runs keeps its terms only if it is enough. */
  lemma {:induction false} ComparesEnoughExactly(ts: seq<Token>, np: nat)
    requires WellFormed(ts, np)
    ensures KeepsTo(FREE, ParamTerms(np), ts, Optimised(ts, 1), Reach(ts)) <==> ComparesEnough(ts, np, 1)
  {
    hide Keeps, KeepsTo, WellFormed, ReadsAgree, Complete, FirstReturn;
    var e, mid := ParamTerms(np), IdentityPass(ts);
    IdentityKeepsReturn(ts);
    IdentityPassCorrect(FREE, e, ts, np, 0);
    OneArgumentExact(mid, np, Reach(mid));
    ReusedPassNoNewIdentity(mid, 1, 0);
    BackThrough(FREE, e, ts, mid, ReusedPass(mid, 1), Reach(ts));
  }

  lemma {:induction false} BackThrough<V>(I: Interp<V>, e: map<nat, V>, ts: seq<Token>, us: seq<Token>,
      ws: seq<Token>, n: nat)
    requires Keeps(I, e, ts, us) && n <= |ts| && FirstReturn(us) == FirstReturn(ts) && |ws| == |us|
    requires forall p :: 0 <= p < |us| ==>
            ws[p].result == us[p].result && (ws[p].kind == us[p].kind || ws[p].kind.Erased?)
    ensures KeepsTo(I, e, ts, ws, n) <==> KeepsTo(I, e, us, ws, n)
  {
    hide FirstReturn, Returned, ValueOf;
    forall p | 0 <= p < n && ws[p].IsValue()
      ensures us[p].IsValue() && ValueOf(I, e, us, us[p].result) == ValueOf(I, e, ts, us[p].result)
    {
    }
  }
}

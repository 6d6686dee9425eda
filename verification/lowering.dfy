/** The lowering as the compiler runs it.

    A register table and an output grow and change token by token, with read-only scans over
    the token array. */
module Lowering {
  import opened Options
  import opened Ssa
  import opened Lower

  method IsUsedIn(tok: Token, x: nat) returns (used: bool)
    ensures used <==> UsedIn(tok, x)
  {
    for i := 0 to MAX_ARGS
      invariant forall a :: 0 <= a < i ==> tok.args[a] != x
    {
      if tok.args[i] == x {
        return true;
      }
    }
    return tok.result == x;
  }

  method IsLastUse(tokens: array<Token>, pos: nat, len: nat, offset: nat, x: nat) returns (last: bool)
    requires pos + len <= tokens.Length && offset < len
    ensures last <==> LastUse(tokens[pos..pos + len], offset, x)
  {
    ghost var ts := tokens[pos..pos + len];
    for i := offset to len
      invariant forall k :: offset <= k < i ==> !UsedIn(ts[k], x)
    {
      var used := IsUsedIn(tokens[pos + i], x);
      if used {
        assert UsedIn(ts[i], x);
        return false;
      }
    }
    return true;
  }

  class AsmState {
    var regInfo: seq<nat>
    var out: seq<Code>

    ghost predicate Valid()
      reads this
    {
      SPILL <= |regInfo|
    }

    constructor ()
      ensures Valid() && regInfo == InitialInfo() && out == []
    {
      regInfo := InitialInfo();
      out := [];
    }

    /** A free integer register; the table grows by a slot when there is none. */
    method FindFreeReg() returns (r: nat)
      requires Valid()
      modifies this
      ensures out == old(out)
      ensures r == FindFree(old(regInfo)) && r < |regInfo|
      ensures regInfo == if r < |old(regInfo)| then old(regInfo) else old(regInfo) + [0]
    {
      for i := T0 to T7
        invariant regInfo == old(regInfo) && out == old(out)
        invariant forall k :: T0 <= k < i ==> regInfo[k] != 0
      {
        if regInfo[i] == 0 {
          ScanIs(regInfo, 0, T0, T7, i);
          return i;
        }
      }
      ScanIs(regInfo, 0, T0, T7, T7);
      for i := SPILL to |regInfo|
        invariant regInfo == old(regInfo) && out == old(out)
        invariant forall k :: SPILL <= k < i ==> regInfo[k] != 0
      {
        if regInfo[i] == 0 {
          ScanIs(regInfo, 0, SPILL, |regInfo|, i);
          return i;
        }
      }
      ScanIs(regInfo, 0, SPILL, |regInfo|, |regInfo|);
      regInfo := regInfo + [0];
      return |regInfo| - 1;
    }

    method Alloc(x: nat) returns (r: nat)
      requires Valid()
      modifies this
      ensures Valid() && out == old(out)
      ensures r == FindFree(old(regInfo)) && regInfo == RegAlloc(old(regInfo), x)
    {
      r := FindFreeReg();
      regInfo := regInfo[r := x];
    }

    /** `false` when the assertion fires. */
    method Free(r: nat, fixed: Policy) returns (ok: bool)
      requires r < |regInfo|
      modifies this
      ensures out == old(out)
      ensures ok <==> RegFree(old(regInfo), r, fixed).Some?
      ensures ok ==> regInfo == RegFree(old(regInfo), r, fixed).value
    {
      if regInfo[r] == 0 {
        return false;
      }
      if !fixed(r) {
        regInfo := regInfo[r := 0];
      }
      return true;
    }

    method Holder(x: nat) returns (r: Option<nat>)
      ensures r == FindUsed(regInfo, x)
    {
      for i := 0 to |regInfo|
        invariant forall k :: 0 <= k < i ==> regInfo[k] != x
      {
        if regInfo[i] == x {
          ScanIs(regInfo, x, 0, |regInfo|, i);
          return Some(i);
        }
      }
      ScanIs(regInfo, x, 0, |regInfo|, |regInfo|);
      return None;
    }

    method ReleaseIfLast(r: nat, fixed: Policy, tokens: array<Token>, pos: nat, len: nat, offset: nat, x: nat)
        returns (ok: bool)
      requires r < |regInfo| && pos + len <= tokens.Length
      modifies this
      ensures out == old(out)
      ensures var i := FreeIfLast(old(regInfo), r, fixed, tokens[pos..pos + len], offset, x);
        && (ok <==> i.Some?) && (ok ==> regInfo == i.value)
    {
      if offset >= len {
        return false;
      }
      var last := IsLastUse(tokens, pos, len, offset, x);
      if last {
        ok := Free(r, fixed);
      } else {
        ok := true;
      }
    }

    method Binop(tokens: array<Token>, pos: nat, len: nat, offset: nat, fixed: Policy) returns (ok: bool)
      requires Valid() && pos + len <= tokens.Length && offset < len && tokens[pos + offset].kind.Bin?
      modifies this
      ensures var st := GenericBinop(tokens[pos..pos + len], offset, fixed, State(old(regInfo), old(out)));
        && (ok <==> st.Some?) && (ok ==> Valid() && State(regInfo, out) == st.value)
    {
      var tok := tokens[pos + offset];
      var res := Alloc(tok.result);
      var arg0 := Holder(tok.args[0]);
      var arg1 := Holder(tok.args[1]);
      if arg0.None? || arg1.None? {
        return false;
      }
      out := out + [Op(tok.kind.op, res, arg0.value, arg1.value)];
      ok := ReleaseIfLast(arg0.value, fixed, tokens, pos, len, offset + 1, tok.args[0]);
      if ok {
        ok := ReleaseIfLast(arg1.value, fixed, tokens, pos, len, offset + 1, tok.args[1]);
      }
    }

    /** Lowers the window of one function; `false` is an abort. */
    method LowerFunc(tokens: array<Token>, pos: nat, len: nat, fixed: Policy) returns (ok: bool)
      requires Valid() && pos + len <= tokens.Length
      requires regInfo == InitialInfo() && out == []
      modifies this
      ensures var st := LowerTo(tokens[pos..pos + len], fixed, len);
        && (ok <==> st.Some?) && (ok ==> State(regInfo, out) == st.value)
    {
      hide GenericBinop;
      ghost var ts := tokens[pos..pos + len];
      for i := 0 to len
        invariant Valid() && tokens[pos..pos + len] == ts && LowerTo(ts, fixed, i) == Some(State(regInfo, out))
      {
        match tokens[pos + i].kind {
          case Bin(_) =>
            var done := Binop(tokens, pos, len, i, fixed);
            if !done {
              AbortsForGood(ts, fixed, i + 1, len);
              return false;
            }
          case Return => out := out + [Ret];
          case _ =>
        }
      }
      return true;
    }
  }

  lemma {:induction false} ScanIs(info: seq<nat>, x: nat, lo: nat, hi: nat, r: nat)
    requires lo <= r <= hi <= |info| && (r < hi ==> info[r] == x)
    requires forall k :: lo <= k < r ==> info[k] != x
    ensures Scan(info, x, lo, hi) == r
  {
  }

  lemma {:induction false} AbortsForGood(ts: seq<Token>, fixed: Policy, p: nat, q: nat)
    requires p <= q <= |ts| && LowerTo(ts, fixed, p).None?
    ensures LowerTo(ts, fixed, q).None?
    decreases q - p
  {
    hide GenericBinop;
    if p < q {
      AbortsForGood(ts, fixed, p, q - 1);
    }
  }
}

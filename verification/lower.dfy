/** Lowering with its register table; an abort or a failed assertion of the compiler is `None`. */
module Lower {
  import opened Options
  import opened Ssa

  const T0: nat := 16
  const T7: nat := 23
  const A0: nat := 24
  const A3: nat := 27
  const RA: nat := 28
  const BP: nat := 29
  const SP: nat := 30
  const TP: nat := 31
  const SPILL: nat := 32

  /** One emitted instruction, over the compiler's register numbers. */
  datatype Code = Op(op: BinOp, rd: nat, ra: nat, rb: nat) | Ret

  datatype State = State(info: seq<nat>, code: seq<Code>)

  /** Which registers are never given back. */
  type Policy = nat -> bool

  /** The test as written: its first disjunction holds of every register. */
  const AS_WRITTEN: Policy := r => (r >= A0 || r <= A3) || r == RA || r == TP || r == BP || r == SP

  /** The test as meant. */
  const AS_MEANT: Policy := r => (r >= A0 && r <= A3) || r == RA || r == TP || r == BP || r == SP

  ghost predicate CoversAbi(fixed: Policy) {
    forall r :: A0 <= r <= TP ==> fixed(r)
  }

  // ---------- the read-only scans ----------

  predicate UsedIn(t: Token, x: nat) {
    x in t.args || t.result == x
  }

  /** No token from `offset` on mentions `x`. */
  predicate LastUse(ts: seq<Token>, offset: nat, x: nat) {
    forall i :: offset <= i < |ts| ==> !UsedIn(ts[i], x)
  }

  /** The first register from `lo` on, below `hi`, that holds `x`; `hi` when none does. */
  function Scan(info: seq<nat>, x: nat, lo: nat, hi: nat): (r: nat)
    requires lo <= hi <= |info|
    ensures lo <= r <= hi && (r < hi ==> info[r] == x)
    ensures forall i :: lo <= i < r ==> info[i] != x
    decreases hi - lo
  {
    if lo == hi || info[lo] == x then lo else Scan(info, x, lo + 1, hi)
  }

  // ---------- lowering as a function ----------

  /** A free integer register, T0 to T6 first, then an old spill, then a new one. */
  function FindFree(info: seq<nat>): (r: nat)
    requires SPILL <= |info|
    ensures T0 <= r < T7 || SPILL <= r <= |info|
    ensures r < |info| ==> info[r] == 0
  {
    var t := Scan(info, 0, T0, T7);
    if t < T7 then t else Scan(info, 0, SPILL, |info|)
  }

  function RegAlloc(info: seq<nat>, x: nat): (info': seq<nat>)
    requires SPILL <= |info|
    ensures |info| <= |info'|
  {
    var r := FindFree(info);
    if r < |info| then info[r := x] else info + [x]
  }

  function FindUsed(info: seq<nat>, x: nat): (r: Option<nat>)
    ensures r.Some? ==> r.value < |info| && info[r.value] == x
    ensures r.None? ==> x !in info
  {
    var r := Scan(info, x, 0, |info|);
    if r < |info| then Some(r) else None
  }

  function RegFree(info: seq<nat>, r: nat, fixed: Policy): Option<seq<nat>>
    requires r < |info|
  {
    if info[r] == 0 then None else if fixed(r) then Some(info) else Some(info[r := 0])
  }

  /** Gives `r`, which holds `x`, back when nothing from `offset` on mentions `x`. */
  function FreeIfLast(info: seq<nat>, r: nat, fixed: Policy, ts: seq<Token>, offset: nat, x: nat): (i: Option<seq<nat>>)
    requires r < |info|
    ensures i.Some? ==> |i.value| == |info|
  {
    if offset >= |ts| then None else if LastUse(ts, offset, x) then RegFree(info, r, fixed) else Some(info)
  }

  function FreeOperands(info: seq<nat>, ra: nat, rb: nat, fixed: Policy, ts: seq<Token>, p: nat): (i: Option<seq<nat>>)
    requires ra < |info| && rb < |info| && p < |ts|
    ensures i.Some? ==> |i.value| == |info|
  {
    var info' := FreeIfLast(info, ra, fixed, ts, p + 1, ts[p].args[0]);
    if info'.None? then None else FreeIfLast(info'.value, rb, fixed, ts, p + 1, ts[p].args[1])
  }

  function GenericBinop(ts: seq<Token>, p: nat, fixed: Policy, st: State): (r: Option<State>)
    requires p < |ts| && ts[p].kind.Bin? && SPILL <= |st.info|
    ensures r.Some? ==> |st.info| <= |r.value.info|
    ensures r.Some? ==> |r.value.code| == |st.code| + 1 && st.code <= r.value.code && r.value.code[|st.code|].Op?
  {
    var t, rd, info := ts[p], FindFree(st.info), RegAlloc(st.info, ts[p].result);
    var ra, rb := FindUsed(info, t.args[0]), FindUsed(info, t.args[1]);
    if ra.None? || rb.None? then None
    else
      var info' := FreeOperands(info, ra.value, rb.value, fixed, ts, p);
      if info'.None? then None
      else Some(State(info'.value, st.code + [Op(t.kind.op, rd, ra.value, rb.value)]))
  }

  function InitialId(r: nat): nat {
    if A0 <= r <= A3 then ParamId(r - A0) else 0
  }

  /** Registers A0 to A3 hold the parameters. */
  function InitialInfo(): (info: seq<nat>)
    ensures |info| == SPILL
  {
    seq(SPILL, r requires 0 <= r < SPILL => InitialId(r))
  }

  /** The state after lowering the first `p` tokens. */
  function LowerTo(ts: seq<Token>, fixed: Policy, p: nat): (r: Option<State>)
    requires p <= |ts|
    ensures r.Some? ==> SPILL <= |r.value.info|
    decreases p
  {
    if p == 0 then Some(State(InitialInfo(), []))
    else
      var st := LowerTo(ts, fixed, p - 1);
      if st.None? then None
      else
        match ts[p - 1].kind
        case Bin(_) => GenericBinop(ts, p - 1, fixed, st.value)
        case Return => Some(st.value.(code := st.value.code + [Ret]))
        case _ => st
  }

  // ---------- the table invariant ----------

  ghost predicate InfoOk(ts: seq<Token>, p: nat, info: seq<nat>)
    requires p <= |ts|
  {
    && SPILL <= |info|
    && (forall r, s :: 0 <= r < s < |info| && info[r] == info[s] ==> info[r] == 0)
    && (forall r :: 0 <= r < |info| && info[r] != 0 ==> Resolves(ts, 4, p, info[r]))
    && (forall i :: 0 <= i < 4 ==> info[A0 + i] == ParamId(i))
    && (forall r :: 0 <= r < |info| && FIRST_TEMPORAL <= info[r] ==> T0 <= r < T7 || SPILL <= r)
    && (forall x :: Resolves(ts, 4, p, x) && !LastUse(ts, p, x) ==> x in info)
  }

  /** A result is given a register no live id occupies. */
  lemma {:induction false} AllocKeeps(ts: seq<Token>, p: nat, info: seq<nat>)
    requires WellFormed(ts, 4) && p < |ts| && InfoOk(ts, p, info)
    ensures var info', rd, x := RegAlloc(info, ts[p].result), FindFree(info), ts[p].result;
      && |info| <= |info'| && rd < |info'| && info'[rd] == x && x !in info
      && (forall r :: 0 <= r < |info'| && r != rd ==> r < |info| && info'[r] == info[r])
      && (rd < |info| ==> info[rd] == 0)
      && (forall r, s :: 0 <= r < s < |info'| && info'[r] == info'[s] ==> info'[r] == 0)
      && (forall y :: y in info && y != 0 ==> y in info')
  {
    var info', rd, x := RegAlloc(info, ts[p].result), FindFree(info), ts[p].result;
    if x in info {
      var r :| 0 <= r < |info| && info[r] == x;
      NotAssignedLater(ts, 4, p, x);
    }
    forall y | y in info && y != 0
      ensures y in info'
    {
      var r :| 0 <= r < |info| && info[r] == y;
      assert info'[r] == y;
    }
  }

  /** The token frees a register twice: its operand meets itself and is not used again. */
  predicate FreesTwice(ts: seq<Token>, p: nat, info: seq<nat>, fixed: Policy)
    requires p < |ts|
  {
    var x := ts[p].args[0];
    ts[p].kind.Bin? && x == ts[p].args[1] && LastUse(ts, p + 1, x)
    && exists r :: 0 <= r < |info| && info[r] == x && !fixed(r)
  }

  /** What one binary operation does to the table and the output. */
  lemma {:induction false} BinopStep(ts: seq<Token>, p: nat, fixed: Policy, st: State)
    requires WellFormed(ts, 4) && p + 1 < |ts| && ts[p].kind.Bin? && InfoOk(ts, p, st.info) && CoversAbi(fixed)
    ensures GenericBinop(ts, p, fixed, st).None? <==> FreesTwice(ts, p, st.info, fixed)
    ensures var r := GenericBinop(ts, p, fixed, st);
      r.Some? ==>
        && InfoOk(ts, p + 1, r.value.info) && |st.info| <= |r.value.info|
        && BinopEmitted(ts, p, st, r.value)
  {
    hide WellFormed, RegAlloc, FindFree, FindUsed, FreeOperands, LastUse, FreesTwice, BinopEmitted;
    assert SPILL <= |st.info|;
    hide InfoOk;
    var t, rd, info := ts[p], FindFree(st.info), RegAlloc(st.info, ts[p].result);
    AllocKeeps(ts, p, st.info);
    OperandHeld(ts, p, st.info, 0);
    OperandHeld(ts, p, st.info, 1);
    var ra, rb := FindUsed(info, t.args[0]).value, FindUsed(info, t.args[1]).value;
    assert ra != rd && rb != rd && st.info[ra] == t.args[0] && st.info[rb] == t.args[1];
    FreesOutcome(info, ra, rb, fixed, ts, p);
    FreesTwiceAt(ts, p, st.info, fixed, ra);
    var last := FreeOperands(info, ra, rb, fixed, ts, p);
    if last.Some? {
      FreedOk(ts, p, st.info, info, last.value, ra, rb, fixed);
      var st' := State(last.value, st.code + [Op(t.kind.op, rd, ra, rb)]);
      forall r | 0 <= r < |info|
        ensures r == rd ==> last.value[r] == info[r]
        ensures last.value[r] == info[r] || last.value[r] == 0
      {
        assert FreedAt(ts, p, info, last.value, ra, rb, fixed, r);
      }
      EmittedBy(ts, p, st, st', rd, ra, rb);
    }
  }

  lemma {:induction false} FreesTwiceAt(ts: seq<Token>, p: nat, info: seq<nat>, fixed: Policy, ra: nat)
    requires p < |ts| && InfoOk(ts, p, info) && ts[p].kind.Bin?
    requires ra < |info| && info[ra] == ts[p].args[0] && ts[p].args[0] != 0
    ensures FreesTwice(ts, p, info, fixed) <==>
              ts[p].args[0] == ts[p].args[1] && LastUse(ts, p + 1, ts[p].args[0]) && !fixed(ra)
  {
  }

  /** The frees fail exactly on a second free; otherwise they only clear operands not used again. */
  lemma {:induction false} FreesOutcome(info: seq<nat>, ra: nat, rb: nat, fixed: Policy, ts: seq<Token>, p: nat)
    requires ra < |info| && rb < |info| && p + 1 < |ts|
    requires info[ra] == ts[p].args[0] != 0 && info[rb] == ts[p].args[1] != 0
    requires info[ra] == info[rb] ==> ra == rb
    ensures var now := FreeOperands(info, ra, rb, fixed, ts, p);
      && (now.None? <==> info[ra] == info[rb] && LastUse(ts, p + 1, info[ra]) && !fixed(ra))
      && (now.Some? ==> forall r :: 0 <= r < |info| ==> FreedAt(ts, p, info, now.value, ra, rb, fixed, r))
  {
  }

  ghost predicate FreedAt(ts: seq<Token>, p: nat, mid: seq<nat>, now: seq<nat>, ra: nat, rb: nat, fixed: Policy, r: nat)
    requires r < |mid| == |now|
  {
    now[r] == mid[r] || (now[r] == 0 && (r == ra || r == rb) && !fixed(r) && LastUse(ts, p + 1, mid[r]))
  }

  ghost predicate BinopEmitted(ts: seq<Token>, p: nat, st: State, st': State)
    requires p < |ts| && ts[p].kind.Bin?
  {
    exists rd: nat, ra: nat, rb: nat :: EmittedWith(ts, p, st, st', rd, ra, rb)
  }

  /** The operands are read from registers that hold them, and the result goes to one that
      was free. */
  ghost predicate EmittedWith(ts: seq<Token>, p: nat, st: State, st': State, rd: nat, ra: nat, rb: nat)
    requires p < |ts| && ts[p].kind.Bin?
  {
    && st'.code == st.code + [Op(ts[p].kind.op, rd, ra, rb)]
    && rd < |st'.info| && st'.info[rd] == ts[p].result && (rd < |st.info| ==> st.info[rd] == 0)
    && ra < |st.info| && st.info[ra] == ts[p].args[0] && rb < |st.info| && st.info[rb] == ts[p].args[1]
    && forall r :: 0 <= r < |st'.info| && r != rd && st'.info[r] != 0 ==> r < |st.info| && st'.info[r] == st.info[r]
  }

  lemma {:induction false} EmittedBy(ts: seq<Token>, p: nat, st: State, st': State, rd: nat, ra: nat, rb: nat)
    requires p < |ts| && ts[p].kind.Bin? && EmittedWith(ts, p, st, st', rd, ra, rb)
    ensures BinopEmitted(ts, p, st, st')
  {
  }

  lemma {:induction false} OperandHeld(ts: seq<Token>, p: nat, info: seq<nat>, a: nat)
    requires WellFormed(ts, 4) && p < |ts| && ts[p].kind.Bin? && InfoOk(ts, p, info) && a < 2
    ensures ts[p].args[a] in info && ts[p].args[a] != 0 && ts[p].args[a] != ts[p].result
    ensures Resolves(ts, 4, p, ts[p].args[a])
  {
    var x := ts[p].args[a];
    assert Resolves(ts, 4, p, x);
    assert UsedIn(ts[p], x);
    assert !LastUse(ts, p, x);
    NotAssignedLater(ts, 4, p, x);
  }

  /** `now` is the table `mid` with nothing lost but operands that are not used again. */
  lemma {:induction false} FreedOk(ts: seq<Token>, p: nat, info: seq<nat>, mid: seq<nat>, now: seq<nat>,
      ra: nat, rb: nat, fixed: Policy)
    requires WellFormed(ts, 4) && p < |ts| && ts[p].IsValue() && InfoOk(ts, p, info)
    requires mid == RegAlloc(info, ts[p].result)
    requires |now| == |mid| && ra < |info| && rb < |info| && CoversAbi(fixed)
    requires ra != FindFree(info) && rb != FindFree(info)
    requires forall r :: 0 <= r < |mid| ==> FreedAt(ts, p, mid, now, ra, rb, fixed, r)
    ensures InfoOk(ts, p + 1, now)
  {
    hide RegAlloc, FindFree, WellFormed;
    AllocKeeps(ts, p, info);
    var rd, y := FindFree(info), ts[p].result;
    RegistersOk(ts, p, info);
    forall r | 0 <= r < |now| && now[r] != 0
      ensures Resolves(ts, 4, p + 1, now[r])
    {
      assert FreedAt(ts, p, mid, now, ra, rb, fixed, r);
      if r == rd {
        assert ts[p].IsValue() && ts[p].result == now[r];
      } else {
        assert Resolves(ts, 4, p, info[r]);
      }
    }
    forall x | Resolves(ts, 4, p + 1, x) && !LastUse(ts, p + 1, x)
      ensures x in now
    {
      if x == y {
        assert FreedAt(ts, p, mid, now, ra, rb, fixed, rd);
        assert now[rd] == y;
      } else {
        assert Resolves(ts, 4, p, x) && !LastUse(ts, p, x);
        var r :| 0 <= r < |info| && info[r] == x;
        ResolvesNonNull(ts, p, x);
        assert FreedAt(ts, p, mid, now, ra, rb, fixed, r);
        assert now[r] == x;
      }
    }
    forall r, s | 0 <= r < s < |now| && now[r] == now[s]
      ensures now[r] == 0
    {
      assert FreedAt(ts, p, mid, now, ra, rb, fixed, r) && FreedAt(ts, p, mid, now, ra, rb, fixed, s);
    }
    forall r | 0 <= r < |now| && FIRST_TEMPORAL <= now[r]
      ensures T0 <= r < T7 || SPILL <= r
    {
      assert FreedAt(ts, p, mid, now, ra, rb, fixed, r);
    }
    forall i | 0 <= i < 4
      ensures now[A0 + i] == ParamId(i)
    {
      assert FreedAt(ts, p, mid, now, ra, rb, fixed, A0 + i);
    }
  }

  lemma {:induction false} ResolvesNonNull(ts: seq<Token>, p: nat, x: nat)
    requires WellFormed(ts, 4) && p <= |ts| && Resolves(ts, 4, p, x)
    ensures x != 0
  {
  }

  lemma {:induction false} RegistersOk(ts: seq<Token>, p: nat, info: seq<nat>)
    requires p < |ts| && SPILL <= |info|
    ensures T0 <= FindFree(info) < T7 || SPILL <= FindFree(info)
  {
  }

  // ---------- lowering a whole function ----------

  lemma {:induction false} InitialOk(ts: seq<Token>)
    requires WellFormed(ts, 4)
    ensures InfoOk(ts, 0, InitialInfo())
  {
    var info := InitialInfo();
    forall x | Resolves(ts, 4, 0, x)
      ensures x in info
    {
      assert info[A0 + x - 2] == x;
    }
  }

  /** A token without a value changes no register. */
  lemma {:induction false} IdleStep(ts: seq<Token>, p: nat, info: seq<nat>)
    requires WellFormed(ts, 4) && p < |ts| && !ts[p].IsValue() && InfoOk(ts, p, info)
    ensures InfoOk(ts, p + 1, info)
  {
    forall x | Resolves(ts, 4, p, x)
      ensures Resolves(ts, 4, p + 1, x)
    {
    }
    forall x | Resolves(ts, 4, p + 1, x)
      ensures Resolves(ts, 4, p, x)
    {
    }
  }

  /** A binary operation is never the last token, so the use scan starts within the function. */
  ghost predicate EndsInReturn(ts: seq<Token>) {
    ts != [] && !ts[|ts| - 1].kind.Bin?
  }

  /** The table stays consistent, and a register is given back only when no later token
      mentions what it holds. */
  lemma {:induction false} LowerOk(ts: seq<Token>, fixed: Policy, p: nat)
    requires WellFormed(ts, 4) && NoIdentity(ts) && EndsInReturn(ts) && CoversAbi(fixed)
    requires p <= |ts| && LowerTo(ts, fixed, p).Some?
    ensures InfoOk(ts, p, LowerTo(ts, fixed, p).value.info)
    decreases p
  {
    hide InfoOk, WellFormed, GenericBinop;
    if p == 0 {
      InitialOk(ts);
    } else {
      LowerOk(ts, fixed, p - 1);
      var st := LowerTo(ts, fixed, p - 1).value;
      if ts[p - 1].kind.Bin? {
        BinopStep(ts, p - 1, fixed, st);
      } else {
        IdleStep(ts, p - 1, st.info);
      }
    }
  }

  /** An operand that meets itself for the last time and is no parameter. */
  predicate SquaresTemporal(ts: seq<Token>, p: nat)
    requires p < |ts|
  {
    && ts[p].kind.Bin? && ts[p].args[0] == ts[p].args[1] && FIRST_TEMPORAL <= ts[p].args[0]
    && LastUse(ts, p + 1, ts[p].args[0])
  }

  lemma {:induction false} FreesTwiceExactly(ts: seq<Token>, p: nat, info: seq<nat>)
    requires WellFormed(ts, 4) && p < |ts| && ts[p].kind.Bin? && InfoOk(ts, p, info)
    ensures FreesTwice(ts, p, info, AS_MEANT) <==> SquaresTemporal(ts, p)
    ensures !FreesTwice(ts, p, info, AS_WRITTEN)
  {
    OperandHeld(ts, p, info, 0);
    var x := ts[p].args[0];
    var r :| 0 <= r < |info| && info[r] == x;
    FreesTwiceAt(ts, p, info, AS_MEANT, r);
    FreesTwiceAt(ts, p, info, AS_WRITTEN, r);
    if x < FIRST_TEMPORAL {
      assert IsParam(4, x);
      assert info[A0 + (x - 2)] == ParamId(x - 2);
    }
  }

  /** With the register test as meant, lowering fails exactly when some token is `x op x` for
      the last use of a temporary `x`: both operands are then given back, and the second
      time the assertion fires. */
  lemma {:induction false} MeantPolicyFailsExactly(ts: seq<Token>, p: nat)
    requires WellFormed(ts, 4) && NoIdentity(ts) && EndsInReturn(ts) && p <= |ts|
    ensures LowerTo(ts, AS_MEANT, p).None? <==> exists q :: 0 <= q < p && SquaresTemporal(ts, q)
    decreases p
  {
    hide InfoOk, WellFormed, GenericBinop, SquaresTemporal;
    if p > 0 {
      MeantPolicyFailsExactly(ts, p - 1);
      var st := LowerTo(ts, AS_MEANT, p - 1);
      if st.Some? {
        LowerOk(ts, AS_MEANT, p - 1);
        if ts[p - 1].kind.Bin? {
          BinopStep(ts, p - 1, AS_MEANT, st.value);
          FreesTwiceExactly(ts, p - 1, st.value.info);
        } else {
          NotSquare(ts, p - 1);
        }
      }
    }
  }

  lemma {:induction false} NotSquare(ts: seq<Token>, p: nat)
    requires p < |ts| && !ts[p].kind.Bin?
    ensures !SquaresTemporal(ts, p)
  {
  }

  /** With the test as written nothing is ever given back and lowering never fails. */
  lemma {:induction false} WrittenPolicySucceeds(ts: seq<Token>, p: nat)
    requires WellFormed(ts, 4) && NoIdentity(ts) && EndsInReturn(ts) && p <= |ts|
    ensures LowerTo(ts, AS_WRITTEN, p).Some?
    decreases p
  {
    hide InfoOk, WellFormed, GenericBinop;
    if p > 0 {
      WrittenPolicySucceeds(ts, p - 1);
      LowerOk(ts, AS_WRITTEN, p - 1);
      if ts[p - 1].kind.Bin? {
        var st := LowerTo(ts, AS_WRITTEN, p - 1).value;
        BinopStep(ts, p - 1, AS_WRITTEN, st);
        FreesTwiceExactly(ts, p - 1, st.info);
      }
    }
  }

  function BinCount(ts: seq<Token>, p: nat): nat
    requires p <= |ts|
  {
    if p == 0 then 0 else BinCount(ts, p - 1) + (if ts[p - 1].kind.Bin? then 1 else 0)
  }

  /** As written, T0 to T6 are handed out in order, once each, and spills follow. */
  lemma {:induction false} WrittenPolicyRegisters(ts: seq<Token>, p: nat)
    requires WellFormed(ts, 4) && NoIdentity(ts) && EndsInReturn(ts) && p <= |ts|
    ensures LowerTo(ts, AS_WRITTEN, p).Some?
    ensures var info, n := LowerTo(ts, AS_WRITTEN, p).value.info, BinCount(ts, p);
      && |info| == SPILL + (if n <= 7 then 0 else n - 7)
      && (forall r :: T0 <= r < T7 ==> (info[r] == 0 <==> n <= r - T0))
      && (forall i :: SPILL <= i < |info| ==> info[i] != 0)
    decreases p
  {
    hide InfoOk, WellFormed, GenericBinop;
    if p > 0 {
      WrittenPolicyRegisters(ts, p - 1);
      WrittenPolicySucceeds(ts, p);
      if ts[p - 1].kind.Bin? {
        var st := LowerTo(ts, AS_WRITTEN, p - 1).value;
        var n := BinCount(ts, p - 1);
        WrittenKeepsAll(ts, p - 1, st);
        if n < 7 {
          assert st.info[T0 + n] == 0;
          assert FindFree(st.info) == T0 + n;
        } else {
          assert FindFree(st.info) == |st.info|;
        }
        ResultsNonNull(ts, p - 1);
      }
    }
  }

  /** As written, the results of the first seven operations stay where they were put, in T0 to T6. */
  lemma {:induction false} WrittenPlaces(ts: seq<Token>, p: nat, q: nat)
    requires WellFormed(ts, 4) && NoIdentity(ts) && EndsInReturn(ts) && q < p <= |ts|
    requires ts[q].kind.Bin? && BinCount(ts, q) < 7
    ensures LowerTo(ts, AS_WRITTEN, p).Some?
    ensures LowerTo(ts, AS_WRITTEN, p).value.info[T0 + BinCount(ts, q)] == ts[q].result
    decreases p
  {
    hide InfoOk, WellFormed, GenericBinop;
    WrittenPolicyRegisters(ts, p);
    WrittenPolicyRegisters(ts, p - 1);
    var st, n := LowerTo(ts, AS_WRITTEN, p - 1).value, BinCount(ts, q);
    if p - 1 == q {
      WrittenKeepsAll(ts, q, st);
      assert st.info[T0 + n] == 0;
      assert FindFree(st.info) == T0 + n;
    } else {
      WrittenPlaces(ts, p - 1, q);
      ResultsNonNull(ts, q);
      if ts[p - 1].kind.Bin? {
        WrittenKeepsAll(ts, p - 1, st);
      }
    }
  }

  lemma {:induction false} CodeAtMost(ts: seq<Token>, fixed: Policy, p: nat)
    requires p <= |ts| && LowerTo(ts, fixed, p).Some?
    ensures |LowerTo(ts, fixed, p).value.code| <= p
    decreases p
  {
    hide GenericBinop;
    if p > 0 {
      CodeAtMost(ts, fixed, p - 1);
    }
  }

  lemma {:induction false} WrittenKeepsAll(ts: seq<Token>, p: nat, st: State)
    requires p < |ts| && ts[p].kind.Bin? && SPILL <= |st.info| && GenericBinop(ts, p, AS_WRITTEN, st).Some?
    ensures GenericBinop(ts, p, AS_WRITTEN, st).value.info == RegAlloc(st.info, ts[p].result)
  {
  }

  lemma {:induction false} ResultsTemporal(ts: seq<Token>, p: nat)
    requires WellFormed(ts, 4) && p < |ts|
    ensures ts[p].result >= FIRST_TEMPORAL
  {
  }

  lemma {:induction false} ResultsNonNull(ts: seq<Token>, p: nat)
    requires WellFormed(ts, 4) && p < |ts|
    ensures ts[p].result != 0
  {
  }

  /** As written, a function fits the registers exactly when it has at most seven operations. */
  lemma {:induction false} WrittenPolicyFitsExactly(ts: seq<Token>)
    requires WellFormed(ts, 4) && NoIdentity(ts) && EndsInReturn(ts)
    ensures FitsRegisters(ts, AS_WRITTEN) <==> BinCount(ts, |ts|) <= 7
  {
    WrittenPolicyRegisters(ts, |ts|);
  }

  // ---------- the registers it uses ----------

  /** The registers the allocator hands out, and those it finds parameters in. */
  predicate HasName(r: nat) {
    T0 <= r < T7 || A0 <= r <= A3
  }

  predicate CodeNamed(c: Code) {
    c.Op? ==> T0 <= c.rd < T7 && HasName(c.ra) && HasName(c.rb)
  }

  predicate AllNamed(code: seq<Code>) {
    forall i :: 0 <= i < |code| ==> CodeNamed(code[i])
  }

  lemma {:induction false} OccupiedNamed(ts: seq<Token>, p: nat, info: seq<nat>, r: nat)
    requires WellFormed(ts, 4) && p <= |ts| && InfoOk(ts, p, info) && |info| == SPILL
    requires r < SPILL && info[r] != 0
    ensures HasName(r) && (FIRST_TEMPORAL <= info[r] ==> T0 <= r < T7)
  {
    var x := info[r];
    assert Resolves(ts, 4, p, x);
    if x < FIRST_TEMPORAL {
      assert IsParam(4, x);
      assert info[A0 + (x - 2)] == ParamId(x - 2);
    }
  }

  /** Without spills, instructions write T0 to T6 only and read those and the argument registers: never
      those of the stack, the base, the thread or the return address. */
  lemma {:induction false} OnlyNamedRegisters(ts: seq<Token>, fixed: Policy, p: nat)
    requires WellFormed(ts, 4) && NoIdentity(ts) && EndsInReturn(ts) && CoversAbi(fixed)
    requires p <= |ts| && LowerTo(ts, fixed, p).Some? && |LowerTo(ts, fixed, p).value.info| == SPILL
    ensures AllNamed(LowerTo(ts, fixed, p).value.code)
    decreases p
  {
    hide InfoOk, WellFormed, GenericBinop, HasName;
    if p > 0 {
      InfoGrows(ts, fixed, p - 1, p);
      LowerOk(ts, fixed, p - 1);
      LowerOk(ts, fixed, p);
      OnlyNamedRegisters(ts, fixed, p - 1);
      var st, st' := LowerTo(ts, fixed, p - 1).value, LowerTo(ts, fixed, p).value;
      if ts[p - 1].kind.Bin? {
        BinopStep(ts, p - 1, fixed, st);
        var rd: nat, ra: nat, rb: nat :| EmittedWith(ts, p - 1, st, st', rd, ra, rb);
        OperandHeld(ts, p - 1, st.info, 0);
        OperandHeld(ts, p - 1, st.info, 1);
        ResultsTemporal(ts, p - 1);
        OccupiedNamed(ts, p - 1, st.info, ra);
        OccupiedNamed(ts, p - 1, st.info, rb);
        OccupiedNamed(ts, p, st'.info, rd);
      }
    }
  }

  // ---------- the machine ----------

  /** Runs the first `n` instructions, none of which returns; registers that have no name
      are beyond the machine's. */
  function RunTo<V>(I: Interp<V>, regs: seq<V>, code: seq<Code>, n: nat): (r: seq<V>)
    requires n <= |code| && |regs| == SPILL && Named(code, n)
    ensures |r| == SPILL
    decreases n
  {
    if n == 0 then regs
    else
      var r := RunTo(I, regs, code, n - 1);
      match code[n - 1]
      case Op(op, rd, ra, rb) => r[rd := I.op(op, r[ra], r[rb])]
      case Ret => r
  }

  /** The first `n` instructions name registers of the machine only. */
  predicate Named(code: seq<Code>, n: nat)
    requires n <= |code|
  {
    forall i :: 0 <= i < n && code[i].Op? ==> code[i].rd < SPILL && code[i].ra < SPILL && code[i].rb < SPILL
  }

  /** Every occupied register holds the value of its id. */
  ghost predicate Holds<V>(I: Interp<V>, env: map<nat, V>, info: seq<nat>, regs: seq<V>)
    requires |info| == SPILL == |regs|
  {
    forall r :: 0 <= r < SPILL && info[r] != 0 ==> regs[r] == Get(I, env, info[r])
  }

  /** The parameter registers start with the parameters. */
  ghost predicate StartsWith<V>(I: Interp<V>, e: map<nat, V>, regs: seq<V>) {
    |regs| == SPILL && forall i :: 0 <= i < 4 ==> regs[A0 + i] == Get(I, e, ParamId(i))
  }

  lemma {:induction false} RunPrefix<V>(I: Interp<V>, regs: seq<V>, code: seq<Code>, more: seq<Code>, n: nat)
    requires n <= |code| && |regs| == SPILL && Named(code, n)
    ensures Named(code + more, n) && RunTo(I, regs, code + more, n) == RunTo(I, regs, code, n)
    decreases n
  {
    assert forall i :: 0 <= i < n ==> (code + more)[i] == code[i];
    if n > 0 {
      RunPrefix(I, regs, code, more, n - 1);
    }
  }

  lemma {:induction false} BinopHolds<V>(I: Interp<V>, env: map<nat, V>, ts: seq<Token>, p: nat, st: State,
      st': State, regs: seq<V>,
                      rd: nat, ra: nat, rb: nat)
    requires p < |ts| && ts[p].kind.Bin? && |st.info| == SPILL == |st'.info| && |regs| == SPILL
    requires EmittedWith(ts, p, st, st', rd, ra, rb) && Holds(I, env, st.info, regs)
    requires ts[p].args[0] != 0 && ts[p].args[1] != 0 && ts[p].result !in st.info
    ensures Holds(I, Exec(I, env, ts[p]), st'.info, regs[rd := I.op(ts[p].kind.op, regs[ra], regs[rb])])
  {
  }

  /** Register allocation simulates SSA: as long as no register spills, after each token every
      occupied register of the machine holds the value of the id the table gives it. */
  lemma {:induction false} LowerSimulates<V>(I: Interp<V>, e: map<nat, V>, ts: seq<Token>, fixed: Policy,
      p: nat, regs: seq<V>)
    requires WellFormed(ts, 4) && NoIdentity(ts) && EndsInReturn(ts) && CoversAbi(fixed)
    requires p <= |ts| && LowerTo(ts, fixed, p).Some? && |LowerTo(ts, fixed, p).value.info| == SPILL
    requires StartsWith(I, e, regs)
    ensures var st := LowerTo(ts, fixed, p).value;
      && InfoOk(ts, p, st.info) && Named(st.code, |st.code|)
      && Holds(I, EnvAt(I, e, ts, p), st.info, RunTo(I, regs, st.code, |st.code|))
    decreases p
  {
    hide InfoOk, WellFormed, GenericBinop, Holds, RunTo, Named;
    LowerOk(ts, fixed, p);
    if p == 0 {
      InitialHolds(I, e, regs);
    } else {
      var st, st' := LowerTo(ts, fixed, p - 1).value, LowerTo(ts, fixed, p).value;
      LowerOk(ts, fixed, p - 1);
      if ts[p - 1].kind.Bin? {
        BinopStep(ts, p - 1, fixed, st);
        LowerSimulates(I, e, ts, fixed, p - 1, regs);
        BinopSimulates(I, EnvAt(I, e, ts, p - 1), ts, p - 1, st, st', regs);
      } else {
        LowerSimulates(I, e, ts, fixed, p - 1, regs);
        if ts[p - 1].kind.Return? {
          RetSimulates(I, regs, st.code);
        }
      }
    }
  }

  lemma {:induction false} InitialHolds<V>(I: Interp<V>, e: map<nat, V>, regs: seq<V>)
    requires StartsWith(I, e, regs)
    ensures Named([], 0) && Holds(I, e, InitialInfo(), RunTo(I, regs, [], 0))
  {
    forall r | 0 <= r < SPILL && InitialInfo()[r] != 0
      ensures regs[r] == Get(I, e, InitialInfo()[r])
    {
      assert regs[A0 + (r - A0)] == Get(I, e, ParamId(r - A0));
    }
  }

  lemma {:induction false} RetSimulates<V>(I: Interp<V>, regs: seq<V>, code: seq<Code>)
    requires |regs| == SPILL && Named(code, |code|)
    ensures Named(code + [Ret], |code| + 1)
    ensures RunTo(I, regs, code + [Ret], |code| + 1) == RunTo(I, regs, code, |code|)
  {
    RunPrefix(I, regs, code, [Ret], |code|);
  }

  lemma {:induction false} BinopSimulates<V>(I: Interp<V>, env: map<nat, V>, ts: seq<Token>, p: nat, st: State,
      st': State, regs: seq<V>)
    requires WellFormed(ts, 4) && p < |ts| && ts[p].kind.Bin? && |st.info| == SPILL == |st'.info| && |regs| == SPILL
    requires InfoOk(ts, p, st.info) && BinopEmitted(ts, p, st, st')
    requires Named(st.code, |st.code|) && Holds(I, env, st.info, RunTo(I, regs, st.code, |st.code|))
    ensures Named(st'.code, |st'.code|)
    ensures Holds(I, Exec(I, env, ts[p]), st'.info, RunTo(I, regs, st'.code, |st'.code|))
  {
    hide InfoOk, WellFormed, Holds;
    var rd: nat, ra: nat, rb: nat :| EmittedWith(ts, p, st, st', rd, ra, rb);
    OperandHeld(ts, p, st.info, 0);
    OperandHeld(ts, p, st.info, 1);
    AllocKeeps(ts, p, st.info);
    BinopHolds(I, env, ts, p, st, st', RunTo(I, regs, st.code, |st.code|), rd, ra, rb);
    RunPrefix(I, regs, st.code, [st'.code[|st.code|]], |st.code|);
  }

  lemma {:induction false} InfoGrows(ts: seq<Token>, fixed: Policy, p: nat, q: nat)
    requires p <= q <= |ts| && LowerTo(ts, fixed, q).Some?
    ensures LowerTo(ts, fixed, p).Some?
    ensures |LowerTo(ts, fixed, p).value.info| <= |LowerTo(ts, fixed, q).value.info|
    ensures LowerTo(ts, fixed, p).value.code <= LowerTo(ts, fixed, q).value.code
    decreases q - p
  {
    hide GenericBinop;
    if p < q {
      InfoGrows(ts, fixed, p, q - 1);
    }
  }

  /** The lowered function never spills. */
  ghost predicate FitsRegisters(ts: seq<Token>, fixed: Policy) {
    var st := LowerTo(ts, fixed, |ts|);
    st.Some? && |st.value.info| == SPILL
  }

  /** The code that runs: what precedes the first RETURN, then `ret`. */
  ghost function BodyLength(ts: seq<Token>, fixed: Policy): nat
    requires FitsRegisters(ts, fixed)
  {
    InfoGrows(ts, fixed, FirstReturn(ts), |ts|);
    |LowerTo(ts, fixed, FirstReturn(ts)).value.code|
  }

  /** Running the lowered function up to its first `ret` leaves the value it returns in the
      register the table gives for the returned id. */
  lemma {:induction false} LoweredReturns<V>(I: Interp<V>, e: map<nat, V>, ts: seq<Token>, fixed: Policy, regs: seq<V>)
      returns (r: nat)
    requires WellFormed(ts, 4) && NoIdentity(ts) && EndsInReturn(ts) && CoversAbi(fixed)
    requires FitsRegisters(ts, fixed) && FirstReturn(ts) < |ts| && StartsWith(I, e, regs)
    ensures var p, code := FirstReturn(ts), LowerTo(ts, fixed, |ts|).value.code;
      var n := BodyLength(ts, fixed);
      && LowerTo(ts, fixed, p).Some?
      && FindUsed(LowerTo(ts, fixed, p).value.info, ts[p].args[0]) == Some(r) && r < SPILL
      && n < |code| && code[n] == Ret && (forall i :: 0 <= i < n ==> code[i].Op?) && Named(code, n)
      && RunTo(I, regs, code, n)[r] == Returned(I, e, ts)
  {
    hide WellFormed, GenericBinop, InfoOk, Holds, RunTo, Named, LowerTo, FirstReturn;
    var p, n := FirstReturn(ts), BodyLength(ts, fixed);
    var code := LowerTo(ts, fixed, |ts|).value.code;
    InfoGrows(ts, fixed, p, |ts|);
    InfoGrows(ts, fixed, p + 1, |ts|);
    LowerSimulates(I, e, ts, fixed, p, regs);
    var st := LowerTo(ts, fixed, p).value;
    NoRetBefore(ts, fixed, p);
    ReturnedHeld(ts, p, st.info);
    r := FindUsed(st.info, ts[p].args[0]).value;
    assert code == st.code + code[n..];
    RunPrefix(I, regs, st.code, code[n..], n);
    RetAppended(ts, fixed, p);
    assert code[n] == (st.code + [Ret])[n];
    HeldValue(I, EnvAt(I, e, ts, p), st.info, RunTo(I, regs, st.code, n), r);
  }

  /** The returned id is found in A0, where callers look for the value, exactly when it is the first
      parameter. */
  lemma {:induction false} ReturnsInA0Exactly(ts: seq<Token>, fixed: Policy, p: nat)
    requires WellFormed(ts, 4) && NoIdentity(ts) && EndsInReturn(ts) && CoversAbi(fixed)
    requires p < |ts| && ts[p].kind.Return? && LowerTo(ts, fixed, p).Some?
    ensures FindUsed(LowerTo(ts, fixed, p).value.info, ts[p].args[0]) == Some(A0) <==> ts[p].args[0] == ParamId(0)
  {
    hide LowerTo, WellFormed;
    var info := LowerTo(ts, fixed, p).value.info;
    LowerOk(ts, fixed, p);
    ReturnedHeld(ts, p, info);
    assert info[A0 + 0] == ParamId(0);
  }

  lemma {:induction false} RetAppended(ts: seq<Token>, fixed: Policy, p: nat)
    requires p < |ts| && ts[p].kind.Return? && LowerTo(ts, fixed, p + 1).Some?
    ensures LowerTo(ts, fixed, p).Some?
    ensures LowerTo(ts, fixed, p + 1).value.code == LowerTo(ts, fixed, p).value.code + [Ret]
  {
    hide GenericBinop;
  }

  lemma {:induction false} HeldValue<V>(I: Interp<V>, env: map<nat, V>, info: seq<nat>, regs: seq<V>, r: nat)
    requires |info| == SPILL == |regs| && Holds(I, env, info, regs) && r < SPILL && info[r] != 0
    ensures regs[r] == Get(I, env, info[r])
  {
  }

  lemma {:induction false} ReturnedHeld(ts: seq<Token>, p: nat, info: seq<nat>)
    requires WellFormed(ts, 4) && p < |ts| && ts[p].kind.Return? && InfoOk(ts, p, info)
    ensures ts[p].args[0] in info && ts[p].args[0] != 0
  {
    var x := ts[p].args[0];
    assert Resolves(ts, 4, p, x);
    assert UsedIn(ts[p], x);
    assert !LastUse(ts, p, x);
  }

  lemma {:induction false} NoRetBefore(ts: seq<Token>, fixed: Policy, p: nat)
    requires p <= |ts| && LowerTo(ts, fixed, p).Some?
    requires forall q :: 0 <= q < p ==> !ts[q].kind.Return?
    ensures forall i :: 0 <= i < |LowerTo(ts, fixed, p).value.code| ==> LowerTo(ts, fixed, p).value.code[i].Op?
    decreases p
  {
    hide GenericBinop;
    if p > 0 {
      NoRetBefore(ts, fixed, p - 1);
    }
  }
}

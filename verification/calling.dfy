/** From source to result: the listing of a function, assembled, loaded and called, returns its value. */
module Calling {
  import opened Options
  import opened Words
  import Ssa
  import opened Isa
  import opened AsmText
  import opened Assembler
  import opened Printing
  import opened Memory
  import opened Machine
  import opened Program
  import opened Refinement
  import opened Toolchain
  import opened Ast
  import opened Exactness
  import Emission
  import Floats
  import L = Lower
  import Passes
  import C = Compiler

  // ---------- the program the listing describes ----------

  function Instrs(code: seq<L.Code>): (r: seq<Instr>)
    requires L.AllNamed(code)
    ensures |r| == |code| && forall k :: 0 <= k < |code| ==> r[k] == InstrOf(code[k])
  {
    seq(|code|, k requires 0 <= k < |code| => InstrOf(code[k]))
  }

  function FuncProg(name: string, code: seq<L.Code>): Prog
    requires L.AllNamed(code)
  {
    Prog(Instrs(code), [LabelDef(name, 0)])
  }

  lemma {:induction false} CodeFormats(c: L.Code)
    requires L.CodeNamed(c)
    ensures FormatOf(InstrOf(c).m) == if c.Op? then ImmOrReg else NoOperand
    ensures InstrNamed(NameOf(InstrOf(c).m), InstrOf(c).ops) == Some(InstrOf(c))
  {
    hide FindName, NameOf;
    FindNameRecovers(InstrOf(c).m);
  }

  /** The section lines stand for nothing. */
  lemma {:induction false} SectionNamed(ops: Ops)
    ensures InstrNamed(".section", ops).None?
  {
    DotNoName(".section");
    hide FindName, Floats.FindRow;
  }

  lemma {:induction false} HeadProg(name: string, ls: seq<Line>)
    requires LinesOk(ls) && |ls| >= 2
    requires ls[0] == Inst(".section", [LabelOp(".text"), Absent, Absent, Absent]) && ls[1] == Label(name)
    ensures ProgTo(ls, 2) == Prog([], [LabelDef(name, 0)])
  {
    hide InstrNamed;
    SectionNamed(ls[0].ops);
    assert ProgTo(ls, 0) == Prog([], []);
    assert ProgTo(ls, 1) == Prog([], []);
    assert ProgTo(ls, 2) == Prog([], [] + [LabelDef(name, 0)]);
    assert [] + [LabelDef(name, 0)] == [LabelDef(name, 0)];
  }

  lemma {:induction false} ParsedAt(name: string, code: seq<L.Code>, k: nat)
    requires L.AllNamed(code) && k < |code|
    ensures var ls := FuncParsed(name, code);
      && |ls| == |code| + 3 && LinesOk(ls) && ls[2 + k] == ParsedOf(code[k])
      && ls[0] == Inst(".section", [LabelOp(".text"), Absent, Absent, Absent]) && ls[1] == Label(name)
  {
    hide InstrOf, NameOf;
  }

  lemma {:induction false} CodeProg(name: string, code: seq<L.Code>, k: nat)
    requires L.AllNamed(code) && k <= |code|
    ensures LinesOk(FuncParsed(name, code))
    ensures ProgTo(FuncParsed(name, code), 2 + k) == Prog(Instrs(code)[..k], [LabelDef(name, 0)])
  {
    hide InstrNamed, NameOf, FormatOf, InstrOf, ParsedLines;
    var ls := FuncParsed(name, code);
    if k == 0 {
      HeadProg(name, ls);
    } else {
      CodeProg(name, code, k - 1);
      ParsedAt(name, code, k - 1);
      CodeFormats(code[k - 1]);
      assert Instrs(code)[..k] == Instrs(code)[..k - 1] + [InstrOf(code[k - 1])];
    }
  }

  lemma {:induction false} WholeProg(name: string, code: seq<L.Code>)
    requires L.AllNamed(code)
    ensures LinesOk(FuncParsed(name, code))
    ensures ProgTo(FuncParsed(name, code), |FuncParsed(name, code)|) == FuncProg(name, code)
  {
    hide InstrNamed, NameOf, FormatOf, InstrOf;
    var ls := FuncParsed(name, code);
    CodeProg(name, code, |code|);
    SectionNamed([LabelOp(".data"), Absent, Absent, Absent]);
    assert |ls| == |code| + 3 && ls[|code| + 2] == Inst(".section", [LabelOp(".data"), Absent, Absent, Absent]);
    assert Instrs(code)[..|code|] == Instrs(code);
  }

  lemma {:induction false} FuncProgOk(name: string, code: seq<L.Code>)
    requires L.AllNamed(code) && 4 * |code| <= ROM_SIZE
    ensures var p := FuncProg(name, code);
      ProgOk(p) && AllLabelsKnown(p) && forall k :: 0 <= k < |p.insts| ==> !NeedsLabel(p.insts[k])
  {
    var p := FuncProg(name, code);
    hide FormatOf, FindName, NameOf;
    forall k | 0 <= k < |p.insts|
      ensures InstrOk(p, k) && !NeedsLabel(p.insts[k])
    {
      CodeFormats(code[k]);
    }
  }

  /** What the assembler makes of a function's text: a word per instruction, nothing to fix up. */
  lemma {:induction false} FuncAssembles(name: string, code: seq<L.Code>)
    requires PlainName(name) && L.AllNamed(code) && 4 * |code| <= ROM_SIZE
    ensures var st := AssembleText(Concat(FuncLines(name, code)));
      && st.Some? && st.value.fixups == [] && AllLabelsKnown(FuncProg(name, code))
      && CodeFor(FuncProg(name, code), st.value.out)
  {
    hide FuncLines, ParseLines, LinesOf, ProgTo, LinesOk, NeedsLabel, FuncParsed, PlainName;
    FuncParses(name, code);
    WholeProg(name, code);
    FuncProgOk(name, code);
    var ls, p := FuncParsed(name, code), FuncProg(name, code);
    var st := AssembleTo(ls, |ls|);
    Layout(ls, |ls|);
    NoFixups(st, p);
    AssembledCode(st, p);
  }

  lemma {:induction false} NoFixups(st: Asm, p: Prog)
    requires LaidOut(st, p) && forall k :: 0 <= k < |p.insts| ==> !NeedsLabel(p.insts[k])
    ensures st.fixups == []
  {
    assert |st.fixups| > 0 ==> FixesInstr(st.fixups[0], p);
  }

  // ---------- registers in step ----------

  /** The operators as the machine computes them. */
  function OnMachine(host: Host): Ssa.Interp<u32> {
    Ssa.Interp((op: Ssa.BinOp, a: u32, b: u32) => Alu(host, op, a, b), 0)
  }

  /** The parameters a caller passes. */
  function Passed(c: Cpu): map<nat, u32>
    requires CpuOk(c)
  {
    map x | x in ParamTerms(4) :: c.r[8 + (x - Ssa.ParamId(0))]
  }

  /** The compiler's registers as the machine has them. */
  function View(c: Cpu): (regs: seq<u32>)
    requires CpuOk(c)
    ensures |regs| == L.SPILL
  {
    seq(L.SPILL, q requires 0 <= q < L.SPILL => if L.HasName(q) then c.r[Phys(q)] else 0)
  }

  ghost predicate InStep(regs: seq<u32>, c: Cpu) {
    |regs| == L.SPILL && CpuOk(c) && forall q :: 0 <= q < L.SPILL && L.HasName(q) ==> c.r[Phys(q)] == regs[q]
  }

  /** The registers a function leaves alone: t7, a0 to a3, ra, bp, sp and tp. */
  ghost predicate OthersKept(c: Cpu, c': Cpu)
    requires CpuOk(c) && CpuOk(c')
  {
    forall q :: 7 <= q < REG_COUNT ==> c'.r[q] == c.r[q]
  }

  lemma {:induction false} ViewStarts(host: Host, c: Cpu)
    requires CpuOk(c)
    ensures L.StartsWith(OnMachine(host), Passed(c), View(c)) && InStep(View(c), c)
    ensures Passed(c).Keys == ParamTerms(4).Keys
  {
    var I, e, regs := OnMachine(host), Passed(c), View(c);
    forall i | 0 <= i < 4
      ensures regs[L.A0 + i] == Ssa.Get(I, e, Ssa.ParamId(i))
    {
      assert Param(Ssa.ParamId(i)).Param? && Ssa.ParamId(i) in ParamTerms(4);
      assert Phys(L.A0 + i) == 8 + i;
    }
  }

  /** One operation of the compiled code on the machine. */
  lemma {:induction false} OpSteps(host: Host, name: string, code: seq<L.Code>, k: nat, s: Core, regs: seq<u32>)
    requires L.AllNamed(code) && 4 * |code| <= ROM_SIZE && k < |code| && code[k].Op?
    requires CoreOk(s) && InStep(regs, s.cpu)
    ensures ProgOk(FuncProg(name, code))
    ensures var t := StepProg(host, FuncProg(name, code), PState(k, s));
      var c := code[k];
      && t.Some? && t.value.at == k + 1 && t.value.core.mem == s.mem
      && InStep(regs[c.rd := Alu(host, c.op, regs[c.ra], regs[c.rb])], t.value.core.cpu)
      && OthersKept(s.cpu, t.value.core.cpu)
  {
    hide FormatOf, Alu, InstrOk, MemOk, Operate, ExecInt, MnemonicOf, RegOf;
    FuncProgOk(name, code);
    CodeFormats(code[k]);
    RegOfPhys(code[k].rd);
    RegOfPhys(code[k].ra);
    RegOfPhys(code[k].rb);
    OpExecutes(host, code[k], s, regs);
    assert FuncProg(name, code).insts[k] == InstrOf(code[k]);
  }

  lemma {:induction false} RegOfPhys(r: nat)
    requires L.HasName(r)
    ensures RegOf(RegOp(Phys(r))) == Phys(r)
  {
  }

  lemma {:induction false} OpExecutes(host: Host, c: L.Code, s: Core, regs: seq<u32>)
    requires c.Op? && L.CodeNamed(c) && CoreOk(s) && InStep(regs, s.cpu)
    ensures var t := ExecInt(host, MnemonicOf(c.op), Operate(s.cpu, Phys(c.rd), Phys(c.ra), Reg(Phys(c.rb), 0)), s);
      && t.Some? && t.value.mem == s.mem
      && InStep(regs[c.rd := Alu(host, c.op, regs[c.ra], regs[c.rb])], t.value.cpu)
      && OthersKept(s.cpu, t.value.cpu)
  {
    hide Alu, MemOk;
    var o := Operate(s.cpu, Phys(c.rd), Phys(c.ra), Reg(Phys(c.rb), 0));
    assert o.a == regs[c.ra] && o.b == regs[c.rb];
    assert ArithOf(MnemonicOf(c.op)) == Some(c.op);
  }

  /** The compiled code up to its `ret`. */
  lemma {:induction false} OpsRun(host: Host, name: string, code: seq<L.Code>, n: nat, s: Core)
    requires L.AllNamed(code) && 4 * |code| <= ROM_SIZE && n <= |code| && (forall i :: 0 <= i < n ==> code[i].Op?)
    requires CoreOk(s) && L.Named(code, n)
    ensures ProgOk(FuncProg(name, code))
    ensures var t := RunProg(host, FuncProg(name, code), PState(0, s), n);
      && t.Some? && t.value.at == n && t.value.core.mem == s.mem
      && InStep(L.RunTo(OnMachine(host), View(s.cpu), code, n), t.value.core.cpu)
      && OthersKept(s.cpu, t.value.core.cpu)
    decreases n
  {
    hide StepProg, InStep, FuncProg, ProgOk, L.AllNamed, MemOk, View;
    FuncProgOk(name, code);
    if n == 0 {
      ViewStarts(host, s.cpu);
    } else {
      OpsRun(host, name, code, n - 1, s);
      var t := RunProg(host, FuncProg(name, code), PState(0, s), n - 1).value;
      OpSteps(host, name, code, n - 1, t.core, L.RunTo(OnMachine(host), View(s.cpu), code, n - 1));
    }
  }

  /** `ret` goes to the address in the return-address register. */
  lemma {:induction false} RetSteps(host: Host, p: Prog, k: nat, s: Core)
    requires ProgOk(p) && CoreOk(s) && Loaded(p, s.mem) && k < |p.insts| && AddressOf(k) < TWO32
    requires p.insts[k].Instr? && p.insts[k].m == Mnemonic.Ret
    ensures Step(host, State(AddressOf(k), s)) == Some(State(s.cpu.r[ABI_RA], s))
  {
    hide Step, Loaded, Execute, ProgOk, MemOk, FinalWordOk;
    StepsWord(host, p, k, s);
    RetWord(p, k);
    var w := FinalWordOk(p, k);
    RetExecutes(host, State(AddressOf(k), s), w[1], w[2]);
  }

  lemma {:induction false} RetWord(p: Prog, k: nat)
    requires ProgOk(p) && k < |p.insts| && p.insts[k].Instr? && p.insts[k].m == Mnemonic.Ret
    ensures FinalWordOk(p, k)[3] == OpcodeOf(Mnemonic.Ret)
  {
    hide InstrOk, ProgOk, FindLabel;
  }

  lemma {:induction false} RetExecutes(host: Host, s: State, b1: byte, b2: byte)
    requires CoreOk(s.core)
    ensures Execute(host, s, b1, b2, OpcodeOf(Mnemonic.Ret)) == Some(State(s.core.cpu.r[ABI_RA], s.core))
  {
    hide Dispatch, ExecInt, ExecFour, ExecBranch, Operate, MemOk;
    OpcodeRange(Mnemonic.Ret);
    DispatchRecovers(Mnemonic.Ret, OpcodeOf(Mnemonic.Ret));
  }

  // ---------- source to result ----------

  /** The code of a function body. */
  function CodeOf(t: Tree, params: seq<string>, compared: nat, fixed: L.Policy): Option<seq<L.Code>>
    requires compared <= Ssa.MAX_ARGS
  {
    var ts := C.Frontend(t, params, compared);
    if ts.None? then None
    else
      var st := L.LowerTo(ts.value, fixed, |ts.value|);
      if st.None? then None else Some(st.value.code)
  }

  /** The function fits the registers, and its code the ROM. */
  ghost predicate FitsMachine(t: Tree, params: seq<string>, compared: nat, fixed: L.Policy)
    requires C.Compilable(t, params, compared)
  {
    && C.Frontend(t, params, compared).Some? && L.FitsRegisters(C.Frontend(t, params, compared).value, fixed)
    && 4 * |CodeOf(t, params, compared, fixed).value| <= ROM_SIZE
  }

  /** The register the allocator gives for the returned id. */
  function ResultRegister(ts: seq<Ssa.Token>, fixed: L.Policy): (r: nat)
  {
    var p := Ssa.FirstReturn(ts);
    if p >= |ts| || L.LowerTo(ts, fixed, p).None? then 0
    else
      var q := L.FindUsed(L.LowerTo(ts, fixed, p).value.info, ts[p].args[0]);
      if q.None? then 0 else q.value
  }

  lemma {:induction false} ResultRegisterNamed(ts: seq<Ssa.Token>, fixed: L.Policy)
    requires Ssa.WellFormed(ts, 4) && Ssa.NoIdentity(ts) && L.EndsInReturn(ts) && L.CoversAbi(fixed)
    requires L.FitsRegisters(ts, fixed) && Ssa.FirstReturn(ts) < |ts|
    ensures L.AllNamed(L.LowerTo(ts, fixed, |ts|).value.code)
    ensures L.HasName(ResultRegister(ts, fixed))
  {
    hide Ssa.WellFormed, L.GenericBinop, L.HasName;
    var p := Ssa.FirstReturn(ts);
    L.OnlyNamedRegisters(ts, fixed, |ts|);
    L.InfoGrows(ts, fixed, p, |ts|);
    L.LowerOk(ts, fixed, p);
    var info := L.LowerTo(ts, fixed, p).value.info;
    L.ReturnedHeld(ts, p, info);
    L.OccupiedNamed(ts, p, info, L.FindUsed(info, ts[p].args[0]).value);
  }

  /** After some number of steps from a call, control is back at the caller's return address, the
      value is in register `q`, and memory and the caller's registers are as they were. */
  ghost predicate ReturnsWith(host: Host, s: Core, q: nat, v: u32)
    requires CoreOk(s) && q < REG_COUNT
  {
    exists n: nat :: ReturnsIn(host, s, q, v, n)
  }

  ghost predicate ReturnsIn(host: Host, s: Core, q: nat, v: u32, n: nat)
    requires CoreOk(s) && q < REG_COUNT
  {
    var t := Run(host, State(ROM_BASE, s), n);
    && t.Some? && t.value.pc == s.cpu.r[ABI_RA] && t.value.core.cpu.r[q] == v
    && t.value.core.mem == s.mem && OthersKept(s.cpu, t.value.core.cpu)
  }

  lemma {:induction false} CodeReturns(host: Host, name: string, code: seq<L.Code>, n: nat, s: Core, r: nat)
    requires L.AllNamed(code) && 4 * |code| <= ROM_SIZE && n < |code| && code[n].Ret? && L.HasName(r)
    requires (forall i :: 0 <= i < n ==> code[i].Op?) && L.Named(code, n)
    requires CoreOk(s) && ProgOk(FuncProg(name, code)) && Loaded(FuncProg(name, code), s.mem)
    ensures ReturnsIn(host, s, Phys(r), L.RunTo(OnMachine(host), View(s.cpu), code, n)[r], n + 1)
  {
    hide Loaded, ProgOk, L.AllNamed, MemOk, View, Step, L.RunTo, RunProg, InStep;
    var p := FuncProg(name, code);
    OpsRun(host, name, code, n, s);
    RunRefines(host, p, PState(0, s), n);
    var t := RunProg(host, p, PState(0, s), n).value;
    assert Run(host, State(ROM_BASE, s), n) == Some(Embed(t));
    assert p.insts[n] == InstrOf(code[n]);
    RetSteps(host, p, n, t.core);
    InStepAt(L.RunTo(OnMachine(host), View(s.cpu), code, n), t.core.cpu, r);
  }

  lemma {:induction false} InStepAt(regs: seq<u32>, c: Cpu, r: nat)
    requires InStep(regs, c) && L.HasName(r)
    ensures c.r[Phys(r)] == regs[r]
  {
  }

  /** The text written for a body assembles without fixups, and a call of its bytes at the start of
      ROM returns what the source says. */
  ghost predicate RunsAsWritten(host: Host, s: Core, t: Tree, params: seq<string>, compared: nat,
      fixed: L.Policy, name: string)
    requires C.Compilable(t, params, compared) && CoreOk(s)
  {
    var ts, code := C.Frontend(t, params, compared), CodeOf(t, params, compared, fixed);
    && ts.Some? && code.Some? && L.AllNamed(code.value) && L.HasName(ResultRegister(ts.value, fixed))
    && Emission.IsExpr(Emission.FirstReturned(t).value, params)
    && var st := AssembleText(Concat(FuncLines(name, code.value)));
       && st.Some? && st.value.fixups == []
       && (st.value.out <= s.mem.rom ==>
             ReturnsWith(host, s, Phys(ResultRegister(ts.value, fixed)),
                         Emission.EvalExpr(OnMachine(host), Passed(s.cpu), params, Emission.FirstReturned(t).value)))
  }

  /** Any body the compiler can handle, any host, any machine state, any register test that covers
      the argument and special registers. */
  lemma {:induction false} SourceToResult(host: Host, s: Core, t: Tree, params: seq<string>, compared: nat,
                                          fixed: L.Policy, name: string)
    requires C.Compilable(t, params, compared) && L.CoversAbi(fixed) && FitsMachine(t, params, compared, fixed)
    requires PlainName(name) && CoreOk(s)
    ensures RunsAsWritten(host, s, t, params, compared, fixed, name)
  {
    hide C.Frontend, L.LowerTo, L.AllNamed, L.HasName, PlainName, Emission.IsExpr, Emission.EvalExpr,
         Emission.FirstReturned, Emission.IsBody, Passes.ComparesEnough,
         FuncLines, AssembleText, ProgOk, Loaded, MemOk, ResultRegister, View, Passed, OnMachine, L.StartsWith,
              FuncProg, ReturnsIn, CodeFor, L.RunTo;
    var I, e, regs := OnMachine(host), Passed(s.cpu), View(s.cpu);
    ViewStarts(host, s.cpu);
    C.FrontendCorrect(I, e, t, params, compared);
    var ts, code := C.Frontend(t, params, compared).value, CodeOf(t, params, compared, fixed).value;
    ResultRegisterNamed(ts, fixed);
    FuncAssembles(name, code);
    var out := AssembleText(Concat(FuncLines(name, code))).value.out;
    var r := ResultRegister(ts, fixed);
    if out <= s.mem.rom {
      FuncProgOk(name, code);
      LoadedFromCode(FuncProg(name, code), out, s.mem);
      var q := C.CompiledCorrect(I, e, t, params, compared, fixed, regs);
      ResultRegisterIs(ts, fixed, q);
      var n :| 0 <= n < |code| && code[n].Ret? && (forall i :: 0 <= i < n ==> code[i].Op?) && L.Named(code, n)
        && L.RunTo(I, regs, code, n)[r] == Emission.EvalExpr(I, e, params, Emission.FirstReturned(t).value);
      CodeReturns(host, name, code, n, s, r);
    }
  }

  lemma {:induction false} ResultRegisterIs(ts: seq<Ssa.Token>, fixed: L.Policy, q: nat)
    requires Ssa.FirstReturn(ts) < |ts| && L.LowerTo(ts, fixed, Ssa.FirstReturn(ts)).Some?
    requires L.FindUsed(L.LowerTo(ts, fixed, Ssa.FirstReturn(ts)).value.info, ts[Ssa.FirstReturn(ts)].args[0])
            == Some(q)
    ensures ResultRegister(ts, fixed) == q
  {
  }

  /** The value is in A0 exactly when the body returns its first parameter. */
  lemma {:induction false} ResultInA0Exactly(ts: seq<Ssa.Token>, fixed: L.Policy)
    requires Ssa.WellFormed(ts, 4) && Ssa.NoIdentity(ts) && L.EndsInReturn(ts) && L.CoversAbi(fixed)
    requires L.FitsRegisters(ts, fixed) && Ssa.FirstReturn(ts) < |ts|
    ensures ResultRegister(ts, fixed) == L.A0 <==> ts[Ssa.FirstReturn(ts)].args[0] == Ssa.ParamId(0)
  {
    hide Ssa.WellFormed, L.GenericBinop, L.LowerTo;
    var p := Ssa.FirstReturn(ts);
    L.InfoGrows(ts, fixed, p, |ts|);
    L.ReturnsInA0Exactly(ts, fixed, p);
  }

  /** The code exactly as written: one argument compared, the register test true of every register. Any
      body over at most four parameters whose reads agree up to its return, with at most seven
      operations left after the passes, runs as written. */
  lemma {:induction false} AsWrittenToResult(host: Host, s: Core, t: Tree, params: seq<string>, name: string)
    requires C.Compilable(t, params, 1) && PlainName(name) && CoreOk(s)
    requires var ts := C.Frontend(t, params, 1);
      ts.Some? ==> L.BinCount(ts.value, |ts.value|) <= 7
    requires CodeOf(t, params, 1, L.AS_WRITTEN).Some? ==> 4 * |CodeOf(t, params, 1, L.AS_WRITTEN).value| <= ROM_SIZE
    ensures RunsAsWritten(host, s, t, params, 1, L.AS_WRITTEN, name)
  {
    hide C.Frontend, C.Compilable, PlainName, RunsAsWritten, CoreOk, L.LowerTo, L.BinCount;
    WrittenFits(host, s, t, params);
    SourceToResult(host, s, t, params, 1, L.AS_WRITTEN, name);
  }

  lemma {:induction false} WrittenFits(host: Host, s: Core, t: Tree, params: seq<string>)
    requires C.Compilable(t, params, 1) && CoreOk(s)
    requires var ts := C.Frontend(t, params, 1);
      ts.Some? ==> L.BinCount(ts.value, |ts.value|) <= 7
    requires CodeOf(t, params, 1, L.AS_WRITTEN).Some? ==> 4 * |CodeOf(t, params, 1, L.AS_WRITTEN).value| <= ROM_SIZE
    ensures L.CoversAbi(L.AS_WRITTEN) && FitsMachine(t, params, 1, L.AS_WRITTEN)
  {
    hide C.Frontend, C.Compilable, L.LowerTo, L.BinCount, Ssa.WellFormed, Emission.EvalExpr;
    ViewStarts(host, s.cpu);
    C.FrontendCorrect(OnMachine(host), Passed(s.cpu), t, params, 1);
    L.WrittenPolicyFitsExactly(C.Frontend(t, params, 1).value);
  }
}

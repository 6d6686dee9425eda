/** Running assembled bytes refines running the label-level program, for any number of steps. */
module Refinement {
  import opened Options
  import opened Words
  import opened Isa
  import opened AsmText
  import opened Assembler
  import opened Memory
  import opened Machine
  import opened Program

  // ---------- the label-level interpreter ----------

  /** The register an operand names: numbers are cut to four bits, as the assembler does. */
  function RegOf(op: Operand): (r: nat)
    requires op.RegOp?
    ensures r < REG_COUNT
  {
    op.i % REG_COUNT
  }

  /** An integer instruction with operands of the right kinds, any numbers in them; a label must
      be known and within reach. */
  predicate InstrOk(p: Prog, k: nat)
    requires k < |p.insts|
  {
    p.insts[k].Instr? &&
    var ops := p.insts[k].ops;
    match FormatOf(p.insts[k].m)
    case ImmOrReg =>
      && ops[0].RegOp? && ops[1].RegOp?
      && (ops[2].ImmOp? || (ops[2].RegOp? && (ops[3].Absent? || ops[3].ImmOp?)))
    case FourRegs => ops[0].RegOp? && ops[1].RegOp? && ops[2].RegOp? && ops[3].RegOp?
    case Branch =>
      && ops[0].RegOp? && ops[2].CondOp? && ops[2].bits < 16
      && (ops[1].ImmOp? || (ops[1].LabelOp? && FindLabel(p.labels, ops[1].name).Some?))
      && -128 <= Displacement(p, k) <= 127
    case NoOperand => true
    case _ => false
  }

  /** How far, in bytes, branch `k` goes; a number is cut to a signed byte. */
  function Displacement(p: Prog, k: nat): int
    requires k < |p.insts|
  {
    match p.insts[k].ops[1]
    case ImmOp(d) => Signed8(d % 256)
    case LabelOp(name) =>
      var l := FindLabel(p.labels, name);
      if l.Some? then 4 * l.value - 4 * k else 0
    case _ => 0
  }

  predicate ProgOk(p: Prog) {
    4 * |p.insts| <= ROM_SIZE && forall k :: 0 <= k < |p.insts| ==> InstrOk(p, k)
  }

  /** The address of instruction `k` once the program is loaded at the start of ROM. */
  function AddressOf(k: nat): int {
    ROM_BASE + 4 * k
  }

  /** The instruction an address belongs to; one past the last counts. */
  function IndexAt(p: Prog, a: int): Option<nat> {
    if ROM_BASE <= a <= AddressOf(|p.insts|) && (a - ROM_BASE) % 4 == 0 then Some((a - ROM_BASE) / 4) else None
  }

  datatype PState = PState(at: nat, core: Core)

  /** No store reaches the bytes of the program. */
  predicate CodeKept(p: Prog, m: Mem, m': Mem)
    requires MemOk(m) && MemOk(m') && 4 * |p.insts| <= ROM_SIZE
  {
    m'.rom[..4 * |p.insts|] == m.rom[..4 * |p.insts|]
  }

  /** The third operand; an immediate is cut to a byte, as the assembler does without a word. */
  function SourceOf(ops: Ops): Source
    requires ops[2].ImmOp? || ops[2].RegOp?
  {
    if ops[2].ImmOp? then Imm(ops[2].i % 256) else Reg(RegOf(ops[2]), if ops[3].ImmOp? then ops[3].i % 16 else 0)
  }

  /** One instruction of the program; `None` when control leaves it, it stores into itself, or
      the instruction is left out. */
  function StepProg(host: Host, p: Prog, s: PState): (t: Option<PState>)
    requires ProgOk(p) && CoreOk(s.core)
    ensures t.Some? ==> CoreOk(t.value.core)
  {
    if s.at >= |p.insts| then None
    else
      assert InstrOk(p, s.at);
      var m, ops := p.insts[s.at].m, p.insts[s.at].ops;
      match FormatOf(m)
      case ImmOrReg =>
        Fall(p, s, ExecInt(host, m, Operate(s.core.cpu, RegOf(ops[0]), RegOf(ops[1]), SourceOf(ops)), s.core))
      case FourRegs => Fall(p, s, ExecFour(m, RegOf(ops[0]), RegOf(ops[1]), RegOf(ops[2]), RegOf(ops[3]), s.core))
      case Branch =>
        if m != Call then StepBranch(p, s, m, RegOf(ops[0]), ops[2].bits, Displacement(p, s.at))
        else if ops[2].bits == 0 then StepCall(p, s, RegOf(ops[0]), Displacement(p, s.at))
        else None
      case NoOperand => GoTo(p, s, s.core.cpu.r[ABI_RA])
      case _ => None
  }

  function StepBranch(p: Prog, s: PState, m: Mnemonic, ra: nat, cc: nat, d: int): (t: Option<PState>)
    requires ProgOk(p) && CoreOk(s.core) && s.at < |p.insts| && ra < REG_COUNT
    ensures t.Some? ==> CoreOk(t.value.core)
  {
    var here, there := AddressOf(s.at), AddressOf(s.at) + d;
    if BranchTaken(m, s.core.cpu, ra, cc, here, Wrap(there)) then GoTo(p, s, there) else Some(s.(at := s.at + 1))
  }

  /** A call with condition bits names no register, which is undefined; without, it goes to register
      plus displacement and links past its target. */
  function StepCall(p: Prog, s: PState, ra: nat, d: int): (t: Option<PState>)
    requires ProgOk(p) && CoreOk(s.core) && ra < REG_COUNT
    ensures t.Some? ==> CoreOk(t.value.core)
  {
    var target := Wrap(s.core.cpu.r[ra] + d);
    GoTo(p, s.(core := s.core.(cpu := SetReg(s.core.cpu, ABI_RA, Wrap(target + 4)))), target)
  }

  function Fall(p: Prog, s: PState, core: Option<Core>): (t: Option<PState>)
    requires ProgOk(p) && CoreOk(s.core) && (core.Some? ==> CoreOk(core.value))
    ensures t.Some? ==> CoreOk(t.value.core)
  {
    if core.None? || !CodeKept(p, s.core.mem, core.value.mem) then None else Some(PState(s.at + 1, core.value))
  }

  function GoTo(p: Prog, s: PState, a: int): (t: Option<PState>)
    requires CoreOk(s.core)
    ensures t.Some? ==> CoreOk(t.value.core)
  {
    var k := IndexAt(p, a);
    if k.None? then None else Some(s.(at := k.value))
  }

  function RunProg(host: Host, p: Prog, s: PState, n: nat): (t: Option<PState>)
    requires ProgOk(p) && CoreOk(s.core)
    ensures t.Some? ==> CoreOk(t.value.core)
  {
    if n == 0 then Some(s)
    else
      var t := RunProg(host, p, s, n - 1);
      if t.None? then None else StepProg(host, p, t.value)
  }

  // ---------- the bytes ----------

  ghost predicate Loaded(p: Prog, m: Mem)
    requires ProgOk(p) && MemOk(m)
  {
    forall k :: 0 <= k < |p.insts| ==> WordAt(m.rom, k, FinalWordOk(p, k))
  }

  /** The final word of a well-formed instruction. */
  ghost function FinalWordOk(p: Prog, k: nat): (w: seq<byte>)
    requires ProgOk(p) && k < |p.insts|
    ensures |w| == 4
  {
    assert InstrOk(p, k);
    EmittedFormats(p.insts[k].m);
    FinalWord(p, k)
  }

  lemma {:induction false} EmittedFormats(m: Mnemonic)
    ensures Emits(m) <==> !(FormatOf(m).Abs16? || FormatOf(m).Rel16?)
  {
  }

  function Embed(s: PState): State
    requires AddressOf(s.at) < TWO32
  {
    State(AddressOf(s.at), s.core)
  }

  /** Fetching at an instruction boundary reads the instruction's word. */
  lemma {:induction false} Fetch(p: Prog, m: Mem, k: nat, j: nat)
    requires ProgOk(p) && MemOk(m) && Loaded(p, m) && k < |p.insts| && j < 4
    ensures Read8(m, Wrap(AddressOf(k) + j)) == FinalWordOk(p, k)[j]
  {
    assert WordAt(m.rom, k, FinalWordOk(p, k));
    assert m.rom[4 * k + j] == FinalWordOk(p, k)[j];
  }

  lemma {:induction false} CutTwice(i: int)
    ensures i % 256 % 16 == i % 16
  {
  }

  lemma {:induction false} NibbleFields(lo: Operand, hi: Operand)
    requires lo.RegOp? && (hi.RegOp? || hi.ImmOp? || hi.Absent?)
    ensures Nibbles(lo, hi) % 16 == RegOf(lo)
    ensures Nibbles(lo, hi) / 16 == if hi.Absent? then 0 else hi.i % 16
  {
    CutTwice(lo.i);
    if !hi.Absent? {
      CutTwice(hi.i);
    }
    hide Nibbles;
    NibblesApart(lo, hi);
  }

  lemma {:induction false} NibblesApart(lo: Operand, hi: Operand)
    ensures Nibbles(lo, hi) % 16 == Low(lo) % 16 && Nibbles(lo, hi) / 16 == Low(hi) % 16
  {
  }

  lemma {:induction false} Signed8Back(d: int)
    requires -128 <= d <= 127
    ensures Signed8(d % 256) == d
  {
  }

  lemma {:induction false} OpcodeRange(m: Mnemonic)
    ensures OpcodeOf(m) < 128
  {
  }

  /** Decoding the word of an instruction executes that instruction. */
  lemma {:induction false} ExecutesInstr(host: Host, p: Prog, s: PState)
    requires ProgOk(p) && CoreOk(s.core) && s.at < |p.insts|
    requires StepProg(host, p, s).Some?
    ensures AddressOf(s.at) < TWO32 && AddressOf(StepProg(host, p, s).value.at) < TWO32
    ensures var w := FinalWordOk(p, s.at);
      Execute(host, Embed(s), w[1], w[2], w[3]) == Some(Embed(StepProg(host, p, s).value))
  {
    hide OpcodeOf, Dispatch, ExecInt, ExecFour, BranchTaken, CodeKept, FindLabel, Operate, MemOk, CpuOk;
    assert InstrOk(p, s.at);
    var m, ops := p.insts[s.at].m, p.insts[s.at].ops;
    OpcodeRange(m);
    match FormatOf(m)
    case ImmOrReg => ExecutesImmOrReg(host, p, s);
    case FourRegs => ExecutesFour(host, p, s);
    case Branch => ExecutesBranch(host, p, s);
    case NoOperand =>
      DispatchRecovers(m, OpcodeOf(m));
      ChtreeFormat(m);
  }

  lemma {:induction false} ChtreeFormat(m: Mnemonic)
    ensures m == Chtreeunchk ==> FormatOf(m).FourRegs?
    ensures FormatOf(Chtree).FourRegs?
  {
  }

  lemma {:induction false} ExecutesImmOrReg(host: Host, p: Prog, s: PState)
    requires ProgOk(p) && CoreOk(s.core) && s.at < |p.insts|
    requires p.insts[s.at].Instr? && FormatOf(p.insts[s.at].m).ImmOrReg?
    requires StepProg(host, p, s).Some?
    ensures AddressOf(s.at) < TWO32 && AddressOf(StepProg(host, p, s).value.at) < TWO32
    ensures var w := FinalWordOk(p, s.at);
      Execute(host, Embed(s), w[1], w[2], w[3]) == Some(Embed(StepProg(host, p, s).value))
  {
    hide OpcodeOf, Dispatch, ExecInt, ExecFour, BranchTaken, CodeKept, FindLabel, Operate, Nibbles, MemOk;
    var m, ops := p.insts[s.at].m, p.insts[s.at].ops;
    assert InstrOk(p, s.at);
    OpcodeRange(m);
    ChtreeFormat(m);
    var w := FinalWordOk(p, s.at);
    DispatchRecovers(m, w[3]);
    NibbleFields(ops[0], ops[1]);
    if !ops[2].ImmOp? {
      SourceFields(ops);
    }
  }

  lemma {:induction false} SourceFields(ops: Ops)
    requires ops[2].RegOp? && (ops[3].Absent? || ops[3].ImmOp?)
    ensures Reg(Nibbles(ops[2], ops[3]) % 16, Nibbles(ops[2], ops[3]) / 16) == SourceOf(ops)
  {
    hide Nibbles;
    NibbleFields(ops[2], ops[3]);
  }

  lemma {:induction false} ExecutesFour(host: Host, p: Prog, s: PState)
    requires ProgOk(p) && CoreOk(s.core) && s.at < |p.insts|
    requires p.insts[s.at].Instr? && FormatOf(p.insts[s.at].m).FourRegs?
    requires StepProg(host, p, s).Some?
    ensures AddressOf(s.at) < TWO32 && AddressOf(StepProg(host, p, s).value.at) < TWO32
    ensures var w := FinalWordOk(p, s.at);
      Execute(host, Embed(s), w[1], w[2], w[3]) == Some(Embed(StepProg(host, p, s).value))
  {
    hide OpcodeOf, Dispatch, ExecInt, BranchTaken, CodeKept, FindLabel, Operate, Nibbles, MemOk, CopyTo,
         FillTo, StrNCopy, Read32;
    var m, ops := p.insts[s.at].m, p.insts[s.at].ops;
    assert InstrOk(p, s.at);
    OpcodeRange(m);
    ChtreeFormat(m);
    var w := FinalWordOk(p, s.at);
    DispatchRecovers(m, w[3]);
    NibbleFields(ops[0], ops[1]);
    NibbleFields(ops[2], ops[3]);
  }

  lemma {:induction false} ExecutesBranch(host: Host, p: Prog, s: PState)
    requires ProgOk(p) && CoreOk(s.core) && s.at < |p.insts|
    requires p.insts[s.at].Instr? && FormatOf(p.insts[s.at].m).Branch?
    requires StepProg(host, p, s).Some?
    ensures AddressOf(s.at) < TWO32 && AddressOf(StepProg(host, p, s).value.at) < TWO32
    ensures var w := FinalWordOk(p, s.at);
      Execute(host, Embed(s), w[1], w[2], w[3]) == Some(Embed(StepProg(host, p, s).value))
  {
    hide OpcodeOf, Dispatch, StepBranch, StepCall, ExecBranch, ExecCall, FindLabel, MemOk, FinalWordOk, Displacement,
         FormatOf, Emits;
    var m, ops := p.insts[s.at].m, p.insts[s.at].ops;
    assert InstrOk(p, s.at);
    ChtreeFormat(m);
    BranchWord(p, s.at);
    DispatchRecovers(m, FinalWordOk(p, s.at)[3]);
    var w := FinalWordOk(p, s.at);
    if m == Call {
      CallAgrees(p, s, w[1], w[2], Displacement(p, s.at));
    } else {
      BranchAgrees(p, s, m, w[1], w[2], Displacement(p, s.at));
    }
  }

  lemma {:induction false} CallAgrees(p: Prog, s: PState, b1: byte, b2: byte, d: int)
    requires ProgOk(p) && CoreOk(s.core) && s.at < |p.insts| && -128 <= d <= 127 && b2 == d % 256
    requires b1 / 16 == 0 && StepCall(p, s, b1 % 16, d).Some?
    ensures b1 < REG_COUNT && AddressOf(s.at) < TWO32 && AddressOf(StepCall(p, s, b1 % 16, d).value.at) < TWO32
    ensures ExecCall(Embed(s), b1, b2) == Embed(StepCall(p, s, b1 % 16, d).value)
  {
    hide MemOk;
    Signed8Back(d);
  }

  lemma {:induction false} BranchAgrees(p: Prog, s: PState, m: Mnemonic, b1: byte, b2: byte, d: int)
    requires ProgOk(p) && CoreOk(s.core) && s.at < |p.insts| && -128 <= d <= 127 && b2 == d % 256
    requires StepBranch(p, s, m, b1 % 16, b1 / 16, d).Some?
    ensures AddressOf(s.at) < TWO32 && AddressOf(StepBranch(p, s, m, b1 % 16, b1 / 16, d).value.at) < TWO32
    ensures ExecBranch(Embed(s), m, b1, b2) == Embed(StepBranch(p, s, m, b1 % 16, b1 / 16, d).value)
  {
    hide BranchTaken, MemOk;
    Signed8Back(d);
  }

  lemma {:induction false} BranchWord(p: Prog, k: nat)
    requires ProgOk(p) && k < |p.insts| && p.insts[k].Instr? && FormatOf(p.insts[k].m).Branch?
    ensures var w, ops := FinalWordOk(p, k), p.insts[k].ops;
      && ops[0].RegOp? && ops[2].CondOp? && -128 <= Displacement(p, k) <= 127
      && w[1] % 16 == RegOf(ops[0]) && w[1] / 16 == ops[2].bits
      && w[2] == Displacement(p, k) % 256 && w[3] == OpcodeOf(p.insts[k].m)
  {
    hide OpcodeOf, FindLabel, Nibbles, Low, Encode, FinalWord, WordOf;
    assert InstrOk(p, k);
    var i := p.insts[k];
    BranchEncoded(i.m, i.ops);
    assert WordOf(i) == Encode(i.m, i.ops) by {
      PlainWord(i);
    }
    FinalBranch(p, k);
    NibblesApart(i.ops[0], i.ops[2]);
    CutTwice(i.ops[0].i);
    BranchFields(i.ops);
  }

  lemma {:induction false} PlainWord(i: Instr)
    requires i.Instr? && Emitted(i)
    ensures WordOf(i) == Encode(i.m, i.ops)
  {
  }

  lemma {:induction false} BranchEncoded(m: Mnemonic, ops: Ops)
    requires FormatOf(m).Branch?
    ensures Encode(m, ops) == [0, Nibbles(ops[0], ops[2]), Low(ops[1]), OpcodeOf(m)]
  {
    hide OpcodeOf, Nibbles, Low;
  }

  /** Byte two after fixups is the displacement, whether it was a label or a number. */
  lemma {:induction false} FinalBranch(p: Prog, k: nat)
    requires ProgOk(p) && k < |p.insts| && p.insts[k].Instr? && FormatOf(p.insts[k].m).Branch? && InstrOk(p, k)
    ensures var i := p.insts[k];
      FinalWordOk(p, k) == WordOf(i)[2 := if i.ops[1].LabelOp? then Displacement(p, k) % 256 else WordOf(i)[2]]
  {
    hide OpcodeOf, FindLabel, Encode, WordOf;
    assert WordOf(p.insts[k])[2 := WordOf(p.insts[k])[2]] == WordOf(p.insts[k]);
  }

  lemma {:induction false} BranchFields(ops: Ops)
    requires ops[0].RegOp? && ops[2].CondOp? && ops[2].bits < 16
    ensures Low(ops[0]) % 16 == RegOf(ops[0]) && Low(ops[2]) % 16 == ops[2].bits
    ensures ops[1].ImmOp? ==> Low(ops[1]) == Signed8(ops[1].i % 256) % 256
  {
    CutTwice(ops[0].i);
  }

  lemma {:induction false} SamePrefixSameByte(a: seq<byte>, b: seq<byte>, n: nat, o: nat)
    requires n <= |a| && n <= |b| && a[..n] == b[..n] && o + 4 <= n
    ensures a[o] == b[o] && a[o + 1] == b[o + 1] && a[o + 2] == b[o + 2] && a[o + 3] == b[o + 3]
  {
    assert forall i :: 0 <= i < n ==> a[..n][i] == a[i] && b[..n][i] == b[i];
  }

  lemma {:induction false} StaysLoaded(host: Host, p: Prog, s: PState)
    requires ProgOk(p) && CoreOk(s.core) && Loaded(p, s.core.mem) && StepProg(host, p, s).Some?
    ensures Loaded(p, StepProg(host, p, s).value.core.mem)
  {
    hide Loaded, StepProg, MemOk, InstrOk, Prefix;
    StepKeepsPrefix(host, p, s);
    PrefixLoaded(p, s.core.mem, StepProg(host, p, s).value.core.mem);
  }

  /** The bytes of a program of `n` instructions are as before. */
  ghost predicate Prefix(n: nat, m: Mem, m': Mem)
    requires MemOk(m) && MemOk(m')
  {
    4 * n <= ROM_SIZE && m'.rom[..4 * n] == m.rom[..4 * n]
  }

  lemma {:induction false} StepKeepsPrefix(host: Host, p: Prog, s: PState)
    requires ProgOk(p) && CoreOk(s.core) && StepProg(host, p, s).Some?
    ensures Prefix(|p.insts|, s.core.mem, StepProg(host, p, s).value.core.mem)
  {
    hide ExecInt, ExecFour, BranchTaken, Operate, FormatOf, SourceOf, RegOf, Displacement, InstrOk;
  }

  lemma {:induction false} PrefixLoaded(p: Prog, m: Mem, m': Mem)
    requires ProgOk(p) && MemOk(m) && MemOk(m') && Loaded(p, m) && Prefix(|p.insts|, m, m')
    ensures Loaded(p, m')
  {
    hide InstrOk, FinalWordOk;
    forall k | 0 <= k < |p.insts|
      ensures WordAt(m'.rom, k, FinalWordOk(p, k))
    {
      assert WordAt(m.rom, k, FinalWordOk(p, k));
      SamePrefixSameByte(m'.rom, m.rom, 4 * |p.insts|, 4 * k);
    }
  }

  lemma {:induction false} StepFetches(host: Host, s: State)
    requires CoreOk(s.core)
    ensures var m := s.core.mem;
      Step(host, s) == Execute(host, s, Read8(m, Wrap(s.pc + 1)), Read8(m, Wrap(s.pc + 2)), Read8(m, Wrap(s.pc + 3)))
  {
    hide Execute, Read8;
  }

  lemma {:induction false} Addressed(s: Core, k: nat) returns (t: State)
    requires CoreOk(s) && AddressOf(k) < TWO32
    ensures MemOk(s.mem) && t == State(AddressOf(k), s)
  {
    hide MemOk, CpuOk;
    t := State(AddressOf(k), s);
  }

  /** Stepping at an instruction boundary executes that instruction's word. */
  lemma {:induction false} StepsWord(host: Host, p: Prog, k: nat, s: Core)
    requires ProgOk(p) && CoreOk(s) && Loaded(p, s.mem) && k < |p.insts| && AddressOf(k) < TWO32
    ensures var w, t := FinalWordOk(p, k), State(AddressOf(k), s);
      Step(host, t) == Execute(host, t, w[1], w[2], w[3])
  {
    hide *;
    var t := Addressed(s, k);
    StepFetches(host, t);
    Fetch(p, s.mem, k, 1);
    Fetch(p, s.mem, k, 2);
    Fetch(p, s.mem, k, 3);
  }

  /** One step of the simulator on the bytes is one step of the interpreter on the program. */
  lemma {:induction false} StepRefines(host: Host, p: Prog, s: PState)
    requires ProgOk(p) && CoreOk(s.core) && Loaded(p, s.core.mem) && AddressOf(s.at) < TWO32
    requires StepProg(host, p, s).Some?
    ensures var t := StepProg(host, p, s).value;
      && AddressOf(t.at) < TWO32 && Loaded(p, t.core.mem)
      && Step(host, Embed(s)) == Some(Embed(t))
  {
    assert MemOk(s.core.mem);
    hide StepProg, Execute, Step, FinalWordOk, Loaded, CoreOk, MemOk, ProgOk;
    StepsInside(host, p, s);
    StepsWord(host, p, s.at, s.core);
    ExecutesInstr(host, p, s);
    StaysLoaded(host, p, s);
  }

  lemma {:induction false} StepsInside(host: Host, p: Prog, s: PState)
    requires ProgOk(p) && CoreOk(s.core) && StepProg(host, p, s).Some?
    ensures s.at < |p.insts|
  {
  }

  /** Whole runs: as long as the program stays within itself, `n` steps of the simulator on the
      loaded bytes are `n` steps of the program. */
  lemma {:induction false} RunRefines(host: Host, p: Prog, s: PState, n: nat)
    requires ProgOk(p) && CoreOk(s.core) && Loaded(p, s.core.mem) && AddressOf(s.at) < TWO32
    requires RunProg(host, p, s, n).Some?
    ensures var t := RunProg(host, p, s, n).value;
      && AddressOf(t.at) < TWO32 && Loaded(p, t.core.mem)
      && Run(host, Embed(s), n) == Some(Embed(t))
  {
    hide StepProg, Step, Loaded, CoreOk, ProgOk;
    if n > 0 {
      RunRefines(host, p, s, n - 1);
      StepRefines(host, p, RunProg(host, p, s, n - 1).value);
    }
  }

  /** A memory whose ROM starts with the assembled bytes holds the program. */
  lemma {:induction false} LoadedFromCode(p: Prog, code: seq<byte>, m: Mem)
    requires ProgOk(p) && MemOk(m) && AllLabelsKnown(p) && CodeFor(p, code) && code <= m.rom
    ensures Loaded(p, m)
  {
    hide FinalWord;
    forall k | 0 <= k < |p.insts|
      ensures WordAt(m.rom, k, FinalWordOk(p, k))
    {
      assert WordAt(code, k, FinalWord(p, k));
    }
  }

  // ---------- from text to run ----------

  lemma {:induction false} KnownLabels(p: Prog)
    requires ProgOk(p)
    ensures AllLabelsKnown(p)
  {
    hide FindLabel, FormatOf;
    forall k | 0 <= k < |p.insts| && NeedsLabel(p.insts[k])
      ensures FindLabel(p.labels, p.insts[k].ops[1].name).Some?
    {
      assert InstrOk(p, k);
    }
  }

  /** Assembling lines with labels and branches, fixing them up, loading the bytes at the start of ROM
      and running them is running the program the lines describe. */
  lemma {:induction false} AssembledRuns(host: Host, ls: seq<Line>, s: Core, n: nat)
    requires LinesOk(ls) && CoreOk(s) && ProgOk(ProgTo(ls, |ls|))
    requires RunProg(host, ProgTo(ls, |ls|), PState(0, s), n).Some?
    ensures var st := AssembleTo(ls, |ls|);
      && FixupsFit(st.fixups, st.out)
      && var code := FixupTo(st.out, st.labels, st.fixups, |st.fixups|);
         && code.Some?
         && (code.value <= s.mem.rom ==>
               var t := RunProg(host, ProgTo(ls, |ls|), PState(0, s), n).value;
               AddressOf(t.at) < TWO32 && Run(host, State(ROM_BASE, s), n) == Some(Embed(t)))
  {
    hide ProgTo, AssembleTo, FixupTo, FixupsFit, ProgOk, RunProg, Run, Loaded, MemOk, CodeFor, LaidOut;
    var st, p := AssembleTo(ls, |ls|), ProgTo(ls, |ls|);
    Layout(ls, |ls|);
    KnownLabels(p);
    AssembledCode(st, p);
    var code := FixupTo(st.out, st.labels, st.fixups, |st.fixups|).value;
    if code <= s.mem.rom {
      LoadedFromCode(p, code, s.mem);
      RunRefines(host, p, PState(0, s), n);
    }
  }

  /** After the fixups, wherever the bytes are loaded, a taken branch at a fixup site reaches the first
      definition of its label exactly when the displacement fits a signed byte. */
  lemma {:induction false} TakenBranchHitsLabel(base: u32, st: Asm, f: Fixup, m: Mnemonic, s: State)
    requires AsmOk(st) && FixupsFit(st.fixups, st.out) && LabelsKnown(st.labels, st.fixups) && f in st.fixups
    requires |st.out| < 0x8000_0000 && CoreOk(s.core) && s.pc == Wrap(base + f.offset)
    ensures FixupTo(st.out, st.labels, st.fixups, |st.fixups|).Some? && FindLabel(st.labels, f.name).Some?
    ensures var code := FixupTo(st.out, st.labels, st.fixups, |st.fixups|).value;
      var goal := FindLabel(st.labels, f.name).value;
      && f.offset + 2 < |code|
      && var b1, b2 := code[f.offset + 1], code[f.offset + 2];
         BranchTaken(m, s.core.cpu, b1 % 16, b1 / 16, s.pc, Wrap(s.pc + Signed8(b2))) ==>
           (ExecBranch(s, m, b1, b2).pc == Wrap(base + goal) <==> -128 <= goal - f.pc <= 127)
  {
    hide BranchTaken, FixupTo, FixupOk, FindLabel, MemOk, Signed8, CpuOk;
    FixupEffect(st.out, st.labels, st.fixups);
    assert FixupOk(st, f);
    FixupPlace(st, f);
    var goal := FindLabel(st.labels, f.name).value;
    LabelPlace(st, f.name);
    assert Patched(st.labels, f, FixupTo(st.out, st.labels, st.fixups, |st.fixups|).value);
    BranchHitsLabelExactly(base, f.offset, goal);
  }

  lemma {:induction false} FixupPlace(st: Asm, f: Fixup)
    requires FixupOk(st, f)
    ensures f.pc == f.offset && f.offset + 4 <= |st.out|
  {
  }

  lemma {:induction false} LabelPlace(st: Asm, name: string)
    requires AsmOk(st) && FindLabel(st.labels, name).Some?
    ensures FindLabel(st.labels, name).value <= |st.out|
  {
    hide FixupOk;
  }
}

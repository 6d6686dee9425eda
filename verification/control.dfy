/** Where each branch and jump goes, told by the bytes of the word, and which words step at all. */
module Control {
  import opened Options
  import opened Words
  import opened Isa
  import opened Memory
  import opened Machine
  import opened Effects

  /** What the sixteen branches ask of register `v`. */
  ghost predicate Asks(opcode: byte, v: u32, pc: u32, target: u32, r: seq<u32>)
    requires |r| == 16
  {
    match opcode
    case 0x50 => v == 0
    case 0x51 => true
    case 0x52 => 0 < v < 0x8000_0000
    case 0x53 => v > pc
    case 0x54 => v > target
    case 0x55 => v == 1
    case 0x56 => 1 < v < 0x8000_0000
    case 0x57 => v == 0xFFFF_FFFF
    case 0x58 => v == r[0]
    case 0x59 => v == r[1]
    case 0x5a => v == r[2]
    case 0x5b => v == r[3]
    case 0x5c => v == r[4]
    case 0x5d => v == r[5]
    case 0x5e => v == r[6]
    case 0x5f => v == r[7]
    case _ => false
  }

  /** The flags that the condition bits ask for are set. */
  ghost predicate FlagsAsked(cc: nat, f: Flags) {
    (cc / 2 % 2 == 1 ==> f.n) && (cc / 4 % 2 == 1 ==> f.z) && (cc / 8 % 2 == 1 ==> f.c)
  }

  lemma {:induction false} WordDispatches(b3: byte, i: nat)
    requires i < TABLE_COUNT && i != 42 && b3 == OpcodeOf(At(i))
    ensures Dispatch(b3) == Some(At(i))
  {
    hide OpcodeOf, At, FormatOf, IndexOf, NameOf;
    DispatchRecovers(At(i), b3);
    SharedOpcode();
    IndexOfAt(i);
  }

  lemma {:induction false} BranchRows(k: nat)
    requires k < 16
    ensures var m := At(47 + k);
      OpcodeOf(m) == 0x50 + k && FormatOf(m).Branch? && m != Call
  {
    hide OpcodeOf;
    OpcodesInOrder(47 + k);
  }

  lemma {:induction false} BranchAsks(k: nat, c: Cpu, ra: nat, pc: u32, target: u32)
    requires CpuOk(c) && ra < 16 && k < 16
    ensures BranchTest(At(47 + k), c, ra, pc, target) <==> Asks(0x50 + k, c.r[ra], pc, target, c.r)
  {
  }

  lemma {:induction false} TakenAsks(m: Mnemonic, c: Cpu, ra: nat, cc: nat, pc: u32, target: u32)
    requires CpuOk(c) && ra < 16
    ensures BranchTaken(m, c, ra, cc, pc, target)
            <==> (cc % 2 == 1) != (BranchTest(m, c, ra, pc, target) && FlagsAsked(cc, c.flags))
  {
    hide BranchTest;
  }

  lemma {:induction false} BranchExecutes(host: Host, s: State, m: Mnemonic, b1: byte, b2: byte, b3: byte)
    requires CoreOk(s.core) && Fetched(s, b1, b2, b3) && Dispatch(b3) == Some(m) && FormatOf(m).Branch? && m != Call
    ensures Step(host, s) == Some(ExecBranch(s, m, b1, b2))
  {
    hide Step, Fetched, ExecInt, ExecFour, ExecBranch, Dispatch, Operate, FormatOf, MemOk;
    StepExecutes(host, s, b1, b2, b3);
  }

  /** A branch changes the program counter only. It goes to its target where the register is as it asks
      and the flags it asks for are set, or, inverted, exactly where not; else it goes on. */
  lemma {:induction false} BranchStep(host: Host, s: State, b1: byte, b2: byte, b3: byte)
    requires CoreOk(s.core) && Fetched(s, b1, b2, b3) && 0x50 <= b3 <= 0x5f
    ensures var t, c, cc := Step(host, s), s.core.cpu, b1 / 16;
      var target := (s.pc + (if b2 < 128 then b2 else b2 - 256)) % 0x1_0000_0000;
      var met := Asks(b3, c.r[b1 % 16], s.pc, target, c.r) && FlagsAsked(cc, c.flags);
      && t.Some? && t.value.core == s.core
      && (if (cc % 2 == 1) != met then t.value.pc == target else GoesOn(s, t.value))
  {
    hide Step, Fetched, MemOk, At, FormatOf, OpcodeOf, Asks, BranchTest, BranchTaken, FlagsAsked, Dispatch;
    var k, c := b3 - 0x50, s.core.cpu;
    var m, target := At(47 + k), Wrap(s.pc + Signed8(b2));
    BranchRows(k);
    WordDispatches(b3, 47 + k);
    BranchExecutes(host, s, m, b1, b2, b3);
    BranchAsks(k, c, b1 % 16, s.pc, target);
    TakenAsks(m, c, b1 % 16, b1 / 16, s.pc, target);
  }

  // ---------- jumps ----------

  lemma {:induction false} JumpRows()
    ensures At(43) == Jmp && At(44) == Jmprel && At(45) == Call && At(46) == Ret
    ensures FormatOf(Jmp).Abs16? && FormatOf(Jmprel).Rel16? && FormatOf(Call).Branch? && FormatOf(Ret).NoOperand?
    ensures OpcodeOf(Jmp) == 0x40 && OpcodeOf(Jmprel) == 0x41 && OpcodeOf(Call) == 0x42 && OpcodeOf(Ret) == 0x43
  {
  }

  /** The absolute jump, 0x40, goes to the two bytes; the relative one, 0x41, as far as they say, read as
      a signed number; the return, 0x43, to register 12. Nothing else changes. */
  lemma {:induction false} JumpStep(host: Host, s: State, b1: byte, b2: byte, b3: byte)
    requires CoreOk(s.core) && Fetched(s, b1, b2, b3) && b3 in [0x40, 0x41, 0x43]
    ensures var t, w := Step(host, s), b1 * 0x100 + b2;
      && t.Some? && t.value.core == s.core
      && (b3 == 0x40 ==> t.value.pc == w)
      && (b3 == 0x41 ==> (t.value.pc - s.pc - (if b1 < 128 then w else w - 0x1_0000)) % 0x1_0000_0000 == 0)
      && (b3 == 0x43 ==> t.value.pc == s.core.cpu.r[12])
  {
    hide Step, Fetched, ExecInt, ExecFour, ExecBranch, ExecCall, Dispatch, Operate, MemOk, At, FormatOf, OpcodeOf;
    JumpRows();
    StepExecutes(host, s, b1, b2, b3);
    WordDispatches(b3, if b3 == 0x40 then 43 else if b3 == 0x41 then 44 else 46);
  }

  /** The call, 0x42, goes to the register its first byte names plus the second, read as a signed number,
      and leaves in register 12 the address after that; where the byte names none there is no result. */
  lemma {:induction false} CallStep(host: Host, s: State, b1: byte, b2: byte)
    requires CoreOk(s.core) && Fetched(s, b1, b2, 0x42)
    ensures var t := Step(host, s);
      && (t.Some? <==> b1 < 16)
      && (t.Some? ==>
            && (t.value.pc - s.core.cpu.r[b1] - (if b2 < 128 then b2 else b2 - 256)) % 0x1_0000_0000 == 0
            && t.value.core.cpu.r[12] == (t.value.pc + 4) % 0x1_0000_0000 && OthersSame(s, t.value, 12)
            && t.value.core.mem == s.core.mem && t.value.core.cpu.flags == s.core.cpu.flags)
  {
    hide Step, Fetched, ExecInt, ExecFour, ExecBranch, Dispatch, Operate, MemOk, At, FormatOf, OpcodeOf;
    JumpRows();
    StepExecutes(host, s, b1, b2, 0x42);
    WordDispatches(0x42, 45);
  }
}

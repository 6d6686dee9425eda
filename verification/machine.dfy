/** The processor: what each integer instruction does to registers, flags and memory. */
module Machine {
  import opened Options
  import opened Words
  import opened Isa
  import opened Bits
  import opened Memory
  import Ssa

  /** What the host does where C leaves a division by zero or an oversized shift undefined. */
  type Host = (Ssa.BinOp, u32, u32) -> u32

  /** The ten operators shared by the source language, SSA and the machine. */
  function Alu(host: Host, op: Ssa.BinOp, a: u32, b: u32): u32 {
    match op
    case Add => Wrap(a + b)
    case Sub => Wrap(a - b)
    case Mul => Wrap(a * b)
    case Div => if b == 0 then host(op, a, b) else a / b
    case Rem => if b == 0 then host(op, a, b) else a % b
    case LShift => if b >= 32 then host(op, a, b) else Wrap(a * Pow2(b))
    case RShift => if b >= 32 then host(op, a, b) else Wrap(a / Pow2(b))
    case And => Wrap(BitAnd(a, b, 32))
    case Xor => Wrap(BitXor(a, b, 32))
    case Or => Wrap(BitOr(a, b, 32))
  }

  /** The flag word: negative, zero, carry, and the bits above, which no instruction here changes. */
  datatype Flags = Flags(n: bool, z: bool, c: bool, rest: nat)

  function FlagWord(f: Flags): u32 {
    Wrap((if f.n then 1 else 0) + (if f.z then 2 else 0) + (if f.c then 4 else 0) + 8 * f.rest)
  }

  /** The flags in a word. */
  function FlagsOf(w: u32): Flags {
    Flags(w % 2 == 1, w / 2 % 2 == 1, w / 4 % 2 == 1, w / 8)
  }

  lemma {:induction false} FlagWordBack(w: u32)
    ensures FlagWord(FlagsOf(w)) == w
  {
    var n, z, c := w % 2, w / 2 % 2, w / 4 % 2;
    assert w == n + 2 * z + 4 * c + 8 * (w / 8);
    BitDigit(n);
    BitDigit(z);
    BitDigit(c);
  }

  lemma {:induction false} BitDigit(b: nat)
    requires b < 2
    ensures (if b == 1 then 1 else 0) == b
  {
  }

  const REG_COUNT: nat := 16
  const ABI_RA: nat := 12

  datatype Cpu = Cpu(flags: Flags, r: seq<u32>)

  predicate CpuOk(c: Cpu) {
    |c.r| == REG_COUNT
  }

  /** Registers, flags and memory, without the program counter. */
  datatype Core = Core(cpu: Cpu, mem: Mem)

  predicate CoreOk(s: Core) {
    CpuOk(s.cpu) && MemOk(s.mem)
  }

  function SetReg(c: Cpu, d: nat, v: u32): Cpu
    requires CpuOk(c) && d < REG_COUNT
  {
    c.(r := c.r[d := v])
  }

  /** Stores a result and updates the zero and negative flags. */
  function SetResult(c: Cpu, d: nat, v: u32): Cpu
    requires CpuOk(c) && d < REG_COUNT
  {
    SetReg(c, d, v).(flags := c.flags.(z := v == 0, n := Signed32(v) < 0))
  }

  // ---------- bit counts ----------

  /** The three bitwise operators of the machine, bit by bit. */
  lemma {:induction false} AluBits(host: Host, a: u32, b: u32, i: nat)
    ensures Bit(Alu(host, Ssa.And, a, b), i) <==> i < 32 && Bit(a, i) && Bit(b, i)
    ensures Bit(Alu(host, Ssa.Or, a, b), i) <==> i < 32 && (Bit(a, i) || Bit(b, i))
    ensures Bit(Alu(host, Ssa.Xor, a, b), i) <==> i < 32 && Bit(a, i) != Bit(b, i)
  {
    hide Bitwise, Bit;
    BitwiseBits(BOTH, a, b, 32, i);
    BitwiseBits(EITHER, a, b, 32, i);
    BitwiseBits(DIFFER, a, b, 32, i);
    BitwiseFits(BOTH, a, b, 32);
    BitwiseFits(EITHER, a, b, 32);
    BitwiseFits(DIFFER, a, b, 32);
    Powers();
  }

  /** The number of set bits below position `n`. */
  function PopCount(v: u32, n: nat): (c: nat)
    ensures c <= n
  {
    if n == 0 then 0 else PopCount(v, n - 1) + (if Bit(v, n - 1) then 1 else 0)
  }

  /** What both count-leading instructions compute: the clear bits below the lowest set one. */
  function LowZeros(v: u32, i: nat): (c: nat)
    requires i <= 32
    ensures i <= c <= 32 && (forall k :: i <= k < c ==> !Bit(v, k)) && (c < 32 ==> Bit(v, c))
    decreases 32 - i
  {
    if i == 32 || Bit(v, i) then i else LowZeros(v, i + 1)
  }

  /** Counting from the top: the positions below `n` that hold `b`, down to the first that does not. */
  ghost function FromTop(v: u32, b: bool, n: nat): (c: nat)
    ensures c <= n && (forall k :: n - c <= k < n ==> Bit(v, k) == b) && (c < n ==> Bit(v, n - 1 - c) != b)
  {
    if n == 0 || Bit(v, n - 1) != b then 0 else 1 + FromTop(v, b, n - 1)
  }

  /** Counting leading zeros is right exactly on 0 and where the lowest set bit is as far from the bottom
      as the highest is from the top. */
  lemma {:induction false} LeadingZerosExactly(v: u32)
    ensures LowZeros(v, 0) == FromTop(v, false, 32)
            <==> (forall k :: 0 <= k < 32 ==> !Bit(v, k))
                 || exists l: nat, h: nat :: l + h == 31 && Bit(v, l) && Bit(v, h)
                                             && forall k :: 0 <= k < 32 && Bit(v, k) ==> l <= k <= h
  {
    hide Bit, LowZeros, FromTop;
    var z, f := LowZeros(v, 0), FromTop(v, false, 32);
    if z == f && z < 32 {
      var h: nat := 31 - z;
      assert Bit(v, z) && Bit(v, h);
    }
    if l: nat, h: nat :| l + h == 31 && Bit(v, l) && Bit(v, h) && forall k :: 0 <= k < 32 && Bit(v, k) ==> l <= k <= h {
      MirroredBits(v, l, h);
    }
  }

  lemma {:induction false} MirroredBits(v: u32, l: nat, h: nat)
    requires l + h == 31 && Bit(v, l) && Bit(v, h) && forall k :: 0 <= k < 32 && Bit(v, k) ==> l <= k <= h
    ensures LowZeros(v, 0) == l == FromTop(v, false, 32)
  {
    hide Bit, LowZeros, FromTop;
    var z, f := LowZeros(v, 0), FromTop(v, false, 32);
    assert z < 32 ==> l <= z;
    assert f < 32 ==> 31 - f <= h;
  }

  /** Counting leading ones is right exactly where as many bits are clear at the bottom as are set at the
      top. */
  lemma {:induction false} LeadingOnesExactly(v: u32)
    ensures LowZeros(v, 0) == FromTop(v, true, 32)
            <==> exists l: nat, h: nat :: l + h == 31 && Bit(v, l) && !Bit(v, h)
                                          && (forall k :: 0 <= k < l ==> !Bit(v, k))
                                          && (forall k :: h < k < 32 ==> Bit(v, k))
  {
    hide Bit, LowZeros, FromTop;
    var z, o := LowZeros(v, 0), FromTop(v, true, 32);
    assert z == 32 ==> !Bit(v, 0);
    assert o == 32 ==> Bit(v, 0);
    if z == o {
      var h: nat := 31 - z;
      assert Bit(v, z) && !Bit(v, h);
    }
    if l: nat, h: nat :| l + h == 31 && Bit(v, l) && !Bit(v, h)
                         && (forall k :: 0 <= k < l ==> !Bit(v, k)) && (forall k :: h < k < 32 ==> Bit(v, k)) {
      MatchedBits(v, l, h);
    }
  }

  lemma {:induction false} MatchedBits(v: u32, l: nat, h: nat)
    requires l + h == 31 && Bit(v, l) && !Bit(v, h)
    requires (forall k :: 0 <= k < l ==> !Bit(v, k)) && (forall k :: h < k < 32 ==> Bit(v, k))
    ensures LowZeros(v, 0) == l == FromTop(v, true, 32)
  {
    hide Bit, LowZeros, FromTop;
    var z, o := LowZeros(v, 0), FromTop(v, true, 32);
    assert z < 32 ==> l <= z;
    assert o < 32 ==> 31 - o <= h;
  }

  /** On 1 the first yields 0 and on 0 the second 32; right would be 31 and 0. */
  lemma {:induction false} LeadingCountsFail()
    ensures LowZeros(1, 0) == 0 && FromTop(1, false, 32) == 31 && LowZeros(0, 0) == 32 && FromTop(0, true, 32) == 0
  {
    hide Bit;
    LowBit(1);
    forall k | 0 <= k < 32
      ensures !Bit(0, k) && (k > 0 ==> !Bit(1, k))
    {
      ZeroBit(k);
      if k > 0 {
        ZeroBit(k - 1);
        OneBit(k - 1);
      }
    }
  }

  lemma {:induction false} OneBit(k: nat)
    ensures Bit(1, k + 1) == Bit(0, k)
  {
    HalfShr(1, k);
  }

  // ---------- immediate-or-register instructions ----------

  /** Decoded operands: destination, memory address, and the two values. */
  datatype Operands = Operands(rd: nat, addr: u32, a: u32, b: u32)

  /** Third operand: an immediate byte, or a register and a four-bit immediate. */
  datatype Source = Imm(v: byte) | Reg(rb: nat, imm: nat)

  function Operate(c: Cpu, rd: nat, ra: nat, src: Source): Operands
    requires CpuOk(c) && ra < REG_COUNT && (src.Reg? ==> src.rb < REG_COUNT)
  {
    match src
    case Imm(v) => Operands(rd, Wrap(c.r[ra] + v * 4), c.r[ra], v)
    case Reg(rb, imm) => Operands(rd, Wrap(c.r[ra] + c.r[rb] * imm * 4), c.r[ra], Wrap(c.r[rb] + imm))
  }

  function ArithOf(m: Mnemonic): Option<Ssa.BinOp> {
    if m.Add? then Some(Ssa.Add)
    else if m.Sub? then Some(Ssa.Sub)
    else if m.Mul? then Some(Ssa.Mul)
    else if m.Div? then Some(Ssa.Div)
    else if m.Rem? then Some(Ssa.Rem)
    else if m.And? then Some(Ssa.And)
    else if m.Xor? then Some(Ssa.Xor)
    else if m.Or? then Some(Ssa.Or)
    else if m.Shl? then Some(Ssa.LShift)
    else if m.Shr? then Some(Ssa.RShift)
    else None
  }

  predicate IsStore(m: Mnemonic) {
    m.Stb? || m.Stw? || m.Stl? || m.Stq?
  }

  predicate IsLoad(m: Mnemonic) {
    m.Ldb? || m.Ldw? || m.Ldl? || m.Ldq?
  }

  predicate IsBits(m: Mnemonic) {
    m.Pcnt? || m.Clz? || m.Clo? || m.Bswap? || m.Ipcnt?
  }

  /** The quad store writes 32 bits, as the program does. */
  function StoreAs(m: Mnemonic, mem: Mem, addr: u32, v: u32): (mem': Mem)
    requires MemOk(mem)
    ensures MemOk(mem')
  {
    if m.Stb? then Write8(mem, addr, v % 0x100)
    else if m.Stw? then Write16(mem, addr, v % 0x1_0000)
    else Write32(mem, addr, v)
  }

  function LoadAs(m: Mnemonic, mem: Mem, addr: u32): u32
    requires MemOk(mem)
  {
    if m.Ldb? then Read8(mem, addr) else if m.Ldw? then Read16(mem, addr) else Read32(mem, addr)
  }

  function BitsOf(m: Mnemonic, v: u32): u32 {
    if m.Pcnt? then PopCount(v, 32)
    else if m.Ipcnt? then 32 - PopCount(v, 32)
    else if m.Bswap? then BSwap(v)
    else LowZeros(v, 0)
  }

  /** Compares by adding, as the program does. The carry is cleared and never set: the test for it
      masks the 64-bit sum with the complement of a 32-bit constant, which is zero. */
  function Compare(f: Flags, a: u32, b: u32): Flags {
    var r := Wrap(a + b);
    f.(c := false, z := r == 0, n := Signed32(r) < 0)
  }

  function ExecInt(host: Host, m: Mnemonic, o: Operands, s: Core): (t: Option<Core>)
    requires CoreOk(s) && o.rd < REG_COUNT
    ensures t.Some? ==> CoreOk(t.value)
  {
    var c := s.cpu;
    if ArithOf(m).Some? then Some(s.(cpu := SetResult(c, o.rd, Alu(host, ArithOf(m).value, o.a, o.b))))
    else if IsStore(m) then Some(s.(mem := StoreAs(m, s.mem, o.addr, c.r[o.rd])))
    else if IsLoad(m) then Some(s.(cpu := SetReg(c, o.rd, LoadAs(m, s.mem, o.addr))))
    else if IsBits(m) then Some(s.(cpu := SetResult(c, o.rd, BitsOf(m, Wrap(o.a + o.b)))))
    else if m.Imul? then Some(s.(cpu := SetResult(c, o.rd, Wrap(Signed32(o.a) * Signed32(o.b)))))
    else if m.Lea? then Some(s.(cpu := SetReg(c, o.rd, o.addr)))
    else if m.Cmp? then
      var f := Compare(c.flags, o.a, o.b);
      Some(s.(cpu := SetReg(c, o.rd, FlagWord(f)).(flags := f)))
    else if m.Cmpkp? then Some(s.(cpu := SetReg(c, o.rd, FlagWord(Compare(c.flags, o.a, o.b)))))
    else None
  }

  // ---------- four-register instructions ----------

  /** What the instructions that search memory compare: a byte with a whole register. */
  predicate HasByte(m: Mem, a: u32, v: u32, n: nat)
    requires MemOk(m)
  {
    exists i :: 0 <= i < n && Load(m, CellAt(a, i)) == v
  }

  /** The block and table instructions, as they are; `None` where the program aborts, and for the
      string copy without a bound. */
  function ExecFour(m: Mnemonic, rd: nat, ra: nat, rb: nat, rc: nat, s: Core): (t: Option<Core>)
    requires CoreOk(s) && rd < REG_COUNT && ra < REG_COUNT && rb < REG_COUNT && rc < REG_COUNT
    ensures t.Some? ==> CoreOk(t.value)
  {
    var a, b, c := s.cpu.r[ra], s.cpu.r[rb], s.cpu.r[rc];
    var index: int := Wrap(s.cpu.r[rb] as int + s.cpu.r[rc] as int);
    if m.Memcpy? then Some(Core(SetReg(s.cpu, rd, a), CopyTo(s.mem, a, b, c)))
    else if m.Memmov? then
      Some(Core(SetReg(s.cpu, rd, a), MoveTo(s.mem, a, b, c)))
    else if m.Memset? then Some(Core(SetReg(s.cpu, rd, a), FillTo(s.mem, a, b % 0x100, c)))
    else if m.Memchr? then Some(s.(cpu := SetReg(s.cpu, rd, if HasByte(s.mem, a, b, c) then a else 0)))
    else if m.Memchrf? then Some(s.(cpu := SetResult(s.cpu, rd, if HasByte(s.mem, a, b, c) then a else 0)))
    else if m.Strncpy? then Some(Core(SetReg(s.cpu, rd, a), StrNCopy(s.mem, a, b, 0, c)))
    else if m.Indtab? then Some(s.(cpu := SetReg(s.cpu, rd, Read32(s.mem, Wrap(a + index * 4)))))
    else if m.Indtab8? then Some(s.(cpu := SetReg(s.cpu, rd, Read32(s.mem, Wrap(a + index * 8)))))
    else if m.Chtree? then Some(s)
    else None
  }

  /** The offset of the first byte `v` among `n`, from the `i`-th on. */
  ghost function FirstByte(m: Mem, a: u32, v: byte, n: nat, i: nat := 0): (k: Option<nat>)
    requires MemOk(m) && i <= n
    ensures k.Some? ==> i <= k.value < n && Load(m, CellAt(a, k.value)) == v
    ensures forall j :: i <= j < n && (k.None? || j < k.value) ==> Load(m, CellAt(a, j)) != v
    decreases n - i
  {
    if i == n then None else if Load(m, CellAt(a, i)) == v then Some(i) else FirstByte(m, a, v, n, i + 1)
  }

  /** What a search should yield: the address of the first such byte, 0 for none. */
  ghost function SearchResult(m: Mem, a: u32, v: byte, n: nat): u32
    requires MemOk(m)
  {
    var k := FirstByte(m, a, v, n);
    if k.Some? then Wrap(a + k.value) else 0
  }

  /** The search yields that exactly when there is no such byte, or it comes first; for a register that
      holds no byte, which it never finds, when its address happens to be 0. */
  lemma {:induction false} SearchExactly(m: Mnemonic, rd: nat, ra: nat, rb: nat, rc: nat, s: Core)
    requires CoreOk(s) && rd < REG_COUNT && ra < REG_COUNT && rb < REG_COUNT && rc < REG_COUNT
    requires m.Memchr? || m.Memchrf?
    ensures var t := ExecFour(m, rd, ra, rb, rc, s);
      var a, b := s.cpu.r[ra], s.cpu.r[rb];
      var k := FirstByte(s.mem, a, b % 0x100, s.cpu.r[rc]);
      && t.Some?
      && (t.value.cpu.r[rd] == SearchResult(s.mem, a, b % 0x100, s.cpu.r[rc])
          <==> k.None? || (if b < 0x100 then k.value == 0 else Wrap(a + k.value) == 0))
  {
    hide Load, CellAt, MemOk, Wrap;
    Registers(s);
    var a, b, c := s.cpu.r[ra], s.cpu.r[rb], s.cpu.r[rc];
    var k := FirstByte(s.mem, a, b % 0x100, c);
    if b >= 0x100 {
      assert !HasByte(s.mem, a, b, c);
    } else if k.Some? {
      assert HasByte(s.mem, a, b, c);
      Onward(a, k.value);
    } else {
      assert !HasByte(s.mem, a, b, c);
    }
  }

  lemma {:induction false} Registers(s: Core)
    requires CoreOk(s)
    ensures |s.cpu.r| == REG_COUNT && MemOk(s.mem)
  {
  }

  lemma {:induction false} Onward(a: u32, k: nat)
    requires k < TWO32
    ensures Wrap(a + k) == a <==> k == 0
  {
  }

  /** Seventeen bytes from the start of RAM, the last of them the only 1: the search yields the start. */
  lemma {:induction false} SearchFails(s: Core)
    requires CoreOk(s) && s.mem == OneAt16() && s.cpu.r[0] == RAM_BASE && s.cpu.r[1] == 1 && s.cpu.r[2] == 17
    ensures var t := ExecFour(Memchr, 3, 0, 1, 2, s);
      t.Some? && t.value.cpu.r[3] == RAM_BASE && SearchResult(s.mem, RAM_BASE, 1, 17) == RAM_BASE + 16
  {
    assert Load(s.mem, CellAt(RAM_BASE, 16)) == 1;
    forall j | 0 <= j < 16
      ensures Load(s.mem, CellAt(RAM_BASE, j)) == 0
    {
    }
    assert HasByte(s.mem, RAM_BASE, 1, 17);
  }

  // ---------- branches ----------

  /** The test a branch makes, before flags and inversion; `target` is where it would go. */
  function BranchTest(m: Mnemonic, c: Cpu, ra: nat, pc: u32, target: u32): bool
    requires CpuOk(c) && ra < REG_COUNT
  {
    var v := c.r[ra];
    if m.Bz? then v == 0
    else if m.B? then true
    else if m.Bgzs? then Signed32(v) > 0
    else if m.Bgpc? then v > pc
    else if m.Bgpcrela? then v > target
    else if m.Bo? then v == 1
    else if m.Bgoz? then Signed32(v) > 1
    else if m.Bemax? then v == 0xFFFF_FFFF
    else if m.Bet0? then v == c.r[0]
    else if m.Bet1? then v == c.r[1]
    else if m.Bet2? then v == c.r[2]
    else if m.Bet3? then v == c.r[3]
    else if m.Bet4? then v == c.r[4]
    else if m.Bet5? then v == c.r[5]
    else if m.Bet6? then v == c.r[6]
    else if m.Bet7? then v == c.r[7]
    else false
  }

  /** Condition bits: invert, and require the negative, zero and carry flags. */
  function BranchTaken(m: Mnemonic, c: Cpu, ra: nat, cc: nat, pc: u32, target: u32): bool
    requires CpuOk(c) && ra < REG_COUNT
  {
    var test := BranchTest(m, c, ra, pc, target);
    var test1 := if cc / 2 % 2 == 1 then test && c.flags.n else test;
    var test2 := if cc / 4 % 2 == 1 then test1 && c.flags.z else test1;
    var test3 := if cc / 8 % 2 == 1 then test2 && c.flags.c else test2;
    if cc % 2 == 1 then !test3 else test3
  }

  // ---------- the step on bytes ----------

  datatype State = State(pc: u32, core: Core)

  /** One step of the simulator: fetch four bytes, search the table, decode, execute. `None`
      when the word is no integer instruction, or one that aborts or is left out. */
  function Step(host: Host, s: State): (t: Option<State>)
    requires CoreOk(s.core)
    ensures t.Some? ==> CoreOk(t.value.core)
  {
    var m := s.core.mem;
    Execute(host, s, Read8(m, Wrap(s.pc + 1)), Read8(m, Wrap(s.pc + 2)), Read8(m, Wrap(s.pc + 3)))
  }

  function ExecBranch(s: State, m: Mnemonic, b1: byte, b2: byte): (t: State)
    requires CoreOk(s.core)
    ensures t.core == s.core
  {
    var target := Wrap(s.pc + Signed8(b2));
    var taken := BranchTaken(m, s.core.cpu, b1 % 16, b1 / 16, s.pc, target);
    s.(pc := if taken then target else Wrap(s.pc + 4))
  }

  /** The call: the whole byte names the register, and the link is taken from the new `pc`. */
  function ExecCall(s: State, b1: byte, b2: byte): (t: State)
    requires CoreOk(s.core) && b1 < REG_COUNT
    ensures CoreOk(t.core)
  {
    var target := Wrap(s.core.cpu.r[b1] + Signed8(b2));
    State(target, s.core.(cpu := SetReg(s.core.cpu, ABI_RA, Wrap(target + 4))))
  }

  /** The link register names the instruction after the call exactly when register plus displacement
      is the address of the call. */
  lemma {:induction false} CallLinksExactly(s: State, b1: byte, b2: byte)
    requires CoreOk(s.core) && b1 < REG_COUNT
    ensures ExecCall(s, b1, b2).core.cpu.r[ABI_RA] == Wrap(s.pc + 4)
            <==> Wrap(s.core.cpu.r[b1] + Signed8(b2)) == s.pc
  {
  }

  /** A call at 0x8000 through a register that holds 0x9000 links to 0x9004. */
  lemma {:induction false} CallLinksWrong(s: State)
    requires CoreOk(s.core) && s.pc == 0x8000 && s.core.cpu.r[0] == 0x9000
    ensures ExecCall(s, 0, 0).core.cpu.r[ABI_RA] == 0x9004
  {
  }

  /** Decodes and executes the word whose bytes after the control byte are `b1`, `b2`, `b3`. */
  function Execute(host: Host, s: State, b1: byte, b2: byte, b3: byte): (t: Option<State>)
    requires CoreOk(s.core)
    ensures t.Some? ==> CoreOk(t.value.core)
  {
    var inst := Dispatch(b3);
    if inst.None? then None
    else
      match FormatOf(inst.value)
      case ImmOrReg =>
        var src := if b3 >= 128 then Imm(b2) else Reg(b2 % 16, b2 / 16);
        Next(s.pc, ExecInt(host, inst.value, Operate(s.core.cpu, b1 % 16, b1 / 16, src), s.core))
      case FourRegs => Next(s.pc, ExecFour(inst.value, b1 % 16, b1 / 16, b2 % 16, b2 / 16, s.core))
      case Branch =>
        if inst.value != Call then Some(ExecBranch(s, inst.value, b1, b2))
        else if b1 < REG_COUNT then Some(ExecCall(s, b1, b2))
        else None
      case NoOperand => Some(s.(pc := s.core.cpu.r[ABI_RA]))
      case Abs16 => Some(s.(pc := b1 * 0x100 + b2))
      case Rel16 =>
        var w := b1 * 0x100 + b2;
        Some(s.(pc := Wrap(s.pc + (if w < 0x8000 then w else w - 0x1_0000))))
  }

  function Next(pc: u32, core: Option<Core>): Option<State> {
    if core.None? then None else Some(State(Wrap(pc + 4), core.value))
  }

  /** `n` steps. */
  function Run(host: Host, s: State, n: nat): (t: Option<State>)
    requires CoreOk(s.core)
    ensures t.Some? ==> CoreOk(t.value.core)
  {
    if n == 0 then Some(s)
    else
      var t := Run(host, s, n - 1);
      if t.None? then None else Step(host, t.value)
  }

  // ---------- the carry flag ----------

  /** No instruction sets the carry flag, so no run does. */
  lemma {:induction false} CarryNeverSet(host: Host, s: State, n: nat)
    requires CoreOk(s.core) && Run(host, s, n).Some?
    ensures Run(host, s, n).value.core.cpu.flags.c ==> s.core.cpu.flags.c
  {
    hide Step, CoreOk;
    if n > 0 {
      CarryNeverSet(host, s, n - 1);
      StepSetsNoCarry(host, Run(host, s, n - 1).value);
    }
  }

  lemma {:induction false} StepSetsNoCarry(host: Host, s: State)
    requires CoreOk(s.core) && Step(host, s).Some?
    ensures Step(host, s).value.core.cpu.flags.c ==> s.core.cpu.flags.c
  {
    hide Dispatch, FormatOf, Alu, CopyTo, MoveTo, FillTo, StrNCopy, StoreAs, LoadAs, BitsOf, BranchTaken, FlagWord,
         Read8, Read32, HasByte, ArithOf, MemOk;
  }

  /** From a state with the carry clear, a branch that asks for it is decided by its inversion bit
      alone, however many steps later it comes. */
  lemma {:induction false} CarryBranchFixed(host: Host, s: State, n: nat, m: Mnemonic, ra: nat, cc: nat, target: u32)
    requires CoreOk(s.core) && !s.core.cpu.flags.c && Run(host, s, n).Some? && ra < REG_COUNT && cc / 8 % 2 == 1
    ensures var t := Run(host, s, n).value;
      BranchTaken(m, t.core.cpu, ra, cc, t.pc, target) <==> cc % 2 == 1
  {
    hide Run, BranchTest;
    CarryNeverSet(host, s, n);
  }

  /** A comparison reports the carry of its sum exactly when there is none. */
  lemma {:induction false} CarryReportedExactly(host: Host, o: Operands, s: Core)
    requires CoreOk(s) && o.rd < REG_COUNT
    ensures var t := ExecInt(host, Cmp, o, s);
      t.Some? && (t.value.cpu.flags.c == (o.a + o.b >= TWO32) <==> o.a + o.b < TWO32)
  {
    hide FlagWord;
  }

  /** A sum with a carry that the comparison misses: the stored flags say zero and nothing else. */
  lemma {:induction false} CarryMissed(host: Host, s: Core)
    requires CoreOk(s) && s.cpu.flags == Flags(false, false, false, 0)
    ensures var t := ExecInt(host, Cmp, Operands(2, 0, 0xFFFF_FFFF, 1), s);
      t.Some? && !t.value.cpu.flags.c && t.value.cpu.r[2] == 2
  {
    hide FlagWord, StoreAs, LoadAs, BitsOf, Alu, MemOk;
    ZeroWord();
  }

  lemma {:induction false} ZeroWord()
    ensures FlagWord(Flags(false, true, false, 0)) == 2
  {
  }
}

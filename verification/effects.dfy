/** What one step does, told by the bytes of the word and the registers before and after. */
module Effects {
  import opened Options
  import opened Words
  import opened Isa
  import opened Bits
  import opened Memory
  import opened Machine
  import opened Arithmetic
  import Ssa

  // ---------- the memory map ----------

  /** 128K of ROM from 0x8000, 4M of RAM from 0xF000_0000, and one page of 8K for all the rest. */
  lemma {:induction false} MemoryMap(m: Mem, a: u32)
    requires MemOk(m)
    ensures Read8(m, a) == if 0x8000 <= a < 0x2_8000 then m.rom[a - 0x8000]
                           else if 0xF000_0000 <= a < 0xF040_0000 then m.ram[a - 0xF000_0000]
                           else m.trap[a % 0x2000]
  {
  }

  ghost predicate Mapped(a: u32) {
    0x8000 <= a < 0x2_8000 || 0xF000_0000 <= a < 0xF040_0000
  }

  /** A byte written is read back through its own address, and through another if and only if both
      lie outside the two regions, a multiple of a page apart. */
  lemma {:induction false} WritesSeen(m: Mem, a: u32, v: byte, b: u32)
    requires MemOk(m)
    ensures Read8(Write8(m, a, v), b)
            == if a == b || (!Mapped(a) && !Mapped(b) && a % 0x2000 == b % 0x2000) then v else Read8(m, b)
  {
  }

  // ---------- words ----------

  /** The word at the program counter has these bytes after its first. */
  ghost predicate Fetched(s: State, b1: byte, b2: byte, b3: byte)
    requires CoreOk(s.core)
  {
    var m := s.core.mem;
    && Read8(m, (s.pc + 1) % 0x1_0000_0000) == b1
    && Read8(m, (s.pc + 2) % 0x1_0000_0000) == b2
    && Read8(m, (s.pc + 3) % 0x1_0000_0000) == b3
  }

  lemma {:induction false} StepExecutes(host: Host, s: State, b1: byte, b2: byte, b3: byte)
    requires CoreOk(s.core) && Fetched(s, b1, b2, b3)
    ensures Step(host, s) == Execute(host, s, b1, b2, b3)
  {
    hide Execute, Read8;
  }

  /** Control goes on to the next word. */
  ghost predicate GoesOn(s: State, t: State) {
    t.pc == (s.pc + 4) % 0x1_0000_0000
  }

  /** All registers but `d` are as before. */
  ghost predicate OthersSame(s: State, t: State, d: nat)
    requires CoreOk(s.core) && CoreOk(t.core)
  {
    forall i :: 0 <= i < 16 && i != d ==> t.core.cpu.r[i] == s.core.cpu.r[i]
  }

  /** The flags after a result `v`. */
  ghost predicate FlagsTell(f: Flags, g: Flags, v: u32) {
    (g.z <==> v == 0) && (g.n <==> v >= 0x8000_0000) && g.c == f.c && g.rest == f.rest
  }

  /** A step that leaves `v` in register `d`, says so in the flags, and changes nothing else. */
  ghost predicate Yields(s: State, t: State, d: nat, v: u32)
    requires CoreOk(s.core) && CoreOk(t.core) && d < 16
  {
    && GoesOn(s, t) && OthersSame(s, t, d) && t.core.mem == s.core.mem
    && t.core.cpu.r[d] == v && FlagsTell(s.core.cpu.flags, t.core.cpu.flags, v)
  }

  /** The same without a word in the flags. */
  ghost predicate Loads(s: State, t: State, d: nat, v: u32)
    requires CoreOk(s.core) && CoreOk(t.core) && d < 16
  {
    && GoesOn(s, t) && OthersSame(s, t, d) && t.core.mem == s.core.mem
    && t.core.cpu.r[d] == v && t.core.cpu.flags == s.core.cpu.flags
  }

  // ---------- immediate or register ----------

  /** The two values of a word: register and immediate byte, or register and the sum of a register and a
      four-bit immediate. */
  ghost predicate Values(c: Cpu, b1: byte, b2: byte, b3: byte, a: u32, b: u32)
    requires CpuOk(c)
  {
    && a == c.r[b1 / 16]
    && (if b3 >= 128 then b == b2 else (b - c.r[b2 % 16] - b2 / 16) % 0x1_0000_0000 == 0)
  }

  /** The address of a word: register plus four times the immediate byte, or plus a register times four
      times the four-bit immediate. */
  ghost predicate Addresses(c: Cpu, b1: byte, b2: byte, b3: byte, addr: u32)
    requires CpuOk(c)
  {
    var a := c.r[b1 / 16];
    if b3 >= 128 then (addr - a - 4 * b2) % 0x1_0000_0000 == 0
    else (addr - a - c.r[b2 % 16] * (b2 / 16) * 4) % 0x1_0000_0000 == 0
  }

  ghost function SourceBytes(b2: byte, b3: byte): Source {
    if b3 >= 128 then Imm(b2) else Reg(b2 % 16, b2 / 16)
  }

  lemma {:induction false} WrapIs(x: int, v: u32)
    requires (v - x) % 0x1_0000_0000 == 0
    ensures Wrap(x) == v
  {
  }

  lemma {:induction false} ValuesAre(c: Cpu, b1: byte, b2: byte, b3: byte, a: u32, b: u32)
    requires CpuOk(c) && Values(c, b1, b2, b3, a, b)
    ensures var o := Operate(c, b1 % 16, b1 / 16, SourceBytes(b2, b3));
      o.rd == b1 % 16 && o.a == a && o.b == b
  {
    hide Wrap;
    if b3 < 128 {
      var x := c.r[b2 % 16] + b2 / 16;
      assert b - c.r[b2 % 16] - b2 / 16 == b - x;
      WrapIs(x, b);
    }
  }

  lemma {:induction false} AddressIs(c: Cpu, b1: byte, b2: byte, b3: byte, addr: u32)
    requires CpuOk(c) && Addresses(c, b1, b2, b3, addr)
    ensures var o := Operate(c, b1 % 16, b1 / 16, SourceBytes(b2, b3));
      o.rd == b1 % 16 && o.addr == addr
  {
    hide Wrap;
    var d: int := if b3 >= 128 then 4 * b2 else c.r[b2 % 16] * (b2 / 16) * 4;
    assert addr - c.r[b1 / 16] - d == addr - (c.r[b1 / 16] + d);
    WrapIs(c.r[b1 / 16] + d, addr);
  }

  lemma {:induction false} IntExecutes(host: Host, s: State, m: Mnemonic, b1: byte, b2: byte, b3: byte)
    requires CoreOk(s.core) && Fetched(s, b1, b2, b3)
    requires FormatOf(m).ImmOrReg? && b3 % 128 == OpcodeOf(m)
    ensures Step(host, s)
            == Next(s.pc, ExecInt(host, m, Operate(s.core.cpu, b1 % 16, b1 / 16, SourceBytes(b2, b3)), s.core))
  {
    hide Step, Fetched, ExecInt, ExecFour, ExecBranch, Dispatch, Operate, FormatOf, OpcodeOf, MemOk, Next;
    StepExecutes(host, s, b1, b2, b3);
    DispatchRecovers(m, b3);
    NoChtreeunchk();
  }

  lemma {:induction false} NoChtreeunchk()
    ensures !FormatOf(Chtreeunchk).ImmOrReg? && OpcodeOf(Chtreeunchk) == OpcodeOf(Chtree)
  {
  }

  /** The arithmetic opcodes and what they leave. */
  ghost predicate Computed(host: Host, opcode: nat, a: u32, b: u32, v: u32) {
    match opcode
    case 0x00 => Denotes(host, "+", a, b, v)
    case 0x01 => Denotes(host, "-", a, b, v)
    case 0x02 => Denotes(host, "*", a, b, v)
    case 0x03 => Denotes(host, "/", a, b, v)
    case 0x04 => Denotes(host, "%", a, b, v)
    case 0x05 => IsProduct(v, if a < 0x8000_0000 then a else a - 0x1_0000_0000,
                           if b < 0x8000_0000 then b else b - 0x1_0000_0000)
    case 0x06 => Denotes(host, "&", a, b, v)
    case 0x07 => Denotes(host, "^", a, b, v)
    case 0x08 => Denotes(host, "|", a, b, v)
    case 0x09 => Denotes(host, "<<", a, b, v)
    case 0x0a => Denotes(host, ">>", a, b, v)
    case _ => false
  }

  lemma {:induction false} ArithmeticRow(k: nat)
    requires k <= 0x0a
    ensures FormatOf(At(k)).ImmOrReg? && OpcodeOf(At(k)) == k && (ArithOf(At(k)).Some? || At(k).Imul?)
  {
  }

  lemma {:induction false} ArithmeticComputes(host: Host, k: nat, s: Core, o: Operands)
    requires CoreOk(s) && o.rd < 16 && k <= 0x0a
    ensures var t := ExecInt(host, At(k), o, s);
      && t.Some? && t.value.mem == s.mem && Computed(host, k, o.a, o.b, t.value.cpu.r[o.rd])
      && t.value.cpu == SetResult(s.cpu, o.rd, t.value.cpu.r[o.rd])
  {
    hide Alu, Denotes, MemOk, SetResult;
    ResultStored(s.cpu, o.rd);
    if k == 5 {
      WrapNear(Signed32(o.a) * Signed32(o.b));
    } else {
      AluDenotes(host, ArithOf(At(k)).value, o.a, o.b);
    }
  }

  lemma {:induction false} ResultStored(c: Cpu, d: nat)
    requires CpuOk(c) && d < 16
    ensures forall v: u32 :: SetResult(c, d, v).r[d] == v
  {
  }

  /** Arithmetic, opcodes 0x00 to 0x0a, with an immediate or not: the result relates to the two values
      as the operator says, the flags tell zero and sign, and nothing else changes. */
  lemma {:induction false} ArithmeticStep(host: Host, s: State, b1: byte, b2: byte, b3: byte, a: u32, b: u32)
    requires CoreOk(s.core) && Fetched(s, b1, b2, b3) && b3 % 128 <= 0x0a && Values(s.core.cpu, b1, b2, b3, a, b)
    ensures var t := Step(host, s);
      && t.Some? && Yields(s, t.value, b1 % 16, t.value.core.cpu.r[b1 % 16])
      && Computed(host, b3 % 128, a, b, t.value.core.cpu.r[b1 % 16])
  {
    hide Step, Fetched, Values, Operate, ExecInt, MemOk, At, FormatOf, OpcodeOf, ArithOf, Computed;
    var k := b3 % 128;
    ArithmeticRow(k);
    IntExecutes(host, s, At(k), b1, b2, b3);
    ValuesAre(s.core.cpu, b1, b2, b3, a, b);
    ArithmeticComputes(host, k, s.core, Operate(s.core.cpu, b1 % 16, b1 / 16, SourceBytes(b2, b3)));
  }

  /** Every word has its values and its address. */
  lemma {:induction false} WordHasOperands(c: Cpu, b1: byte, b2: byte, b3: byte) returns (a: u32, b: u32, addr: u32)
    requires CpuOk(c)
    ensures Values(c, b1, b2, b3, a, b) && Addresses(c, b1, b2, b3, addr)
  {
    a := c.r[b1 / 16];
    b := if b3 >= 128 then b2 else Wrap(c.r[b2 % 16] + b2 / 16);
    var d: int := if b3 >= 128 then 4 * b2 else c.r[b2 % 16] * (b2 / 16) * 4;
    addr := Wrap(a + d);
    WrapNear(c.r[b2 % 16] + b2 / 16);
    WrapNear(a + d);
    assert addr - a - d == addr - (a + d);
  }

  // ---------- bit counts and the byte swap ----------

  /** The number of positions that hold `x`. */
  ghost function Holding(v: u32, x: bool, n: nat): (h: nat)
    ensures n == 0 ==> h == 0
  {
    var held := set k | 0 <= k < n && Bit(v, k) == x;
    assert n == 0 ==> held == {};
    |held|
  }

  lemma {:induction false} HoldingGrows(v: u32, x: bool, n: nat)
    ensures Holding(v, x, n + 1) == Holding(v, x, n) + if Bit(v, n) == x then 1 else 0
  {
    hide Bit;
    var now, was := set k | 0 <= k < n + 1 && Bit(v, k) == x, set k | 0 <= k < n && Bit(v, k) == x;
    assert now == if Bit(v, n) == x then was + {n} else was;
  }

  lemma {:induction false} PopCounts(v: u32, n: nat)
    ensures PopCount(v, n) == Holding(v, true, n) && n - PopCount(v, n) == Holding(v, false, n)
  {
    hide Bit, Holding;
    if n > 0 {
      PopCounts(v, n - 1);
      HoldingGrows(v, true, n - 1);
      HoldingGrows(v, false, n - 1);
    }
  }

  /** The bytes of `v` are those of `w` in reverse order. */
  ghost predicate Swapped(v: u32, w: u32) {
    && v % 0x100 == w / 0x100_0000 && v / 0x100 % 0x100 == w / 0x1_0000 % 0x100
    && v / 0x1_0000 % 0x100 == w / 0x100 % 0x100 && v / 0x100_0000 == w % 0x100
  }

  lemma {:induction false} SwapIs(w: u32)
    ensures Swapped(BSwap(w), w)
  {
    var b0, b1, b2, b3 := w % 0x100, w / 0x100 % 0x100, w / 0x1_0000 % 0x100, w / 0x100_0000;
    BytesAre(b3, b2, b1, b0);
  }

  lemma {:induction false} BytesAre(b0: byte, b1: byte, b2: byte, b3: byte)
    ensures var v := b0 + b1 * 0x100 + b2 * 0x1_0000 + b3 * 0x100_0000;
      v % 0x100 == b0 && v / 0x100 % 0x100 == b1 && v / 0x1_0000 % 0x100 == b2 && v / 0x100_0000 == b3
  {
    var v := b0 + b1 * 0x100 + b2 * 0x1_0000 + b3 * 0x100_0000;
    Quotient(v, 0x100, b1 + b2 * 0x100 + b3 * 0x1_0000, b0);
    Quotient(v, 0x1_0000, b2 + b3 * 0x100, b0 + b1 * 0x100);
    Quotient(v, 0x100_0000, b3, b0 + b1 * 0x100 + b2 * 0x1_0000);
    Quotient(b1 + b2 * 0x100 + b3 * 0x1_0000, 0x100, b2 + b3 * 0x100, b1);
    Quotient(b2 + b3 * 0x100, 0x100, b3, b2);
  }

  /** What the opcodes 0x0b to 0x0f leave, `w` being the sum of the two values. */
  ghost predicate Counted(opcode: nat, w: u32, v: u32) {
    match opcode
    case 0x0b => v == Holding(w, true, 32)
    case 0x0c => v <= 32 && (forall k :: 0 <= k < v ==> !Bit(w, k)) && (v < 32 ==> Bit(w, v))
    case 0x0d => v <= 32 && (forall k :: 0 <= k < v ==> !Bit(w, k)) && (v < 32 ==> Bit(w, v))
    case 0x0e => Swapped(v, w)
    case 0x0f => v == Holding(w, false, 32)
    case _ => false
  }

  lemma {:induction false} CountRow(k: nat)
    requires 0x0b <= k <= 0x0f
    ensures FormatOf(At(k)).ImmOrReg? && OpcodeOf(At(k)) == k && IsBits(At(k))
  {
  }

  lemma {:induction false} BitsCount(k: nat, w: u32)
    requires 0x0b <= k <= 0x0f
    ensures Counted(k, w, BitsOf(At(k), w))
  {
    hide Bit, Holding, Swapped, BSwap;
    PopCounts(w, 32);
    SwapIs(w);
  }

  lemma {:induction false} CountExecutes(host: Host, m: Mnemonic, s: Core, o: Operands)
    requires CoreOk(s) && o.rd < 16 && IsBits(m)
    ensures ExecInt(host, m, o, s) == Some(s.(cpu := SetResult(s.cpu, o.rd, BitsOf(m, Wrap(o.a + o.b)))))
  {
    hide Alu, BitsOf, MemOk, SetResult;
  }

  /** Population counts, the two leading counts and the byte swap, all of the sum of the two values. */
  lemma {:induction false} CountStep(host: Host, s: State, b1: byte, b2: byte, b3: byte, a: u32, b: u32)
    requires CoreOk(s.core) && Fetched(s, b1, b2, b3) && 0x0b <= b3 % 128 <= 0x0f
    requires Values(s.core.cpu, b1, b2, b3, a, b)
    ensures var t := Step(host, s);
      && t.Some? && Yields(s, t.value, b1 % 16, t.value.core.cpu.r[b1 % 16])
      && Counted(b3 % 128, (a + b) % 0x1_0000_0000, t.value.core.cpu.r[b1 % 16])
  {
    hide Step, Fetched, Values, Operate, ExecInt, MemOk, At, FormatOf, OpcodeOf, ArithOf, Counted, BitsOf, IsBits;
    var k := b3 % 128;
    CountRow(k);
    IntExecutes(host, s, At(k), b1, b2, b3);
    ValuesAre(s.core.cpu, b1, b2, b3, a, b);
    CountExecutes(host, At(k), s.core, Operate(s.core.cpu, b1 % 16, b1 / 16, SourceBytes(b2, b3)));
    BitsCount(k, Wrap(a + b));
  }

  // ---------- memory ----------

  /** How many bytes a load or store opcode moves; the quad ones move four. */
  ghost function WidthOf(opcode: nat): nat {
    match opcode % 4
    case 0 => 1
    case 1 => 2
    case _ => 4
  }

  /** `v` in `n` cells from `addr`, its lowest byte first; every other cell is as before. */
  ghost predicate Stored(m: Mem, m': Mem, addr: u32, v: u32, n: nat)
    requires MemOk(m) && MemOk(m')
  {
    && (n > 0 ==> Load(m', CellAt(addr, 0)) == v % 0x100)
    && (n > 1 ==> Load(m', CellAt(addr, 1)) == v / 0x100 % 0x100)
    && (n > 2 ==> Load(m', CellAt(addr, 2)) == v / 0x1_0000 % 0x100 && Load(m', CellAt(addr, 3)) == v / 0x100_0000)
    && forall c :: IsCell(c) && (forall k :: 0 <= k < n ==> c != CellAt(addr, k)) ==> Load(m', c) == Load(m, c)
  }

  /** `v` is what `n` cells from `addr` hold, the highest byte first. */
  ghost predicate Held(m: Mem, addr: u32, v: u32, n: nat)
    requires MemOk(m)
  {
    var c0, c1 := Load(m, CellAt(addr, 0)), Load(m, CellAt(addr, 1));
    var c2, c3 := Load(m, CellAt(addr, 2)), Load(m, CellAt(addr, 3));
    v == if n == 1 then c0 else if n == 2 then c0 * 0x100 + c1
         else c0 * 0x100_0000 + c1 * 0x1_0000 + c2 * 0x100 + c3
  }

  lemma {:induction false} AddressesNear(a: u32)
    ensures Wrap(a) == a && Wrap(a + 0) == a && Wrap(Wrap(a + 2) + 1) == Wrap(a + 3)
  {
  }

  lemma {:induction false} ReadsHeld(m: Mem, a: u32)
    requires MemOk(m)
    ensures Held(m, a, Read8(m, a), 1) && Held(m, a, Read16(m, a), 2) && Held(m, a, Read32(m, a), 4)
  {
    hide Load, Translate;
    AddressesNear(a);
  }

  lemma {:induction false} AllCellsDistinct(a: u32)
    ensures CellAt(a, 0) != CellAt(a, 1) && CellAt(a, 0) != CellAt(a, 2) && CellAt(a, 0) != CellAt(a, 3)
    ensures CellAt(a, 1) != CellAt(a, 2) && CellAt(a, 1) != CellAt(a, 3) && CellAt(a, 2) != CellAt(a, 3)
  {
    hide CellAt;
    WordCellsDistinct(a, 0, 1);
    WordCellsDistinct(a, 0, 2);
    WordCellsDistinct(a, 0, 3);
    WordCellsDistinct(a, 1, 2);
    WordCellsDistinct(a, 1, 3);
    WordCellsDistinct(a, 2, 3);
  }

  lemma {:induction false} ByteStored(m: Mem, a: u32, v: u32)
    requires MemOk(m)
    ensures Stored(m, Write8(m, a, v % 0x100), a, v, 1)
  {
    hide Load, Translate, Store;
    AddressesNear(a);
  }

  lemma {:induction false} HalfStored(m: Mem, a: u32, v: u32)
    requires MemOk(m)
    ensures Stored(m, Write16(m, a, v % 0x1_0000), a, v, 2)
  {
    hide Load, Translate, Store;
    AddressesNear(a);
    AllCellsDistinct(a);
    assert v % 0x1_0000 % 0x100 == v % 0x100 && v % 0x1_0000 / 0x100 == v / 0x100 % 0x100;
  }

  lemma {:induction false} WordStored(m: Mem, a: u32, v: u32)
    requires MemOk(m)
    ensures Stored(m, Write32(m, a, v), a, v, 4)
  {
    hide Load, Translate, Store;
    AddressesNear(a);
    AllCellsDistinct(a);
    assert v % 0x1_0000 % 0x100 == v % 0x100 && v % 0x1_0000 / 0x100 == v / 0x100 % 0x100;
    assert v / 0x1_0000 / 0x100 == v / 0x100_0000;
  }

  lemma {:induction false} StoreRow(k: nat)
    requires 0x10 <= k <= 0x13
    ensures FormatOf(At(k)).ImmOrReg? && OpcodeOf(At(k)) == k && IsStore(At(k))
    ensures At(k).Stb? <==> k == 0x10
    ensures At(k).Stw? <==> k == 0x11
  {
  }

  lemma {:induction false} LoadRow(k: nat)
    requires 0x14 <= k <= 0x17
    ensures FormatOf(At(k)).ImmOrReg? && OpcodeOf(At(k)) == k && IsLoad(At(k))
    ensures At(k).Ldb? <==> k == 0x14
    ensures At(k).Ldw? <==> k == 0x15
  {
  }

  lemma {:induction false} StoreExecutes(host: Host, m: Mnemonic, s: Core, o: Operands)
    requires CoreOk(s) && o.rd < 16 && IsStore(m)
    ensures ExecInt(host, m, o, s) == Some(s.(mem := StoreAs(m, s.mem, o.addr, s.cpu.r[o.rd])))
  {
    hide Alu, StoreAs, MemOk;
  }

  lemma {:induction false} LoadExecutes(host: Host, m: Mnemonic, s: Core, o: Operands)
    requires CoreOk(s) && o.rd < 16 && IsLoad(m)
    ensures ExecInt(host, m, o, s) == Some(s.(cpu := SetReg(s.cpu, o.rd, LoadAs(m, s.mem, o.addr))))
  {
    hide Alu, LoadAs, MemOk, SetReg;
  }

  /** Stores, opcodes 0x10 to 0x13: the low bytes of the first register go to the address, lowest
      first, and nothing else changes. */
  lemma {:induction false} StoreStep(host: Host, s: State, b1: byte, b2: byte, b3: byte, addr: u32)
    requires CoreOk(s.core) && Fetched(s, b1, b2, b3) && 0x10 <= b3 % 128 <= 0x13
    requires Addresses(s.core.cpu, b1, b2, b3, addr)
    ensures var t := Step(host, s);
      && t.Some? && GoesOn(s, t.value) && t.value.core.cpu == s.core.cpu
      && Stored(s.core.mem, t.value.core.mem, addr, s.core.cpu.r[b1 % 16], WidthOf(b3 % 128))
  {
    hide Step, Fetched, Addresses, Operate, ExecInt, MemOk, At, FormatOf, OpcodeOf, IsStore, Stored, Write8, Write16,
         Write32;
    var k, v := b3 % 128, s.core.cpu.r[b1 % 16];
    StoreRow(k);
    IntExecutes(host, s, At(k), b1, b2, b3);
    AddressIs(s.core.cpu, b1, b2, b3, addr);
    StoreExecutes(host, At(k), s.core, Operate(s.core.cpu, b1 % 16, b1 / 16, SourceBytes(b2, b3)));
    ByteStored(s.core.mem, addr, v);
    HalfStored(s.core.mem, addr, v);
    WordStored(s.core.mem, addr, v);
  }

  /** Loads, opcodes 0x14 to 0x17: the register takes the bytes at the address, highest first. */
  lemma {:induction false} LoadStep(host: Host, s: State, b1: byte, b2: byte, b3: byte, addr: u32)
    requires CoreOk(s.core) && Fetched(s, b1, b2, b3) && 0x14 <= b3 % 128 <= 0x17
    requires Addresses(s.core.cpu, b1, b2, b3, addr)
    ensures var t := Step(host, s);
      && t.Some? && Loads(s, t.value, b1 % 16, t.value.core.cpu.r[b1 % 16])
      && Held(s.core.mem, addr, t.value.core.cpu.r[b1 % 16], WidthOf(b3 % 128))
  {
    hide Step, Fetched, Addresses, Operate, ExecInt, MemOk, At, FormatOf, OpcodeOf, IsLoad, Held, Read8, Read16,
         Read32;
    var k := b3 % 128;
    LoadRow(k);
    IntExecutes(host, s, At(k), b1, b2, b3);
    AddressIs(s.core.cpu, b1, b2, b3, addr);
    LoadExecutes(host, At(k), s.core, Operate(s.core.cpu, b1 % 16, b1 / 16, SourceBytes(b2, b3)));
    ReadsHeld(s.core.mem, addr);
  }

  /** Opcode 0x18 loads the address itself. */
  lemma {:induction false} AddressStep(host: Host, s: State, b1: byte, b2: byte, b3: byte, addr: u32)
    requires CoreOk(s.core) && Fetched(s, b1, b2, b3) && b3 % 128 == 0x18 && Addresses(s.core.cpu, b1, b2, b3, addr)
    ensures Step(host, s).Some? && Loads(s, Step(host, s).value, b1 % 16, addr)
  {
    hide Step, Fetched, Addresses, Operate, MemOk, Alu, StoreAs, LoadAs;
    assert OpcodeOf(Lea) == 0x18 && FormatOf(Lea).ImmOrReg?;
    IntExecutes(host, s, Lea, b1, b2, b3);
    AddressIs(s.core.cpu, b1, b2, b3, addr);
  }

  // ---------- comparisons ----------

  /** The flags as a word: negative, zero and carry from the lowest bit up. */
  ghost predicate TellsFlags(v: u32, f: Flags) {
    (v % 2 == 1 <==> f.n) && (v / 2 % 2 == 1 <==> f.z) && (v / 4 % 2 == 1 <==> f.c) && v / 8 == f.rest
  }

  /** Flags that fit a word, as those of the simulator do. */
  ghost predicate FlagsFit(f: Flags) {
    f.rest < 0x2000_0000
  }

  lemma {:induction false} FlagsTold(f: Flags)
    requires FlagsFit(f)
    ensures TellsFlags(FlagWord(f), f)
  {
    var n, z, c := if f.n then 1 else 0, if f.z then 1 else 0, if f.c then 1 else 0;
    var w := n + 2 * z + 4 * c + 8 * f.rest;
    assert FlagWord(f) == w;
    Quotient(w, 2, z + 2 * c + 4 * f.rest, n);
    Quotient(w, 4, c + 2 * f.rest, n + 2 * z);
    Quotient(w, 8, f.rest, n + 2 * z + 4 * c);
    Quotient(z + 2 * c + 4 * f.rest, 2, c + 2 * f.rest, z);
    Quotient(c + 2 * f.rest, 2, f.rest, c);
  }

  /** Comparisons, 0x20 and 0x21: the register takes the flag word that sign and zero of the SUM and a
      clear carry make; the first leaves it in the flags too, the second leaves them alone. */
  lemma {:induction false} CompareStep(host: Host, s: State, b1: byte, b2: byte, b3: byte, a: u32, b: u32)
    requires CoreOk(s.core) && Fetched(s, b1, b2, b3) && 0x20 <= b3 % 128 <= 0x21
    requires Values(s.core.cpu, b1, b2, b3, a, b)
    requires FlagsFit(s.core.cpu.flags)
    ensures var t, w, f := Step(host, s), (a + b) % 0x1_0000_0000, s.core.cpu.flags;
      && t.Some? && GoesOn(s, t.value) && OthersSame(s, t.value, b1 % 16) && t.value.core.mem == s.core.mem
      && TellsFlags(t.value.core.cpu.r[b1 % 16], Flags(w >= 0x8000_0000, w == 0, false, f.rest))
      && t.value.core.cpu.flags == if b3 % 128 == 0x20 then Flags(w >= 0x8000_0000, w == 0, false, f.rest) else f
  {
    hide Step, Fetched, Values, Operate, MemOk, Alu, StoreAs, LoadAs, FlagWord, TellsFlags, BitsOf;
    assert OpcodeOf(Cmp) == 0x20 && FormatOf(Cmp).ImmOrReg? && OpcodeOf(Cmpkp) == 0x21 && FormatOf(Cmpkp).ImmOrReg?;
    var w := Wrap(a + b);
    IntExecutes(host, s, if b3 % 128 == 0x20 then Cmp else Cmpkp, b1, b2, b3);
    ValuesAre(s.core.cpu, b1, b2, b3, a, b);
    FlagsTold(Flags(w >= 0x8000_0000, w == 0, false, s.core.cpu.flags.rest));
  }
}

/** The simulator as it runs.

    Registers, flags and the three memory arrays change in place. Each method is proved against
    the function of the machine on values that describes it, down to one step. */
module Simulator {
  import opened Options
  import opened Words
  import opened Isa
  import opened Bits
  import opened Memory
  import opened Machine

  method CountOnes(v: u32) returns (c: nat)
    ensures c == PopCount(v, 32) && c <= 32
  {
    c := 0;
    for i := 0 to 32
      invariant c == PopCount(v, i)
    {
      TestBit(v, i, 32);
      if BitAnd(v, Pow2(i), 32) != 0 {
        c := c + 1;
      }
    }
  }

  /** Both count-leading instructions run this loop, from the lowest bit up. */
  method CountFromLow(v: u32) returns (c: nat)
    ensures c == LowZeros(v, 0) && c <= 32
  {
    c := 0;
    for i := 0 to 32
      invariant c == i && LowZeros(v, i) == LowZeros(v, 0)
    {
      TestBit(v, i, 32);
      if BitAnd(v, Pow2(i), 32) != 0 {
        break;
      }
      c := c + 1;
    }
  }

  /** The dispatcher's linear scan. */
  method MatchTable(opcode: byte) returns (m: Option<Mnemonic>)
    ensures m == Dispatch(opcode)
  {
    hide At, FormatOf, OpcodeOf;
    ByteFields(opcode);
    for i := 0 to TABLE_COUNT
      invariant Dispatch(opcode, i) == Dispatch(opcode)
    {
      var format, op := FormatOf(At(i)), OpcodeOf(At(i));
      if (format.ImmOrReg? && BitAnd(opcode, 0x7f, 32) == op) || (!format.ImmOrReg? && opcode == op) {
        return Some(At(i));
      }
    }
    return None;
  }

  /** The byte swap by masks and shifts. */
  method SwapBytes(v: u32) returns (w: u32)
    ensures w == BSwap(v)
  {
    hide BitAnd, BitOr, ShiftRight, ShiftLeft, BSwap;
    var b3, b2 := BitAnd(ShiftRight(v, 24), 0xff, 32), BitAnd(ShiftRight(v, 16), 0xff, 32);
    var b1, b0 := BitAnd(ShiftRight(v, 8), 0xff, 32), BitAnd(ShiftRight(v, 0), 0xff, 32);
    SwapFields(v);
    var low := BitOr(ShiftLeft(b3, 0), ShiftLeft(b2, 8), 32);
    var word := BitOr(BitOr(low, ShiftLeft(b1, 16), 32), ShiftLeft(b0, 24), 32);
    w := word;
  }

  const FLAG_N: nat := 1
  const FLAG_Z: nat := 2
  const FLAG_C: nat := 4

  /** `b ? flag : 0`. */
  function FlagIf(b: bool, flag: nat): nat {
    if b then flag else 0
  }

  class Sim {
    var pc: u32
    var flags: u32
    const r: array<u32>
    const rom: array<byte>
    const ram: array<byte>
    const trap: array<byte>

    ghost predicate Valid() {
      && r.Length == REG_COUNT && rom.Length == ROM_SIZE && ram.Length == RAM_SIZE && trap.Length == PAGE_SIZE
      && rom != ram && ram != trap && rom != trap
      && r as object != rom as object && r as object != ram as object && r as object != trap as object
    }

    ghost function MemView(): Mem
      reads rom, ram, trap
    {
      Mem(rom[..], ram[..], trap[..])
    }

    ghost function CpuView(): Cpu
      reads this, r
    {
      Cpu(FlagsOf(flags), r[..])
    }

    ghost function CoreView(): Core
      reads this, r, rom, ram, trap
    {
      Core(CpuView(), MemView())
    }

    ghost function View(): State
      reads this, r, rom, ram, trap
    {
      State(pc, CoreView())
    }

    method Load8(a: u32) returns (v: byte)
      requires Valid()
      ensures v == Read8(MemView(), a)
    {
      match Translate(a) {
        case Rom(i) => v := rom[i];
        case Ram(i) => v := ram[i];
        case Trap(i) => v := trap[i];
      }
    }

    method Store8(a: u32, v: byte)
      requires Valid()
      modifies rom, ram, trap
      ensures MemView() == Write8(old(MemView()), a, v)
    {
      match Translate(a) {
        case Rom(i) => rom[i] := v;
        case Ram(i) => ram[i] := v;
        case Trap(i) => trap[i] := v;
      }
    }

    method Load16(a: u32) returns (v: nat)
      requires Valid()
      ensures v == Read16(MemView(), a) && v < 0x1_0000
    {
      var hi := Load8(a);
      var lo := Load8(Wrap(a + 1));
      hide BitOr, ShiftLeft, Read8;
      ReadFields(hi, lo);
      v := BitOr(ShiftLeft(hi, 8), ShiftLeft(lo, 0), 32);
    }

    method Store16(a: u32, v: nat)
      requires Valid() && v < 0x1_0000
      modifies rom, ram, trap
      ensures MemView() == Write16(old(MemView()), a, v)
    {
      hide ShiftRight, Write8;
      HalfBytes(v);
      Store8(a, ShiftRight(v, 0) % 0x100);
      Store8(Wrap(a + 1), ShiftRight(v, 8) % 0x100);
    }

    method Load32(a: u32) returns (v: u32)
      requires Valid()
      ensures v == Read32(MemView(), a)
    {
      var hi := Load16(a);
      var lo := Load16(Wrap(a + 2));
      hide BitOr, ShiftLeft, Read16;
      ReadHalves(hi, lo);
      v := BitOr(ShiftLeft(hi, 16), ShiftLeft(lo, 0), 32);
    }

    method Store32(a: u32, v: u32)
      requires Valid()
      modifies rom, ram, trap
      ensures MemView() == Write32(old(MemView()), a, v)
    {
      hide ShiftRight, Write16;
      WordHalves(v);
      Store16(a, ShiftRight(v, 0) % 0x1_0000);
      Store16(Wrap(a + 2), ShiftRight(v, 16) % 0x1_0000);
    }

    method CopyBytes(dst: u32, src: u32, n: nat)
      requires Valid()
      modifies rom, ram, trap
      ensures MemView() == CopyTo(old(MemView()), dst, src, n)
    {
      hide Load, Store, Translate;
      for i := 0 to n
        invariant MemView() == CopyTo(old(MemView()), dst, src, i)
      {
        var c := Load8(Wrap(src + i));
        Store8(Wrap(dst + i), c);
      }
    }

    method FillBytes(dst: u32, v: byte, n: nat)
      requires Valid()
      modifies rom, ram, trap
      ensures MemView() == FillTo(old(MemView()), dst, v, n)
    {
      hide Load, Store, Translate;
      for i := 0 to n
        invariant MemView() == FillTo(old(MemView()), dst, v, i)
      {
        Store8(Wrap(dst + i), v);
      }
    }

    /** The second loop of memmov. */
    method CopyBytesDown(dst: u32, src: u32, n: nat)
      requires Valid()
      modifies rom, ram, trap
      ensures MemView() == CopyDown(old(MemView()), dst, src, n, n)
    {
      hide Load, Store, Translate;
      for i := 0 to n
        invariant MemView() == CopyDown(old(MemView()), dst, src, n, i)
      {
        var c := Load8(Wrap(src + n - i));
        Store8(Wrap(dst + n - i), c);
        CellOf(src, n - i);
        CellOf(dst, n - i);
      }
    }

    method MoveBytes(dst: u32, src: u32, n: nat)
      requires Valid()
      modifies rom, ram, trap
      ensures MemView() == MoveTo(old(MemView()), dst, src, n)
    {
      hide CopyTo, CopyDown;
      if dst > src {
        CopyBytes(dst, src, n);
      } else {
        CopyBytesDown(dst, src, n);
      }
    }

    /** The loop of memchr. */
    method FindByte(a: u32, v: u32, n: nat) returns (found: bool)
      requires Valid()
      ensures found == HasByte(MemView(), a, v, n)
    {
      hide Load, Translate;
      for i := 0 to n
        invariant !HasByte(MemView(), a, v, i)
      {
        CellOf(a, i);
        var c := Load8(Wrap(a + i));
        if c == v {
          return true;
        }
      }
      return false;
    }

    /** strcpy: the loop ends exactly on the memories that have a distance `d` to end at, which is
        what it counts towards. */
    method CopyString(dst: u32, src: u32, ghost d: nat)
      requires Valid() && StopsAt(MemView(), dst, src, d)
      modifies rom, ram, trap
      ensures MemView() == CopyTo(old(MemView()), dst, src, d + 1)
    {
      hide Load, Store, Translate, CellAt, CopyTo, StopsAt;
      ghost var was := MemView();
      var i := 0;
      CopyNone(was, dst, src);
      while true
        invariant i <= d && MemView() == CopyTo(was, dst, src, i)
        decreases d - i
      {
        StopsHere(was, dst, src, d, i);
        CellOf(src, i);
        CellOf(dst, i);
        var c := Load8(Wrap(src + i));
        Store8(Wrap(dst + i), c);
        if c == 0 {
          break;
        }
        i := i + 1;
      }
    }

    method CopyStringN(dst: u32, src: u32, n: nat)
      requires Valid()
      modifies rom, ram, trap
      ensures MemView() == StrNCopy(old(MemView()), dst, src, 0, n)
    {
      hide Load, Store, Translate;
      ghost var whole := StrNCopy(MemView(), dst, src, 0, n);
      for i := 0 to n
        invariant StrNCopy(MemView(), dst, src, i, n) == whole
      {
        var c := Load8(Wrap(src + i));
        Store8(Wrap(dst + i), c);
        if c == 0 {
          return;
        }
      }
    }

    method PutReg(d: nat, v: u32)
      requires Valid() && d < REG_COUNT
      modifies r
      ensures CoreView() == old(CoreView()).(cpu := SetReg(old(CpuView()), d, v))
    {
      r[d] := v;
    }

    method PutResult(d: nat, v: u32)
      requires Valid() && d < REG_COUNT
      modifies r, this`flags
      ensures CoreView() == old(CoreView()).(cpu := SetResult(old(CpuView()), d, v))
    {
      r[d] := v;
      UpdateFlags(r[d]);
    }

    /** The flag update of the arithmetic instructions, mask by mask. */
    method UpdateFlags(v: u32)
      modifies this`flags
      ensures FlagsOf(flags) == FlagsOf(old(flags)).(z := v == 0, n := Signed32(v) < 0)
    {
      hide BitAnd, BitOr, BitNot;
      ClearLowThree(flags, 3);
      OrFlags();
      flags := BitAnd(flags, BitNot(BitOr(FLAG_Z, FLAG_N, 32)), 32);
      SetLowThree(flags, FlagIf(v == 0, FLAG_Z));
      flags := BitOr(flags, FlagIf(v == 0, FLAG_Z), 32);
      SetLowThree(flags, FlagIf(Signed32(v) < 0, FLAG_N));
      flags := BitOr(flags, FlagIf(Signed32(v) < 0, FLAG_N), 32);
    }

    /** The 64-bit sum, and the carry test as it is written. */
    method Add32(a: u32, b: u32) returns (r: u32)
      modifies this`flags
      ensures r == Wrap(a + b) && FlagsOf(flags) == FlagsOf(old(flags)).(c := false)
    {
      hide BitAnd, BitOr, BitNot;
      var result: nat := a + b;
      ClearLowThree(flags, FLAG_C);
      flags := BitAnd(flags, BitNot(FLAG_C), 32);
      NoMaskLeft();
      AndZero(result, 64);
      SetLowThree(flags, 0);
      flags := BitOr(flags, FlagIf(BitAnd(result, BitNot(0xFFFF_FFFF), 64) != 0, FLAG_C), 32);
      r := Wrap(result);
    }

    method StoreInst(m: Mnemonic, addr: u32, v: u32)
      requires Valid()
      modifies rom, ram, trap
      ensures CoreView() == old(CoreView()).(mem := StoreAs(m, old(MemView()), addr, v))
    {
      hide Write8, Write16, Write32;
      if m.Stb? {
        Store8(addr, v % 0x100);
      } else if m.Stw? {
        Store16(addr, v % 0x1_0000);
      } else {
        Store32(addr, v);
      }
    }

    method LoadInst(m: Mnemonic, addr: u32) returns (v: u32)
      requires Valid()
      ensures v == LoadAs(m, MemView(), addr)
    {
      hide Read8, Read16, Read32;
      if m.Ldb? {
        v := Load8(addr);
      } else if m.Ldw? {
        v := Load16(addr);
      } else {
        v := Load32(addr);
      }
    }

    method BitsInst(m: Mnemonic, sum: u32) returns (v: u32)
      ensures v == BitsOf(m, sum)
    {
      if m.Pcnt? {
        v := CountOnes(sum);
      } else if m.Ipcnt? {
        v := CountOnes(sum);
        v := 32 - v;
      } else if m.Bswap? {
        v := SwapBytes(sum);
      } else {
        v := CountFromLow(sum);
      }
    }

    method ImmOrRegInst(host: Host, m: Mnemonic, o: Operands) returns (ok: bool)
      requires Valid() && o.rd < REG_COUNT
      modifies r, rom, ram, trap, this`flags
      ensures var t := ExecInt(host, m, o, old(CoreView()));
        (ok <==> t.Some?) && (ok ==> CoreView() == t.value)
    {
      hide Alu, StoreAs, LoadAs, ArithOf, SetReg, SetResult, IsBits, BitsOf, FlagWord, Compare, Signed32;
      ok := true;
      var op := ArithOf(m);
      if op.Some? {
        PutResult(o.rd, Alu(host, op.value, o.a, o.b));
      } else if IsStore(m) {
        StoreInst(m, o.addr, r[o.rd]);
      } else if IsLoad(m) {
        var v := LoadInst(m, o.addr);
        PutReg(o.rd, v);
      } else {
        ok := OtherInst(host, m, o);
      }
    }

    method OtherInst(host: Host, m: Mnemonic, o: Operands) returns (ok: bool)
      requires Valid() && o.rd < REG_COUNT && ArithOf(m).None? && !IsStore(m) && !IsLoad(m)
      modifies r, this`flags
      ensures var t := ExecInt(host, m, o, old(CoreView()));
        (ok <==> t.Some?) && (ok ==> CoreView() == t.value)
    {
      hide Alu, StoreAs, LoadAs, ArithOf, SetReg, SetResult, BitsOf, FlagWord, Compare, Signed32;
      ok := true;
      if IsBits(m) {
        var v := BitsInst(m, Wrap(o.a + o.b));
        PutResult(o.rd, v);
      } else if m.Imul? {
        PutResult(o.rd, Wrap(Signed32(o.a) * Signed32(o.b)));
      } else if m.Lea? {
        PutReg(o.rd, o.addr);
      } else if m.Cmp? || m.Cmpkp? {
        CompareInst(host, m, o);
      } else {
        ok := false;
      }
    }

    method CompareInst(host: Host, m: Mnemonic, o: Operands)
      requires Valid() && o.rd < REG_COUNT && (m.Cmp? || m.Cmpkp?)
      modifies r, this`flags
      ensures ExecInt(host, m, o, old(CoreView())) == Some(CoreView())
    {
      hide FlagWord, Alu, StoreAs, LoadAs, BitsOf, FlagsOf;
      var kept := flags;
      var sum := Add32(o.a, o.b);
      UpdateFlags(sum);
      FlagWordBack(flags);
      PutReg(o.rd, flags);
      if m.Cmpkp? {
        flags := kept;
      }
    }

    method FourRegsInst(m: Mnemonic, rd: nat, ra: nat, rb: nat, rc: nat) returns (ok: bool)
      requires Valid() && rd < REG_COUNT && ra < REG_COUNT && rb < REG_COUNT && rc < REG_COUNT
      modifies r, rom, ram, trap, this`flags
      ensures var t := ExecFour(m, rd, ra, rb, rc, old(View()).core);
        (ok <==> t.Some?) && (ok ==> View() == State(old(pc), t.value))
    {
      hide ExecFour;
      if m.Memcpy? || m.Memmov? || m.Memset? || m.Strncpy? {
        BlockInst(m, rd, r[ra], r[rb], r[rc], ra, rb, rc);
        ok := true;
      } else {
        ok := TableInst(m, rd, ra, rb, rc);
      }
    }

    /** The instructions that write memory; the operands were read before. */
    method BlockInst(m: Mnemonic, rd: nat, a: u32, b: u32, c: u32, ghost ra: nat, ghost rb: nat, ghost rc: nat)
      requires Valid() && rd < REG_COUNT && ra < REG_COUNT && rb < REG_COUNT && rc < REG_COUNT
      requires (m.Memcpy? || m.Memmov? || m.Memset? || m.Strncpy?) && a == r[ra] && b == r[rb] && c == r[rc]
      modifies r, rom, ram, trap
      ensures ExecFour(m, rd, ra, rb, rc, old(CoreView())) == Some(CoreView())
    {
      hide CopyTo, MoveTo, FillTo, StrNCopy, SetReg;
      if m.Memcpy? {
        CopyBytes(a, b, c);
      } else if m.Memmov? {
        MoveBytes(a, b, c);
      } else if m.Memset? {
        FillBytes(a, b % 0x100, c);
      } else {
        CopyStringN(a, b, c);
      }
      PutReg(rd, a);
    }

    /** The instructions that read memory, and the rest. */
    method TableInst(m: Mnemonic, rd: nat, ra: nat, rb: nat, rc: nat) returns (ok: bool)
      requires Valid() && rd < REG_COUNT && ra < REG_COUNT && rb < REG_COUNT && rc < REG_COUNT
      requires !(m.Memcpy? || m.Memmov? || m.Memset? || m.Strncpy?)
      modifies r, this`flags
      ensures var t := ExecFour(m, rd, ra, rb, rc, old(CoreView()));
        (ok <==> t.Some?) && (ok ==> CoreView() == t.value)
    {
      hide CopyTo, MoveTo, FillTo, StrNCopy, Read32, HasByte, SetReg, SetResult, Wrap;
      ok := true;
      if m.Memchr? || m.Memchrf? {
        var found := FindByte(r[ra], r[rb], r[rc]);
        var v := if found then r[ra] else 0;
        if m.Memchr? {
          PutReg(rd, v);
        } else {
          PutResult(rd, v);
        }
      } else if m.Indtab? || m.Indtab8? {
        var index: int := Wrap(r[rb] as int + r[rc] as int);
        var v := Load32(Wrap(r[ra] + index * (if m.Indtab? then 4 else 8)));
        PutReg(rd, v);
      } else {
        ok := m.Chtree?;
      }
    }

    /** One step: fetch, scan the table, decode, execute. `false` when the word is none of the
        modelled instructions, or one that aborts. */
    method StepOnce(host: Host) returns (ok: bool)
      requires Valid()
      modifies this, r, rom, ram, trap
      ensures var t := Step(host, old(View()));
        (ok <==> t.Some?) && (ok ==> View() == t.value)
    {
      hide Read8, Execute, Dispatch;
      var b1 := Load8(Wrap(pc + 1));
      var b2 := Load8(Wrap(pc + 2));
      var b3 := Load8(Wrap(pc + 3));
      var m := MatchTable(b3);
      ok := ExecuteWord(host, m, b1, b2, b3);
    }

    method ExecuteWord(host: Host, m: Option<Mnemonic>, b1: byte, b2: byte, b3: byte) returns (ok: bool)
      requires Valid() && m == Dispatch(b3)
      modifies this, r, rom, ram, trap
      ensures var t := Execute(host, old(View()), b1, b2, b3);
        (ok <==> t.Some?) && (ok ==> View() == t.value)
    {
      hide Dispatch, ExecInt, ExecFour, ExecBranch, FormatOf, MemOk, Operate, BitAnd, BitOr, ShiftRight, ShiftLeft;
      if m.None? {
        return false;
      }
      ByteFields(b1);
      ByteFields(b2);
      match FormatOf(m.value) {
        case ImmOrReg =>
          var o := DecodeOperands(b1, b2, b3);
          ok := ImmOrRegInst(host, m.value, o);
          pc := Wrap(pc + 4);
        case FourRegs =>
          ok := FourRegsInst(m.value, BitAnd(b1, 0x0f, 32), BitAnd(ShiftRight(b1, 4), 0x0f, 32),
                             BitAnd(b2, 0x0f, 32), BitAnd(ShiftRight(b2, 4), 0x0f, 32));
          pc := Wrap(pc + 4);
        case Branch =>
          ok := true;
          if m.value == Call {
            ok := CallInst(b1, b2);
          } else {
            BranchInst(m.value, b1, b2, b3);
          }
        case NoOperand =>
          pc := r[ABI_RA];
          ok := true;
        case Abs16 =>
          ReadFields(b1, b2);
          pc := BitOr(ShiftLeft(b1, 8), b2, 32);
          ok := true;
        case Rel16 =>
          ReadFields(b1, b2);
          var w: int := BitOr(ShiftLeft(b1, 8), b2, 32);
          pc := Wrap(pc + (if w < 0x8000 then w else w - 0x1_0000));
          ok := true;
      }
    }

    /** The decoder of the immediate-or-register format. */
    method DecodeOperands(b1: byte, b2: byte, b3: byte) returns (o: Operands)
      requires Valid()
      ensures o == Operate(CpuView(), b1 % 16, b1 / 16, if b3 >= 128 then Imm(b2) else Reg(b2 % 16, b2 / 16))
      ensures o.rd < REG_COUNT
    {
      hide BitAnd, ShiftRight;
      ByteFields(b1);
      ByteFields(b2);
      ByteFields(b3);
      var rd, ra := BitAnd(b1, 0x0f, 32), BitAnd(ShiftRight(b1, 4), 0x0f, 32);
      if BitAnd(b3, 0x80, 32) != 0 {
        o := Operands(rd, Wrap(r[ra] + b2 * 4), r[ra], b2);
      } else {
        var rb, imm := BitAnd(b2, 0x0f, 32), BitAnd(ShiftRight(b2, 4), 0x0f, 32);
        o := Operands(rd, Wrap(r[ra] + r[rb] * imm * 4), r[ra], Wrap(r[rb] + imm));
      }
    }

    /** The call; `false` where the byte names no register. */
    method CallInst(b1: byte, b2: byte) returns (ok: bool)
      requires Valid()
      modifies this, r
      ensures ok <==> b1 < REG_COUNT
      ensures ok ==> View() == ExecCall(old(View()), b1, b2)
    {
      ok := b1 < REG_COUNT;
      if ok {
        pc := Wrap(r[b1] + Signed8(b2));
        r[ABI_RA] := Wrap(pc + 4);
      }
    }

    /** The branch: the test, and the target or the next instruction. */
    method BranchInst(m: Mnemonic, b1: byte, b2: byte, b3: byte)
      requires Valid() && Dispatch(b3) == Some(m) && FormatOf(m).Branch? && m != Call
      modifies this
      ensures View() == ExecBranch(old(View()), m, b1, b2)
    {
      hide BranchTaken, Dispatch, FormatOf, Signed8, FlagsOf;
      var target := Wrap(pc + Signed8(b2));
      var cond := BranchCondition(m, b1, b3, target);
      pc := if cond then target else Wrap(pc + 4);
    }

    /** A switch on the opcode, then the condition bits one by one. */
    method BranchCondition(m: Mnemonic, b1: byte, b3: byte, target: u32) returns (cond: bool)
      requires Valid() && Dispatch(b3) == Some(m) && FormatOf(m).Branch? && m != Call
      ensures cond == BranchTaken(m, CpuView(), b1 % 16, b1 / 16, pc, target)
    {
      hide BitAnd, ShiftRight, BranchTest, Dispatch, FormatOf, FlagsOf;
      ByteFields(b1);
      FourDown(b1);
      var ra, cc := BitAnd(b1, 0x0f, 32), ShiftRight(b1, 4);
      var test := BranchSwitch(m, ra, target, b3);
      cond := Conditions(test, cc);
    }

    /** The condition bits: flags to ask for, then inversion. */
    method Conditions(test: bool, cc: nat) returns (cond: bool)
      requires Valid() && cc < 16
      ensures var test1 := if cc / 2 % 2 == 1 then test && FlagsOf(flags).n else test;
        var test2 := if cc / 4 % 2 == 1 then test1 && FlagsOf(flags).z else test1;
        var test3 := if cc / 8 % 2 == 1 then test2 && FlagsOf(flags).c else test2;
        cond == if cc % 2 == 1 then !test3 else test3
    {
      hide BitAnd;
      FlagTests(flags, cc);
      cond := if BitAnd(cc, 0x02, 32) != 0 then test && BitAnd(flags, FLAG_N, 32) != 0 else test;
      cond := if BitAnd(cc, 0x04, 32) != 0 then cond && BitAnd(flags, FLAG_Z, 32) != 0 else cond;
      cond := if BitAnd(cc, 0x08, 32) != 0 then cond && BitAnd(flags, FLAG_C, 32) != 0 else cond;
      cond := if BitAnd(cc, 0x01, 32) != 0 then !cond else cond;
    }

    /** The switch: comparisons with constants and addresses first, with the temporaries after. */
    method BranchSwitch(m: Mnemonic, ra: nat, target: u32, b3: byte) returns (cond: bool)
      requires Valid() && ra < REG_COUNT && Dispatch(b3) == Some(m) && FormatOf(m).Branch? && m != Call
      ensures cond == BranchTest(m, CpuView(), ra, pc, target)
    {
      hide BitAnd, Dispatch, FormatOf, BranchTest, FlagsOf;
      BranchRow(m, b3);
      ByteFields(b3 - 0x50);
      var k := BitAnd(b3 - 0x50, 0x0f, 32);
      if k < 8 {
        cond := SimpleTest(k, r[ra], target);
      } else {
        cond := r[ra] == r[k - 8];
      }
      TestsAgree(k, CpuView(), ra, pc, target);
    }

    method SimpleTest(k: nat, v: u32, target: u32) returns (cond: bool)
      requires k < 8
      ensures cond == TestOf(k, v, pc, target)
    {
      hide Signed32;
      match k {
        case 0 => cond := v == 0;
        case 1 => cond := true;
        case 2 => cond := Signed32(v) > 0;
        case 3 => cond := v > pc;
        case 4 => cond := v > target;
        case 5 => cond := v == 1;
        case 6 => cond := Signed32(v) > 1;
        case _ => cond := v == BitNot(0);
      }
    }
  }

  /** The tests that compare with no register. */
  function TestOf(k: nat, v: u32, pc: u32, target: u32): bool
    requires k < 8
  {
    match k
    case 0 => v == 0
    case 1 => true
    case 2 => Signed32(v) > 0
    case 3 => v > pc
    case 4 => v > target
    case 5 => v == 1
    case 6 => Signed32(v) > 1
    case _ => v == 0xFFFF_FFFF
  }

  lemma {:induction false} TestsAgree(k: nat, c: Cpu, ra: nat, pc: u32, target: u32)
    requires CpuOk(c) && ra < REG_COUNT && k < 16
    ensures BranchTest(BranchAt(k), c, ra, pc, target)
            == if k < 8 then TestOf(k, c.r[ra], pc, target) else c.r[ra] == c.r[k - 8]
  {
    hide Signed32;
  }

  lemma {:induction false} CellOf(a: u32, k: nat)
    ensures Translate(Wrap(a + k)) == CellAt(a, k)
  {
  }

  // ---------- the masks ----------

  lemma {:induction false} OrFlags()
    ensures BitOr(FLAG_Z, FLAG_N, 32) == 3
  {
    Powers();
    OrFields(1, 1, 1, 32);
  }

  /** The complement of a constant that is all ones. */
  lemma {:induction false} NoMaskLeft()
    ensures BitNot(0xFFFF_FFFF) == 0
  {
  }

  lemma {:induction false} FourDown(b: byte)
    ensures ShiftRight(b, 4) == b / 16
  {
    Powers();
  }

  lemma {:induction false} ReadFields(hi: byte, lo: byte)
    ensures BitOr(ShiftLeft(hi, 8), ShiftLeft(lo, 0), 32) == hi * 0x100 + lo
    ensures BitOr(ShiftLeft(hi, 8), lo, 32) == hi * 0x100 + lo
  {
    Powers();
    OrFields(hi, lo, 8, 32);
  }

  lemma {:induction false} ReadHalves(hi: nat, lo: nat)
    requires hi < 0x1_0000 && lo < 0x1_0000
    ensures BitOr(ShiftLeft(hi, 16), ShiftLeft(lo, 0), 32) == hi * 0x1_0000 + lo
  {
    Powers();
    OrFields(hi, lo, 16, 32);
  }

  lemma {:induction false} SwapFields(v: u32)
    ensures var b3, b2 := BitAnd(ShiftRight(v, 24), 0xff, 32), BitAnd(ShiftRight(v, 16), 0xff, 32);
      var b1, b0 := BitAnd(ShiftRight(v, 8), 0xff, 32), BitAnd(ShiftRight(v, 0), 0xff, 32);
      var low := BitOr(ShiftLeft(b3, 0), ShiftLeft(b2, 8), 32);
      BitOr(BitOr(low, ShiftLeft(b1, 16), 32), ShiftLeft(b0, 24), 32) == BSwap(v)
  {
    hide BitAnd, BitOr, Pow2;
    Powers();
    Quotient(v, 1, v, 0);
    var b3, b2, b1, b0 := v / 0x100_0000 % 0x100, v / 0x1_0000 % 0x100, v / 0x100 % 0x100, v % 0x100;
    LowMask(v / 0x100_0000, 8, 32);
    LowMask(v / 0x1_0000, 8, 32);
    LowMask(v / 0x100, 8, 32);
    LowMask(v, 8, 32);
    JoinFields(b3, b2, 8);
    JoinFields(b3 + b2 * 0x100, b1, 16);
    JoinFields(b3 + b2 * 0x100 + b1 * 0x1_0000, b0, 24);
  }

  /** A byte put above the fields below it. */
  lemma {:induction false} JoinFields(low: nat, b: byte, k: nat)
    requires low < Pow2(k) && k <= 24
    ensures BitOr(low, b * Pow2(k), 32) == low + b * Pow2(k)
  {
    hide BitOr;
    Powers();
    PowersGrow(8, 32 - k);
    OrFields(b, low, k, 32);
    OrCommutes(b * Pow2(k), low, 32);
  }

  lemma {:induction false} PowersGrow(i: nat, j: nat)
    requires i <= j
    ensures Pow2(i) <= Pow2(j)
    decreases j
  {
    if i < j {
      PowersGrow(i, j - 1);
    }
  }

  lemma {:induction false} HalfBytes(v: nat)
    requires v < 0x1_0000
    ensures ShiftRight(v, 0) % 0x100 == v % 0x100 && ShiftRight(v, 8) % 0x100 == v / 0x100
  {
    Powers();
  }

  lemma {:induction false} WordHalves(v: u32)
    ensures ShiftRight(v, 0) % 0x1_0000 == v % 0x1_0000 && ShiftRight(v, 16) % 0x1_0000 == v / 0x1_0000
  {
    Powers();
  }

  lemma {:induction false} CopyNone(m: Mem, dst: u32, src: u32)
    requires MemOk(m)
    ensures CopyTo(m, dst, src, 0) == m
  {
  }

  lemma {:induction false} StopsHere(m: Mem, dst: u32, src: u32, d: nat, i: nat)
    requires MemOk(m) && StopsAt(m, dst, src, d) && i <= d
    ensures var p := CopyTo(m, dst, src, i);
      && (Load(p, CellAt(src, i)) == 0 <==> i == d)
      && CopyTo(m, dst, src, i + 1) == Store(p, CellAt(dst, i), Load(p, CellAt(src, i)))
  {
    hide Load, Store, CellAt;
  }

  lemma {:induction false} FlagTests(w: u32, cc: nat)
    requires cc < 16
    ensures BitAnd(w, FLAG_N, 32) != 0 <==> FlagsOf(w).n
    ensures BitAnd(w, FLAG_Z, 32) != 0 <==> FlagsOf(w).z
    ensures BitAnd(w, FLAG_C, 32) != 0 <==> FlagsOf(w).c
    ensures BitAnd(cc, 0x01, 32) != 0 <==> cc % 2 == 1
    ensures BitAnd(cc, 0x02, 32) != 0 <==> cc / 2 % 2 == 1
    ensures BitAnd(cc, 0x04, 32) != 0 <==> cc / 4 % 2 == 1
    ensures BitAnd(cc, 0x08, 32) != 0 <==> cc / 8 % 2 == 1
  {
    hide BitAnd;
    Powers();
    TestBit(w, 0, 32);
    TestBit(w, 1, 32);
    TestBit(w, 2, 32);
    TestBit(cc, 0, 32);
    TestBit(cc, 1, 32);
    TestBit(cc, 2, 32);
    TestBit(cc, 3, 32);
  }

  /** The opcodes of the branches, in the order of the switch. */
  lemma {:induction false} BranchRow(m: Mnemonic, b3: byte)
    requires Dispatch(b3) == Some(m) && FormatOf(m).Branch? && m != Call
    ensures 0x50 <= b3 < 0x60 && m == BranchAt(b3 - 0x50)
  {
    hide Dispatch, FormatOf, OpcodeOf, BranchAt;
    BranchOpcodes(m);
  }

  lemma {:induction false} BranchOpcodes(m: Mnemonic)
    requires FormatOf(m).Branch? && m != Call
    ensures 0x50 <= OpcodeOf(m) < 0x60 && m == BranchAt(OpcodeOf(m) - 0x50)
  {
  }

  function BranchAt(k: nat): Mnemonic
    requires k < 16
  {
    match k
    case 0 => Bz
    case 1 => B
    case 2 => Bgzs
    case 3 => Bgpc
    case 4 => Bgpcrela
    case 5 => Bo
    case 6 => Bgoz
    case 7 => Bemax
    case 8 => Bet0
    case 9 => Bet1
    case 10 => Bet2
    case 11 => Bet3
    case 12 => Bet4
    case 13 => Bet5
    case 14 => Bet6
    case _ => Bet7
  }
}

/** What the four-register instructions do, told by the bytes of the word and the cells before and
    after, and which words step at all. */
module Blocks {
  import opened Options
  import opened Words
  import opened Isa
  import opened Memory
  import opened Machine
  import opened Effects
  import opened Control

  /** The registers a word names: destination address, source or value, count. */
  ghost predicate Names(c: Cpu, b1: byte, b2: byte, dst: u32, src: u32, n: u32)
    requires CpuOk(c)
  {
    dst == c.r[b1 / 16] && src == c.r[b2 % 16] && n == c.r[b2 / 16]
  }

  lemma {:induction false} FourExecutes(host: Host, s: State, b1: byte, b2: byte, b3: byte, i: nat)
    requires CoreOk(s.core) && Fetched(s, b1, b2, b3) && 27 <= i < 42 && b3 == 0x30 + (i - 27)
    ensures Step(host, s) == Next(s.pc, ExecFour(At(i), b1 % 16, b1 / 16, b2 % 16, b2 / 16, s.core))
  {
    hide Step, Fetched, ExecInt, ExecFour, ExecBranch, Dispatch, Operate, FormatOf, OpcodeOf, At, MemOk;
    OpcodesInOrder(i);
    FourRow(i);
    StepExecutes(host, s, b1, b2, b3);
    WordDispatches(b3, i);
  }

  lemma {:induction false} FourRow(i: nat)
    requires 27 <= i < 42
    ensures FormatOf(At(i)).FourRegs?
  {
  }

  lemma {:induction false} BlockRows()
    ensures At(27) == Memcpy && At(28) == Memmov && At(29) == Memset && At(35) == Strncpy
  {
  }

  lemma {:induction false} TableRows()
    ensures At(30) == Memchr && At(31) == Memchrf && At(39) == Indtab && At(40) == Indtab8 && At(41) == Chtree
  {
  }

  lemma {:induction false} AbortRows(i: nat)
    requires 32 <= i <= 38 && i != 35
    ensures At(i) in [Strcpy, Strcat, Strpbrk, Strncat, Strchr, Strnchr]
  {
  }

  // ---------- what block operations do to cells ----------

  /** Each of `n` destination cells, written last at its offset, holds what its source held; every other
      cell is as before. */
  ghost predicate Copied(m: Mem, m': Mem, dst: u32, src: u32, n: nat)
    requires MemOk(m) && MemOk(m')
  {
    && (forall i :: 0 <= i < n && (forall j :: i < j < n ==> CellAt(dst, j) != CellAt(dst, i)) ==>
            Load(m', CellAt(dst, i)) == Load(m, CellAt(src, i)))
    && Outside(m, m', dst, n)
  }

  /** Cells other than the `n` from `dst` on are as before. */
  ghost predicate Outside(m: Mem, m': Mem, dst: u32, n: nat)
    requires MemOk(m) && MemOk(m')
  {
    forall c :: IsCell(c) && (forall i :: 0 <= i < n ==> CellAt(dst, i) != c) ==> Load(m', c) == Load(m, c)
  }

  lemma {:induction false} LastIs(dst: u32, n: nat, i: nat)
    requires i < n && forall j :: i < j < n ==> CellAt(dst, j) != CellAt(dst, i)
    ensures LastWriter(dst, n, CellAt(dst, i)) == i
  {
    hide CellAt, LastWriter;
    var r := LastWriter(dst, n, CellAt(dst, i));
    assert r < i ==> CellAt(dst, i) != CellAt(dst, i);
  }

  lemma {:induction false} CopyCells(m: Mem, dst: u32, src: u32, n: nat)
    requires MemOk(m) && NoHazard(dst, src, n)
    ensures Copied(m, CopyTo(m, dst, src, n), dst, src, n)
  {
    hide Load, CellAt, CopyTo, NoHazard, LastWriter;
    forall i | 0 <= i < n && forall j :: i < j < n ==> CellAt(dst, j) != CellAt(dst, i)
      ensures Load(CopyTo(m, dst, src, n), CellAt(dst, i)) == Load(m, CellAt(src, i))
    {
      LastIs(dst, n, i);
      CopyIsSimultaneous(m, dst, src, n, CellAt(dst, i));
    }
    CopyOutside(m, dst, src, n);
  }

  lemma {:induction false} FillCells(m: Mem, dst: u32, v: byte, n: nat)
    requires MemOk(m)
    ensures forall i :: 0 <= i < n ==> Load(FillTo(m, dst, v, n), CellAt(dst, i)) == v
    ensures Outside(m, FillTo(m, dst, v, n), dst, n)
  {
    hide Load, CellAt, FillTo;
    forall c | IsCell(c)
      ensures Load(FillTo(m, dst, v, n), c) == if LastWriter(dst, n, c) >= 0 then v else Load(m, c)
    {
      FillSets(m, dst, v, n, c);
    }
  }

  lemma {:induction false} CopyOutside(m: Mem, dst: u32, src: u32, n: nat)
    requires MemOk(m)
    ensures Outside(m, CopyTo(m, dst, src, n), dst, n)
  {
    hide Load, CellAt, Store;
    if n > 0 {
      CopyOutside(m, dst, src, n - 1);
    }
  }

  lemma {:induction false} CopyDownOutside(m: Mem, dst: u32, src: u32, c: nat, n: nat)
    requires MemOk(m) && n <= c
    ensures Outside(m, CopyDown(m, dst, src, c, n), dst, c + 1)
    decreases n
  {
    hide Load, CellAt, Store;
    if n > 0 {
      CopyDownOutside(m, dst, src, c, n - 1);
    }
  }

  lemma {:induction false} MoveOutside(m: Mem, dst: u32, src: u32, n: nat)
    requires MemOk(m)
    ensures Outside(m, MoveTo(m, dst, src, n), dst, n + 1)
  {
    hide Load, CellAt, CopyTo, CopyDown;
    CopyOutside(m, dst, src, n);
    CopyDownOutside(m, dst, src, n, n);
  }

  // ---------- the block instructions ----------

  /** A step that leaves the destination address in register `d` and changes memory. */
  ghost predicate Writes(s: State, t: State, d: nat, dst: u32)
    requires CoreOk(s.core) && CoreOk(t.core) && d < 16
  {
    && GoesOn(s, t) && OthersSame(s, t, d) && t.core.cpu.r[d] == dst && t.core.cpu.flags == s.core.cpu.flags
  }

  lemma {:induction false} BlockExecutes(host: Host, s: State, b1: byte, b2: byte, b3: byte, dst: u32, src: u32, n: u32)
    requires CoreOk(s.core) && Fetched(s, b1, b2, b3) && Names(s.core.cpu, b1, b2, dst, src, n)
    requires b3 in [0x30, 0x31, 0x32, 0x38]
    ensures var t := Step(host, s);
      && t.Some? && Writes(s, t.value, b1 % 16, dst)
      && t.value.core.mem == if b3 == 0x30 then CopyTo(s.core.mem, dst, src, n)
                             else if b3 == 0x31 then MoveTo(s.core.mem, dst, src, n)
                             else if b3 == 0x32 then FillTo(s.core.mem, dst, src % 0x100, n)
                             else StrNCopy(s.core.mem, dst, src, 0, n)
  {
    hide Step, Fetched, At, CopyTo, MoveTo, FillTo, StrNCopy, MemOk;
    BlockRows();
    FourExecutes(host, s, b1, b2, b3, 27 + (b3 - 0x30));
  }

  /** memcpy, 0x30: in the registers of the word, wherever nothing is overwritten before it is read. */
  lemma {:induction false} CopyStep(host: Host, s: State, b1: byte, b2: byte, dst: u32, src: u32, n: u32)
    requires CoreOk(s.core) && Fetched(s, b1, b2, 0x30) && Names(s.core.cpu, b1, b2, dst, src, n)
    ensures var t := Step(host, s);
      && t.Some? && Writes(s, t.value, b1 % 16, dst)
      && (NoHazard(dst, src, n) ==> Copied(s.core.mem, t.value.core.mem, dst, src, n))
  {
    hide Step, Fetched, Names, Writes, CopyTo, NoHazard, Copied, MemOk;
    BlockExecutes(host, s, b1, b2, 0x30, dst, src, n);
    if NoHazard(dst, src, n) {
      CopyCells(s.core.mem, dst, src, n);
    }
  }

  /** memmov, 0x31: on blocks in whose span no cell comes twice, the bytes are moved exactly when the
      blocks fit as `MoveFits` says; only the cells of the destination and the one after it change. */
  lemma {:induction false} MoveStep(host: Host, s: State, b1: byte, b2: byte, dst: u32, src: u32, n: u32)
    requires CoreOk(s.core) && Fetched(s, b1, b2, 0x31) && Names(s.core.cpu, b1, b2, dst, src, n)
    requires Apart(if dst > src then src else dst, n + if dst > src then dst - src else src - dst)
    ensures var t, m := Step(host, s), s.core.mem;
      && t.Some? && Writes(s, t.value, b1 % 16, dst) && Outside(m, t.value.core.mem, dst, n + 1)
      && ((forall i :: 0 <= i < n ==> Load(t.value.core.mem, CellAt(dst, i)) == Load(m, CellAt(src, i)))
          <==> MoveFits(m, dst, src, n))
  {
    hide Step, Fetched, Names, Writes, MoveTo, MoveFits, Apart, MemOk, Load, CellAt;
    BlockExecutes(host, s, b1, b2, 0x31, dst, src, n);
    MovesExactly(s.core.mem, dst, src, n);
    MoveOutside(s.core.mem, dst, src, n);
  }

  /** memset, 0x32: the low byte of the register in the cells of the range, and nowhere else. */
  lemma {:induction false} FillStep(host: Host, s: State, b1: byte, b2: byte, dst: u32, v: u32, n: u32)
    requires CoreOk(s.core) && Fetched(s, b1, b2, 0x32) && Names(s.core.cpu, b1, b2, dst, v, n)
    ensures var t := Step(host, s);
      && t.Some? && Writes(s, t.value, b1 % 16, dst) && Outside(s.core.mem, t.value.core.mem, dst, n)
      && forall i :: 0 <= i < n ==> Load(t.value.core.mem, CellAt(dst, i)) == v % 0x100
  {
    hide Step, Fetched, Names, Writes, FillTo, MemOk, Load, CellAt;
    BlockExecutes(host, s, b1, b2, 0x32, dst, v, n);
    FillCells(s.core.mem, dst, v % 0x100, n);
  }

  /** strncpy, 0x38: the bytes up to and including the first NUL, or all `n` of them. */
  lemma {:induction false} StringStep(host: Host, s: State, b1: byte, b2: byte, dst: u32, src: u32, n: u32, len: nat)
    requires CoreOk(s.core) && Fetched(s, b1, b2, 0x38) && Names(s.core.cpu, b1, b2, dst, src, n)
    requires CopyLength(s.core.mem, src, n, len) && NoHazard(dst, src, len)
    ensures var t := Step(host, s);
      t.Some? && Writes(s, t.value, b1 % 16, dst) && Copied(s.core.mem, t.value.core.mem, dst, src, len)
  {
    hide Step, Fetched, Names, Writes, StrNCopy, NoHazard, Copied, MemOk, Load, CellAt;
    var m := s.core.mem;
    BlockExecutes(host, s, b1, b2, 0x38, dst, src, n);
    CopyCells(m, dst, src, len);
    StrNCopyIsCopy(m, dst, src, 0, n, len);
    assert CopyTo(m, dst, src, 0) == m;
  }

  // ---------- the instructions that only read ----------

  lemma {:induction false} SearchExecutes(host: Host, s: State, b1: byte, b2: byte, b3: byte, at: u32, v: u32, n: u32)
    requires CoreOk(s.core) && Fetched(s, b1, b2, b3) && Names(s.core.cpu, b1, b2, at, v, n) && 0x33 <= b3 <= 0x34
    ensures var m := if b3 == 0x33 then Memchr else Memchrf;
      Step(host, s) == Next(s.pc, ExecFour(m, b1 % 16, b1 / 16, b2 % 16, b2 / 16, s.core))
  {
    hide Step, Fetched, At, ExecFour, MemOk, Next;
    TableRows();
    FourExecutes(host, s, b1, b2, b3, 27 + (b3 - 0x30));
  }

  /** memchr and memchrf, 0x33 and 0x34: the start address if some cell of the range holds what the whole
      register does, else 0; the second tells the flags. */
  lemma {:induction false} SearchStep(host: Host, s: State, b1: byte, b2: byte, b3: byte, at: u32, v: u32, n: u32)
    requires CoreOk(s.core) && Fetched(s, b1, b2, b3) && Names(s.core.cpu, b1, b2, at, v, n) && 0x33 <= b3 <= 0x34
    ensures var t := Step(host, s);
      var w := if exists i :: 0 <= i < n && Load(s.core.mem, CellAt(at, i)) == v then at else 0;
      && t.Some?
      && if b3 == 0x33 then Loads(s, t.value, b1 % 16, w) else Yields(s, t.value, b1 % 16, w)
  {
    hide Step, Fetched, MemOk, Load, CellAt;
    SearchExecutes(host, s, b1, b2, b3, at, v, n);
    assert HasByte(s.core.mem, at, v, n) <==> exists i :: 0 <= i < n && Load(s.core.mem, CellAt(at, i)) == v;
  }

  /** indtab and indtab8, 0x3c and 0x3d: the word in a table of four-byte or eight-byte entries, at the
      sum of the two indices. */
  lemma {:induction false} TableStep(host: Host, s: State, b1: byte, b2: byte, b3: byte, base: u32, i: u32, j: u32,
                                     addr: u32)
    requires CoreOk(s.core) && Fetched(s, b1, b2, b3) && Names(s.core.cpu, b1, b2, base, i, j) && 0x3c <= b3 <= 0x3d
    requires (addr - base - (if b3 == 0x3c then 4 else 8) * (i + j)) % 0x1_0000_0000 == 0
    ensures var t := Step(host, s);
      && t.Some? && Loads(s, t.value, b1 % 16, t.value.core.cpu.r[b1 % 16])
      && Held(s.core.mem, addr, t.value.core.cpu.r[b1 % 16], 4)
  {
    hide Step, Fetched, At, MemOk, Read32, Held;
    TableRows();
    FourExecutes(host, s, b1, b2, b3, 27 + (b3 - 0x30));
    EntryAddress(base, i + j, if b3 == 0x3c then 4 else 8, addr);
    ReadsHeld(s.core.mem, addr);
  }

  lemma {:induction false} EntryAddress(base: u32, sum: int, size: nat, addr: u32)
    requires (addr - base - size * sum) % 0x1_0000_0000 == 0 && (size == 4 || size == 8)
    ensures Wrap(base + Wrap(sum) * size) == addr
  {
    var q := sum / 0x1_0000_0000;
    assert sum == q * 0x1_0000_0000 + Wrap(sum);
    assert addr - (base + Wrap(sum) * size) == addr - base - size * sum + size * q * 0x1_0000_0000;
  }

  /** The tree walk, 0x3e, leaves nothing behind. */
  lemma {:induction false} WalkStep(host: Host, s: State, b1: byte, b2: byte)
    requires CoreOk(s.core) && Fetched(s, b1, b2, 0x3e)
    ensures var t := Step(host, s);
      t.Some? && GoesOn(s, t.value) && t.value.core == s.core
  {
    hide Step, Fetched, At, MemOk;
    TableRows();
    FourExecutes(host, s, b1, b2, 0x3e, 41);
  }

  // ---------- which words step ----------

  /** The opcode bytes, in numbers, whose words have a step. */
  ghost predicate Steps(b1: byte, b3: byte) {
    || b3 % 128 <= 0x18 || 0x20 <= b3 % 128 <= 0x21
    || 0x30 <= b3 <= 0x34 || b3 == 0x38 || 0x3c <= b3 <= 0x3e
    || b3 == 0x40 || b3 == 0x41 || b3 == 0x43 || (b3 == 0x42 && b1 < 16)
    || 0x50 <= b3 <= 0x5f
  }

  lemma {:induction false} NoRow(b3: byte)
    ensures Dispatch(b3).Some? ==>
              b3 % 128 <= 0x18 || 0x20 <= b3 % 128 <= 0x21
              || 0x30 <= b3 <= 0x3e || 0x40 <= b3 <= 0x43 || 0x50 <= b3 <= 0x5f
  {
    hide OpcodeOf, At, FormatOf, IndexOf, NameOf;
    if Dispatch(b3).Some? {
      OpcodesInOrder(IndexOf(Dispatch(b3).value));
    }
  }

  lemma {:induction false} AbortStep(host: Host, s: State, b1: byte, b2: byte, b3: byte)
    requires CoreOk(s.core) && Fetched(s, b1, b2, b3) && 0x35 <= b3 <= 0x3b && b3 != 0x38
    ensures Step(host, s).None?
  {
    hide Step, Fetched, At, MemOk;
    var i := 27 + (b3 - 0x30);
    AbortRows(i);
    FourExecutes(host, s, b1, b2, b3, i);
  }

  lemma {:induction false} UnknownStep(host: Host, s: State, b1: byte, b2: byte, b3: byte)
    requires CoreOk(s.core) && Fetched(s, b1, b2, b3) && Dispatch(b3).None?
    ensures Step(host, s).None?
  {
    hide Step, Fetched, Dispatch, MemOk, ExecInt, ExecFour, ExecBranch, ExecCall, Operate;
    StepExecutes(host, s, b1, b2, b3);
  }

  lemma {:induction false} IntSteps(host: Host, s: State, b1: byte, b2: byte, b3: byte)
    requires CoreOk(s.core) && Fetched(s, b1, b2, b3) && (b3 % 128 <= 0x18 || 0x20 <= b3 % 128 <= 0x21)
    ensures Step(host, s).Some?
  {
    hide Step, Fetched, MemOk, ExecInt, At, FormatOf, OpcodeOf, Wrap;
    var k := b3 % 128;
    var i := if k <= 0x18 then k else 25 + (k - 0x20);
    IntRow(i);
    IntExecutes(host, s, At(i), b1, b2, b3);
    IntResult(host, At(i), Operate(s.core.cpu, b1 % 16, b1 / 16, SourceBytes(b2, b3)), s.core);
  }

  lemma {:induction false} IntRow(i: nat)
    requires i < 27
    ensures FormatOf(At(i)).ImmOrReg? && OpcodeOf(At(i)) == if i < 25 then i else 0x20 + (i - 25)
  {
  }

  lemma {:induction false} IntResult(host: Host, m: Mnemonic, o: Operands, s: Core)
    requires CoreOk(s) && o.rd < 16 && FormatOf(m).ImmOrReg?
    ensures ExecInt(host, m, o, s).Some?
  {
    hide Alu, StoreAs, LoadAs, BitsOf, FlagWord, SetReg, SetResult, Compare, MemOk;
  }

  lemma {:induction false} StepsOn(host: Host, s: State, b1: byte, b2: byte, b3: byte)
    requires CoreOk(s.core) && Fetched(s, b1, b2, b3) && Steps(b1, b3)
    ensures Step(host, s).Some?
  {
    hide Step, Fetched, MemOk, At, Asks, FlagsAsked, CopyTo, MoveTo, FillTo, StrNCopy, HasByte, Read32;
    if b3 % 128 <= 0x18 || 0x20 <= b3 % 128 <= 0x21 {
      IntSteps(host, s, b1, b2, b3);
    } else if 0x30 <= b3 <= 0x3e {
      FourExecutes(host, s, b1, b2, b3, 27 + (b3 - 0x30));
      BlockRows();
      TableRows();
    } else if b3 == 0x42 {
      CallStep(host, s, b1, b2);
    } else if 0x50 <= b3 {
      BranchStep(host, s, b1, b2, b3);
    } else {
      JumpStep(host, s, b1, b2, b3);
    }
  }

  /** A word steps if and only if its opcode byte is one of these, a call naming a register. */
  lemma {:induction false} StepsExactly(host: Host, s: State, b1: byte, b2: byte, b3: byte)
    requires CoreOk(s.core) && Fetched(s, b1, b2, b3)
    ensures Step(host, s).Some? <==> Steps(b1, b3)
  {
    hide Step, Fetched, Dispatch, CoreOk;
    if Steps(b1, b3) {
      StepsOn(host, s, b1, b2, b3);
    } else {
      NoRow(b3);
      if b3 == 0x42 {
        CallStep(host, s, b1, b2);
      } else if 0x35 <= b3 <= 0x3b {
        AbortStep(host, s, b1, b2, b3);
      } else {
        UnknownStep(host, s, b1, b2, b3);
      }
    }
  }
}

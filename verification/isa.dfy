/** The integer instructions in table order.

    Formats, names and opcodes, and the linear searches by name and by opcode byte that the
    assembler, the simulator and the disassembler make. */
module Isa {
  import opened Options
  import opened Words

  /** The formats of the integer rows: immediate or register third operand, four registers,
      absolute and relative 16-bit address, branch, and no operand. */
  datatype Format = ImmOrReg | FourRegs | Abs16 | Rel16 | Branch | NoOperand

  datatype Mnemonic =
    | Add | Sub | Mul | Div | Rem | Imul | And | Xor | Or | Shl | Shr | Pcnt | Clz | Clo | Bswap | Ipcnt
    | Stb | Stw | Stl | Stq | Ldb | Ldw | Ldl | Ldq | Lea | Cmp | Cmpkp | Memcpy | Memmov | Memset | Memchr
    | Memchrf | Strcpy | Strcat | Strpbrk | Strncpy | Strncat | Strchr | Strnchr | Indtab | Indtab8 | Chtree
    | Chtreeunchk | Jmp | Jmprel | Call | Ret | Bz | B | Bgzs | Bgpc | Bgpcrela | Bo | Bgoz | Bemax | Bet0
    | Bet1 | Bet2 | Bet3 | Bet4 | Bet5 | Bet6 | Bet7

  const TABLE_COUNT: nat := 63

  function NameOf(m: Mnemonic): string {
    match m
    case Add => "add"
    case Sub => "sub"
    case Mul => "mul"
    case Div => "div"
    case Rem => "rem"
    case Imul => "imul"
    case And => "and"
    case Xor => "xor"
    case Or => "or"
    case Shl => "shl"
    case Shr => "shr"
    case Pcnt => "pcnt"
    case Clz => "clz"
    case Clo => "clo"
    case Bswap => "bswap"
    case Ipcnt => "ipcnt"
    case Stb => "stb"
    case Stw => "stw"
    case Stl => "stl"
    case Stq => "stq"
    case Ldb => "ldb"
    case Ldw => "ldw"
    case Ldl => "ldl"
    case Ldq => "ldq"
    case Lea => "lea"
    case Cmp => "cmp"
    case Cmpkp => "cmpkp"
    case Memcpy => "memcpy"
    case Memmov => "memmov"
    case Memset => "memset"
    case Memchr => "memchr"
    case Memchrf => "memchrf"
    case Strcpy => "strcpy"
    case Strcat => "strcat"
    case Strpbrk => "strpbrk"
    case Strncpy => "strncpy"
    case Strncat => "strncat"
    case Strchr => "strchr"
    case Strnchr => "strnchr"
    case Indtab => "indtab"
    case Indtab8 => "indtab8"
    case Chtree => "chtree"
    case Chtreeunchk => "chtreeunchk"
    case Jmp => "jmp"
    case Jmprel => "jmprel"
    case Call => "call"
    case Ret => "ret"
    case Bz => "bz"
    case B => "b"
    case Bgzs => "bgzs"
    case Bgpc => "bgpc"
    case Bgpcrela => "bgpcrela"
    case Bo => "bo"
    case Bgoz => "bgoz"
    case Bemax => "bemax"
    case Bet0 => "bet0"
    case Bet1 => "bet1"
    case Bet2 => "bet2"
    case Bet3 => "bet3"
    case Bet4 => "bet4"
    case Bet5 => "bet5"
    case Bet6 => "bet6"
    case Bet7 => "bet7"
  }

  function FormatOf(m: Mnemonic): Format {
    match m
    case Add | Sub | Mul | Div | Rem | Imul | And | Xor | Or | Shl | Shr | Pcnt | Clz | Clo | Bswap |
      Ipcnt | Stb | Stw | Stl | Stq | Ldb | Ldw | Ldl | Ldq | Lea | Cmp | Cmpkp => ImmOrReg
    case Memcpy | Memmov | Memset | Memchr | Memchrf | Strcpy | Strcat | Strpbrk | Strncpy | Strncat |
      Strchr | Strnchr | Indtab | Indtab8 | Chtree | Chtreeunchk => FourRegs
    case Jmp => Abs16
    case Jmprel => Rel16
    case Call => Branch
    case Ret => NoOperand
    case Bz | B | Bgzs | Bgpc | Bgpcrela | Bo | Bgoz | Bemax | Bet0 | Bet1 | Bet2 | Bet3 | Bet4 | Bet5 |
      Bet6 | Bet7 => Branch
  }

  function OpcodeOf(m: Mnemonic): byte {
    match m
    case Add => 0x00
    case Sub => 0x01
    case Mul => 0x02
    case Div => 0x03
    case Rem => 0x04
    case Imul => 0x05
    case And => 0x06
    case Xor => 0x07
    case Or => 0x08
    case Shl => 0x09
    case Shr => 0x0a
    case Pcnt => 0x0b
    case Clz => 0x0c
    case Clo => 0x0d
    case Bswap => 0x0e
    case Ipcnt => 0x0f
    case Stb => 0x10
    case Stw => 0x11
    case Stl => 0x12
    case Stq => 0x13
    case Ldb => 0x14
    case Ldw => 0x15
    case Ldl => 0x16
    case Ldq => 0x17
    case Lea => 0x18
    case Cmp => 0x20
    case Cmpkp => 0x21
    case Memcpy => 0x30
    case Memmov => 0x31
    case Memset => 0x32
    case Memchr => 0x33
    case Memchrf => 0x34
    case Strcpy => 0x35
    case Strcat => 0x36
    case Strpbrk => 0x37
    case Strncpy => 0x38
    case Strncat => 0x39
    case Strchr => 0x3a
    case Strnchr => 0x3b
    case Indtab => 0x3c
    case Indtab8 => 0x3d
    case Chtree => 0x3e
    case Chtreeunchk => 0x3e
    case Jmp => 0x40
    case Jmprel => 0x41
    case Call => 0x42
    case Ret => 0x43
    case Bz => 0x50
    case B => 0x51
    case Bgzs => 0x52
    case Bgpc => 0x53
    case Bgpcrela => 0x54
    case Bo => 0x55
    case Bgoz => 0x56
    case Bemax => 0x57
    case Bet0 => 0x58
    case Bet1 => 0x59
    case Bet2 => 0x5a
    case Bet3 => 0x5b
    case Bet4 => 0x5c
    case Bet5 => 0x5d
    case Bet6 => 0x5e
    case Bet7 => 0x5f
  }

  /** The instruction at position `i` of the table. */
  function At(i: nat): Mnemonic
    requires i < TABLE_COUNT
  {
    match i
    case 0 => Add
    case 1 => Sub
    case 2 => Mul
    case 3 => Div
    case 4 => Rem
    case 5 => Imul
    case 6 => And
    case 7 => Xor
    case 8 => Or
    case 9 => Shl
    case 10 => Shr
    case 11 => Pcnt
    case 12 => Clz
    case 13 => Clo
    case 14 => Bswap
    case 15 => Ipcnt
    case 16 => Stb
    case 17 => Stw
    case 18 => Stl
    case 19 => Stq
    case 20 => Ldb
    case 21 => Ldw
    case 22 => Ldl
    case 23 => Ldq
    case 24 => Lea
    case 25 => Cmp
    case 26 => Cmpkp
    case 27 => Memcpy
    case 28 => Memmov
    case 29 => Memset
    case 30 => Memchr
    case 31 => Memchrf
    case 32 => Strcpy
    case 33 => Strcat
    case 34 => Strpbrk
    case 35 => Strncpy
    case 36 => Strncat
    case 37 => Strchr
    case 38 => Strnchr
    case 39 => Indtab
    case 40 => Indtab8
    case 41 => Chtree
    case 42 => Chtreeunchk
    case 43 => Jmp
    case 44 => Jmprel
    case 45 => Call
    case 46 => Ret
    case 47 => Bz
    case 48 => B
    case 49 => Bgzs
    case 50 => Bgpc
    case 51 => Bgpcrela
    case 52 => Bo
    case 53 => Bgoz
    case 54 => Bemax
    case 55 => Bet0
    case 56 => Bet1
    case 57 => Bet2
    case 58 => Bet3
    case 59 => Bet4
    case 60 => Bet5
    case 61 => Bet6
    case _ => Bet7
  }

  ghost function IndexOf(m: Mnemonic): (i: nat)
    ensures i < TABLE_COUNT && At(i) == m
  {
    match m
    case Add => 0
    case Sub => 1
    case Mul => 2
    case Div => 3
    case Rem => 4
    case Imul => 5
    case And => 6
    case Xor => 7
    case Or => 8
    case Shl => 9
    case Shr => 10
    case Pcnt => 11
    case Clz => 12
    case Clo => 13
    case Bswap => 14
    case Ipcnt => 15
    case Stb => 16
    case Stw => 17
    case Stl => 18
    case Stq => 19
    case Ldb => 20
    case Ldw => 21
    case Ldl => 22
    case Ldq => 23
    case Lea => 24
    case Cmp => 25
    case Cmpkp => 26
    case Memcpy => 27
    case Memmov => 28
    case Memset => 29
    case Memchr => 30
    case Memchrf => 31
    case Strcpy => 32
    case Strcat => 33
    case Strpbrk => 34
    case Strncpy => 35
    case Strncat => 36
    case Strchr => 37
    case Strnchr => 38
    case Indtab => 39
    case Indtab8 => 40
    case Chtree => 41
    case Chtreeunchk => 42
    case Jmp => 43
    case Jmprel => 44
    case Call => 45
    case Ret => 46
    case Bz => 47
    case B => 48
    case Bgzs => 49
    case Bgpc => 50
    case Bgpcrela => 51
    case Bo => 52
    case Bgoz => 53
    case Bemax => 54
    case Bet0 => 55
    case Bet1 => 56
    case Bet2 => 57
    case Bet3 => 58
    case Bet4 => 59
    case Bet5 => 60
    case Bet6 => 61
    case Bet7 => 62
  }

  // ---------- search by opcode ----------

  /** The test of the simulator's dispatcher: only the immediate format ignores the top bit. */
  predicate MatchInst(m: Mnemonic, opcode: byte) {
    if FormatOf(m).ImmOrReg? then opcode % 128 == OpcodeOf(m) else opcode == OpcodeOf(m)
  }

  /** The first table row, from `i` on, that matches. */
  function Dispatch(opcode: byte, i: nat := 0): (m: Option<Mnemonic>)
    requires i <= TABLE_COUNT
    ensures m.Some? ==> MatchInst(m.value, opcode)
    decreases TABLE_COUNT - i
  {
    if i == TABLE_COUNT then None
    else if MatchInst(At(i), opcode) then Some(At(i))
    else Dispatch(opcode, i + 1)
  }

  /** The disassembler's search: the first row, from `i` on, with the low seven bits. */
  function FindOpcode(opcode: byte, i: nat := 0): (m: Option<Mnemonic>)
    requires i <= TABLE_COUNT
    ensures m.Some? ==> OpcodeOf(m.value) == opcode % 128
    decreases TABLE_COUNT - i
  {
    if i == TABLE_COUNT then None
    else if OpcodeOf(At(i)) == opcode % 128 then Some(At(i))
    else FindOpcode(opcode, i + 1)
  }

  /** Opcodes by table position: they never decrease, and only `chtree` and `chtreeunchk` share one. */
  ghost function OpcodeAt(i: nat): nat {
    if i < 25 then i
    else if i < 27 then 0x20 + (i - 25)
    else if i < 42 then 0x30 + (i - 27)
    else if i == 42 then 0x3e
    else if i < 47 then 0x40 + (i - 43)
    else 0x50 + (i - 47)
  }

  lemma {:induction false} OpcodesOfRows(i: nat)
    requires i < TABLE_COUNT
    ensures OpcodeOf(At(i)) == OpcodeAt(i)
  {
  }

  lemma {:induction false} FormatsOfRows(i: nat)
    requires i < TABLE_COUNT
    ensures FormatOf(At(i)).ImmOrReg? <==> i < 27
  {
  }

  lemma {:induction false} OpcodesInOrder(i: nat)
    requires i < TABLE_COUNT
    ensures OpcodeOf(At(i)) == OpcodeAt(i) && (FormatOf(At(i)).ImmOrReg? <==> i < 27)
  {
    hide OpcodeOf, At, OpcodeAt, FormatOf;
    OpcodesOfRows(i);
    FormatsOfRows(i);
  }

  /** The rows are in the order of their opcodes, and only `chtree` and `chtreeunchk` share one. */
  lemma {:induction false} RowsOrdered(i: nat, j: nat)
    requires i < j < TABLE_COUNT
    ensures OpcodeOf(At(i)) <= OpcodeOf(At(j))
    ensures OpcodeOf(At(i)) == OpcodeOf(At(j)) <==> At(i) == Chtree && At(j) == Chtreeunchk
  {
    hide OpcodeOf, At, FormatOf, IndexOf;
    OpcodesInOrder(i);
    OpcodesInOrder(j);
    SharedOpcode();
    IndexOfAt(i);
    IndexOfAt(j);
  }

  /** The opcode byte the assembler stores for `m`, with or without an immediate. */
  predicate OpcodeFor(m: Mnemonic, opcode: byte) {
    opcode == OpcodeOf(m) || (FormatOf(m).ImmOrReg? && opcode == OpcodeOf(m) + 128)
  }

  /** Dispatch recovers every instruction from its opcode byte, but for `chtreeunchk`, which is
      taken for `chtree`. */
  lemma {:induction false} DispatchRecovers(m: Mnemonic, opcode: byte)
    requires OpcodeFor(m, opcode)
    ensures Dispatch(opcode) == Some(if m == Chtreeunchk then Chtree else m)
  {
    DispatchFrom(if m == Chtreeunchk then Chtree else m, opcode, 0);
  }

  lemma {:induction false} DispatchFrom(m: Mnemonic, opcode: byte, i: nat)
    requires OpcodeFor(m, opcode) && m != Chtreeunchk && i <= IndexOf(m)
    ensures Dispatch(opcode, i) == Some(m)
    decreases IndexOf(m) - i
  {
    hide NameOf, OpcodeOf, FormatOf, At, IndexOf;
    var k := IndexOf(m);
    OpcodesInOrder(i);
    OpcodesInOrder(k);
    if i < k {
      NotChtreeunchk(m);
      assert !MatchInst(At(i), opcode);
      DispatchFrom(m, opcode, i + 1);
    }
  }

  lemma {:induction false} NotChtreeunchk(m: Mnemonic)
    requires m != Chtreeunchk
    ensures IndexOf(m) != 42
  {
  }

  lemma {:induction false} FindOpcodeRecovers(m: Mnemonic, opcode: byte)
    requires opcode % 128 == OpcodeOf(m)
    ensures FindOpcode(opcode) == Some(if m == Chtreeunchk then Chtree else m)
  {
    FindOpcodeFrom(if m == Chtreeunchk then Chtree else m, opcode, 0);
  }

  lemma {:induction false} FindOpcodeFrom(m: Mnemonic, opcode: byte, i: nat)
    requires opcode % 128 == OpcodeOf(m) && m != Chtreeunchk && i <= IndexOf(m)
    ensures FindOpcode(opcode, i) == Some(m)
    decreases IndexOf(m) - i
  {
    hide NameOf, OpcodeOf, FormatOf, At, IndexOf;
    OpcodesInOrder(i);
    OpcodesInOrder(IndexOf(m));
    if i < IndexOf(m) {
      NotChtreeunchk(m);
      FindOpcodeFrom(m, opcode, i + 1);
    }
  }

  // ---------- search by name ----------

  lemma {:induction false} NameLength1(m: Mnemonic)
    requires 0 <= IndexOf(m) < 21
    ensures 1 <= |NameOf(m)| && (m != Chtreeunchk ==> |NameOf(m)| <= 8)
    ensures |NameOf(m)| == 8 <==> m == Bgpcrela
  {
  }

  lemma {:induction false} NameLength2(m: Mnemonic)
    requires 21 <= IndexOf(m) < 42
    ensures 1 <= |NameOf(m)| && (m != Chtreeunchk ==> |NameOf(m)| <= 8)
    ensures |NameOf(m)| == 8 <==> m == Bgpcrela
  {
  }

  lemma {:induction false} NameLength3(m: Mnemonic)
    requires 42 <= IndexOf(m) < 63
    ensures 1 <= |NameOf(m)| && (m != Chtreeunchk ==> |NameOf(m)| <= 8)
    ensures |NameOf(m)| == 8 <==> m == Bgpcrela
  {
  }

  /** Only one name takes the full eight columns of a listing, and only `chtreeunchk`, which no
      listing shows, is longer. */
  lemma {:induction false} NameLength(m: Mnemonic)
    ensures 1 <= |NameOf(m)| && (m != Chtreeunchk ==> |NameOf(m)| <= 8)
    ensures |NameOf(m)| == 8 <==> m == Bgpcrela
  {
    hide NameOf, IndexOf, At;
    if IndexOf(m) < 21 {
      NameLength1(m);
    } else if IndexOf(m) < 42 {
      NameLength2(m);
    } else {
      NameLength3(m);
    }
  }

  lemma {:induction false} NameLetters1(m: Mnemonic)
    requires 0 <= IndexOf(m) < 21
    ensures forall i :: 0 <= i < |NameOf(m)| ==> IsNameLetter(NameOf(m)[i])
  {
  }

  lemma {:induction false} NameLetters2(m: Mnemonic)
    requires 21 <= IndexOf(m) < 42
    ensures forall i :: 0 <= i < |NameOf(m)| ==> IsNameLetter(NameOf(m)[i])
  {
  }

  lemma {:induction false} NameLetters3(m: Mnemonic)
    requires 42 <= IndexOf(m) < 63
    ensures forall i :: 0 <= i < |NameOf(m)| ==> IsNameLetter(NameOf(m)[i])
  {
  }

  /** Names are letters and digits. */
  lemma {:induction false} NameLetters(m: Mnemonic)
    ensures forall i :: 0 <= i < |NameOf(m)| ==> IsNameLetter(NameOf(m)[i])
  {
    hide NameOf, IndexOf, At;
    if IndexOf(m) < 21 {
      NameLetters1(m);
    } else if IndexOf(m) < 42 {
      NameLetters2(m);
    } else {
      NameLetters3(m);
    }
  }

  predicate StartsF(name: string) {
    name != "" && name[0] == 'f'
  }

  lemma {:induction false} NoneStartsF1(m: Mnemonic)
    requires 0 <= IndexOf(m) < 21
    ensures !StartsF(NameOf(m))
  {
  }

  lemma {:induction false} NoneStartsF2(m: Mnemonic)
    requires 21 <= IndexOf(m) < 42
    ensures !StartsF(NameOf(m))
  {
  }

  lemma {:induction false} NoneStartsF3(m: Mnemonic)
    requires 42 <= IndexOf(m) < 63
    ensures !StartsF(NameOf(m))
  {
  }

  /** No integer row's name starts with an f. */
  lemma {:induction false} NoneStartsF(m: Mnemonic)
    ensures !StartsF(NameOf(m))
  {
    hide NameOf, IndexOf, At, StartsF;
    if IndexOf(m) < 21 {
      NoneStartsF1(m);
    } else if IndexOf(m) < 42 {
      NoneStartsF2(m);
    } else {
      NoneStartsF3(m);
    }
  }

  predicate IsNameLetter(c: char) {
    'a' <= c <= 'z' || '0' <= c <= '9'
  }

  /** The first row, from `i` on, with that name. */
  function FindName(name: string, i: nat := 0): (m: Option<Mnemonic>)
    requires i <= TABLE_COUNT
    ensures m.Some? ==> NameOf(m.value) == name
    decreases TABLE_COUNT - i
  {
    if i == TABLE_COUNT then None
    else if NameOf(At(i)) == name then Some(At(i))
    else FindName(name, i + 1)
  }

  /** The table in names and numbers. */
  ghost function OpcodeNamed(s: string): Option<nat> {
    match s
    case "add" => Some(0x00)
    case "sub" => Some(0x01)
    case "mul" => Some(0x02)
    case "div" => Some(0x03)
    case "rem" => Some(0x04)
    case "imul" => Some(0x05)
    case "and" => Some(0x06)
    case "xor" => Some(0x07)
    case "or" => Some(0x08)
    case "shl" => Some(0x09)
    case "shr" => Some(0x0a)
    case "pcnt" => Some(0x0b)
    case "clz" => Some(0x0c)
    case "clo" => Some(0x0d)
    case "bswap" => Some(0x0e)
    case "ipcnt" => Some(0x0f)
    case "stb" => Some(0x10)
    case "stw" => Some(0x11)
    case "stl" => Some(0x12)
    case "stq" => Some(0x13)
    case "ldb" => Some(0x14)
    case "ldw" => Some(0x15)
    case "ldl" => Some(0x16)
    case "ldq" => Some(0x17)
    case "lea" => Some(0x18)
    case "cmp" => Some(0x20)
    case "cmpkp" => Some(0x21)
    case "memcpy" => Some(0x30)
    case "memmov" => Some(0x31)
    case "memset" => Some(0x32)
    case "memchr" => Some(0x33)
    case "memchrf" => Some(0x34)
    case "strcpy" => Some(0x35)
    case "strcat" => Some(0x36)
    case "strpbrk" => Some(0x37)
    case "strncpy" => Some(0x38)
    case "strncat" => Some(0x39)
    case "strchr" => Some(0x3a)
    case "strnchr" => Some(0x3b)
    case "indtab" => Some(0x3c)
    case "indtab8" => Some(0x3d)
    case "chtree" => Some(0x3e)
    case "chtreeunchk" => Some(0x3e)
    case "jmp" => Some(0x40)
    case "jmprel" => Some(0x41)
    case "call" => Some(0x42)
    case "ret" => Some(0x43)
    case "bz" => Some(0x50)
    case "b" => Some(0x51)
    case "bgzs" => Some(0x52)
    case "bgpc" => Some(0x53)
    case "bgpcrela" => Some(0x54)
    case "bo" => Some(0x55)
    case "bgoz" => Some(0x56)
    case "bemax" => Some(0x57)
    case "bet0" => Some(0x58)
    case "bet1" => Some(0x59)
    case "bet2" => Some(0x5a)
    case "bet3" => Some(0x5b)
    case "bet4" => Some(0x5c)
    case "bet5" => Some(0x5d)
    case "bet6" => Some(0x5e)
    case "bet7" => Some(0x5f)
    case _ => None
  }

  lemma {:induction false} NameHasOpcode1(m: Mnemonic)
    requires 0 <= IndexOf(m) < 21
    ensures OpcodeNamed(NameOf(m)) == Some(OpcodeOf(m))
  {
  }

  lemma {:induction false} NameHasOpcode2(m: Mnemonic)
    requires 21 <= IndexOf(m) < 32
    ensures OpcodeNamed(NameOf(m)) == Some(OpcodeOf(m))
  {
  }

  lemma {:induction false} NameHasOpcode3(m: Mnemonic)
    requires 32 <= IndexOf(m) < 42
    ensures OpcodeNamed(NameOf(m)) == Some(OpcodeOf(m))
  {
  }

  lemma {:induction false} NameHasOpcode4(m: Mnemonic)
    requires 42 <= IndexOf(m) < 47
    ensures OpcodeNamed(NameOf(m)) == Some(OpcodeOf(m))
  {
  }

  lemma {:induction false} NameHasOpcode5(m: Mnemonic)
    requires 47 <= IndexOf(m) < 52
    ensures OpcodeNamed(NameOf(m)) == Some(OpcodeOf(m))
  {
  }

  lemma {:induction false} NameHasOpcode6(m: Mnemonic)
    requires 52 <= IndexOf(m) < 58
    ensures OpcodeNamed(NameOf(m)) == Some(OpcodeOf(m))
  {
  }

  lemma {:induction false} NameHasOpcode7(m: Mnemonic)
    requires 58 <= IndexOf(m) < 63
    ensures OpcodeNamed(NameOf(m)) == Some(OpcodeOf(m))
  {
  }

  /** Every row's name and opcode, as listed. */
  lemma {:induction false} NameHasOpcode(m: Mnemonic)
    ensures OpcodeNamed(NameOf(m)) == Some(OpcodeOf(m))
  {
    hide NameOf, OpcodeNamed, OpcodeOf, IndexOf, At;
    if IndexOf(m) < 21 {
      NameHasOpcode1(m);
    } else if IndexOf(m) < 32 {
      NameHasOpcode2(m);
    } else if IndexOf(m) < 42 {
      NameHasOpcode3(m);
    } else if IndexOf(m) < 47 {
      NameHasOpcode4(m);
    } else if IndexOf(m) < 52 {
      NameHasOpcode5(m);
    } else if IndexOf(m) < 58 {
      NameHasOpcode6(m);
    } else {
      NameHasOpcode7(m);
    }
  }

  /** No two rows have the same name. */
  lemma {:induction false} NamesDistinct(m: Mnemonic, n: Mnemonic)
    requires NameOf(m) == NameOf(n)
    ensures m == n
  {
    hide NameOf, OpcodeNamed, OpcodeOf, IndexOf, At, FormatOf;
    NameHasOpcode(m);
    NameHasOpcode(n);
    OpcodesInOrder(IndexOf(m));
    OpcodesInOrder(IndexOf(n));
    SharedOpcode();
    WalkNames();
  }

  lemma {:induction false} WalkNames()
    ensures NameOf(Chtree) != NameOf(Chtreeunchk)
  {
  }

  /** The assembler finds every instruction by its name. */
  lemma {:induction false} FindNameRecovers(m: Mnemonic)
    ensures FindName(NameOf(m)) == Some(m)
  {
    FindNameFrom(m, 0);
  }

  lemma {:induction false} FindNameFrom(m: Mnemonic, i: nat)
    requires i <= IndexOf(m)
    ensures FindName(NameOf(m), i) == Some(m)
    decreases IndexOf(m) - i
  {
    hide NameOf, OpcodeOf, FormatOf, At, IndexOf;
    if i < IndexOf(m) {
      if NameOf(At(i)) == NameOf(m) {
        NamesDistinct(At(i), m);
        AtInjective(i, IndexOf(m));
      }
      FindNameFrom(m, i + 1);
    }
  }

  lemma {:induction false} AtInjective(i: nat, j: nat)
    requires i < TABLE_COUNT && j < TABLE_COUNT && At(i) == At(j)
    ensures i == j
  {
    IndexOfAt(i);
    IndexOfAt(j);
  }

  lemma {:induction false} IndexOfAt(i: nat)
    requires i < TABLE_COUNT
    ensures IndexOf(At(i)) == i
  {
    hide IndexOf, At, OpcodeOf, FormatOf;
    var k := IndexOf(At(i));
    OpcodesInOrder(i);
    OpcodesInOrder(k);
    SharedOpcode();
  }

  lemma {:induction false} SharedOpcode()
    ensures At(41) == Chtree && At(42) == Chtreeunchk
    ensures IndexOf(Chtree) == 41 && IndexOf(Chtreeunchk) == 42
  {
  }
}

/** The disassembler's text.

    The lines it prints, exactly which words the assembler reads back from them, and the read
    loop over any stream. */
module Disasm {
  import opened Options
  import opened Words
  import opened Isa
  import opened AsmText
  import opened Assembler
  import opened Printing
  import Floats

  // ---------- printing ----------

  /** The four condition positions, a space where the bit is clear. */
  function CondText(cc: nat): string {
    ['?', if cc % 2 == 1 then '!' else ' ', if cc / 2 % 2 == 1 then 'n' else ' ',
     if cc / 4 % 2 == 1 then 'z' else ' ', if cc / 8 % 2 == 1 then 'c' else ' ']
  }

  /** The operand texts of a word, printed with commas between. */
  function Pieces(f: Format, b1: byte, b2: byte, b3: byte): seq<string> {
    match f
    case ImmOrReg =>
      if b3 >= 128 then [RegText(b1 % 16), RegText(b1 / 16), Dec(Signed8(b2))]
      else [RegText(b1 % 16), RegText(b1 / 16), RegText(b2 % 16), Dec(b2 / 16)]
    case FourRegs => [RegText(b1 % 16), RegText(b1 / 16), RegText(b2 % 16), RegText(b2 / 16)]
    case Branch => [RegText(b1 % 16), Dec(Signed8(b2)), CondText(b1 / 16)]
    case NoOperand => []
    case _ => ["<invalid>"]
  }

  /** A name padded to eight columns. */
  function Pad(name: string): string {
    name + (if |name| < 8 then Spaces(8 - |name|) else "")
  }

  /** The line printed for an integer word; an unknown opcode prints nothing here. */
  function DisLine(b1: byte, b2: byte, b3: byte): string {
    var m := FindOpcode(b3);
    if m.None? then "" else "\t" + Pad(NameOf(m.value)) + Join(Pieces(FormatOf(m.value), b1, b2, b3)) + "\n"
  }

  /** The words that survive a round trip through text. */
  predicate RoundTrips(m: Mnemonic, b1: byte, b2: byte, b3: byte) {
    match FormatOf(m)
    case ImmOrReg => true
    case FourRegs => b3 < 128
    case NoOperand => b3 < 128 && b1 == 0 && b2 == 0
    case Branch => b3 < 128 && m != Bgpcrela && b1 / 16 in {0, 1, 3, 7, 15}
    case _ => false
  }

  /** A printed condition is read back exactly when its bits form a prefix of the letters. */
  lemma {:induction false} OperandOfCond(cc: nat)
    requires cc < 16
    ensures ParseOperand(CondText(cc)).CondOp?
    ensures ParseOperand(CondText(cc)) == CondOp(cc) <==> cc in {0, 1, 3, 7, 15}
  {
    var s0 := CondText(cc)[1..];
    assert |s0| == 4;
    var c0, c1, c2, c3 := s0[0], s0[1], s0[2], s0[3];
    assert s0 == [c0, c1, c2, c3];
    assert s0[1..] == [c1, c2, c3];
    assert [c1, c2, c3][1..] == [c2, c3];
    assert [c2, c3][1..] == [c3];
    assert [c3][1..] == [];
  }

  // ---------- the line read back ----------

  /** Short, and made of digits, sign and dollar-prefixed registers only. */
  lemma {:induction false} PrintedPieces(n: int, stops: string)
    requires -128 <= n < 128 && forall c :: c in stops ==> !IsDigit(c) && c != '-' && c != '$' && c != 'r'
    ensures Free(Dec(n), stops) && 1 <= |Dec(n)| <= 4 && !IsSpace(Dec(n)[0])
    ensures n >= 0 ==> Free(RegText(n), stops) && |RegText(n)| <= 6 && RegText(n)[0] == '$'
  {
    var k := if n < 0 then -n else n;
    DecNatDigits(k);
    assert |DecNat(k / 10 / 10)| == 1;
    assert |DecNat(k / 10)| <= 2;
    assert |DecNat(k)| <= 3;
    forall i | 0 <= i < |Dec(n)|
      ensures Dec(n)[i] !in stops
    {
      assert IsDigit(Dec(n)[i]) || Dec(n)[i] == '-';
    }
  }

  /** A name shorter than its column is printed with a gap. */
  lemma {:induction false} ShownWithGap(m: Mnemonic, b1: byte, b2: byte, b3: byte)
    requires FindOpcode(b3) == Some(m) && |NameOf(m)| < 8
    ensures DisLine(b1, b2, b3) == PrintedLine(NameOf(m), 8 - |NameOf(m)|, Join(Pieces(FormatOf(m), b1, b2, b3)))
  {
    hide NameOf, FindOpcode, Pieces, Join, Spaces;
    var ops := Join(Pieces(FormatOf(m), b1, b2, b3));
    assert "\t" + (NameOf(m) + Spaces(8 - |NameOf(m)|)) + ops + "\n"
            == "\t" + NameOf(m) + Spaces(8 - |NameOf(m)|) + ops + "\n";
  }

  lemma {:induction false} ShownName(m: Mnemonic, b3: byte)
    requires FindOpcode(b3) == Some(m)
    ensures OpcodeOf(m) == b3 % 128 && m != Chtreeunchk && (m != Bgpcrela ==> |NameOf(m)| < 8)
  {
    hide NameOf, OpcodeOf;
    FindOpcodeRecovers(m, b3);
    NameLength(m);
    NameLetters(m);
  }

  lemma {:induction false} CondPiece(cc: nat)
    requires cc < 16
    ensures GoodPiece(CondText(cc)) && CondText(cc) != ""
  {
  }

  /** A word other than `bgpcrela` survives the round trip exactly when it should. */
  lemma {:induction false} ReadBack(m: Mnemonic, b1: byte, b2: byte, b3: byte)
    requires FindOpcode(b3) == Some(m) && m != Bgpcrela
    ensures BytesOf(DisLine(b1, b2, b3)) == Some([0, b1, b2, b3]) <==> RoundTrips(m, b1, b2, b3)
  {
    hide NameOf, OpcodeOf, FindOpcode, DisLine, BytesOf, RoundTrips, Encode;
    match FormatOf(m)
    case ImmOrReg =>
      if b3 >= 128 {
        ImmReadBack(m, b1, b2, b3);
      } else {
        RegReadBack(m, b1, b2, b3);
      }
    case FourRegs => FourRegsReadBack(m, b1, b2, b3);
    case Branch => BranchReadBack(m, b1, b2, b3);
    case _ => OtherReadBack(m, b1, b2, b3);
  }

  lemma {:induction false} ImmReadBack(m: Mnemonic, b1: byte, b2: byte, b3: byte)
    requires FindOpcode(b3) == Some(m) && m != Bgpcrela && FormatOf(m).ImmOrReg? && b3 >= 128
    ensures BytesOf(DisLine(b1, b2, b3)) == Some([0, b1, b2, b3]) <==> RoundTrips(m, b1, b2, b3)
  {
    hide NameOf, OpcodeOf, FindOpcode, Dec, RegText, CondText, BytesOf, DisLine, PrintedLine, Join, ParseOperand,
         ParseLine, GoodPiece, Nibbles, Low;
    ShownName(m, b3);
    ShownWithGap(m, b1, b2, b3);
    PrintedRegs(b1);
    PrintedImm(b2);
    OperandOfReg(b1 % 16);
    OperandOfReg(b1 / 16);
    OperandOfDec(Signed8(b2));
    BytesOfPieces(m, 8 - |NameOf(m)|, [RegText(b1 % 16), RegText(b1 / 16), Dec(Signed8(b2))],
                  [RegOp(b1 % 16), RegOp(b1 / 16), ImmOp(Signed8(b2)), Absent]);
  }

  lemma {:induction false} RegReadBack(m: Mnemonic, b1: byte, b2: byte, b3: byte)
    requires FindOpcode(b3) == Some(m) && m != Bgpcrela && FormatOf(m).ImmOrReg? && b3 < 128
    ensures BytesOf(DisLine(b1, b2, b3)) == Some([0, b1, b2, b3]) <==> RoundTrips(m, b1, b2, b3)
  {
    hide NameOf, OpcodeOf, FindOpcode, Dec, RegText, CondText, BytesOf, DisLine, PrintedLine, Join, ParseOperand,
         ParseLine, GoodPiece, Nibbles, Low;
    ShownName(m, b3);
    ShownWithGap(m, b1, b2, b3);
    PrintedRegs(b1);
    PrintedRegs(b2);
    OperandOfReg(b1 % 16);
    OperandOfReg(b1 / 16);
    OperandOfReg(b2 % 16);
    OperandOfDec(b2 / 16);
    BytesOfPieces(m, 8 - |NameOf(m)|, [RegText(b1 % 16), RegText(b1 / 16), RegText(b2 % 16), Dec(b2 / 16)],
                  [RegOp(b1 % 16), RegOp(b1 / 16), RegOp(b2 % 16), ImmOp(b2 / 16)]);
  }

  lemma {:induction false} FourRegsReadBack(m: Mnemonic, b1: byte, b2: byte, b3: byte)
    requires FindOpcode(b3) == Some(m) && m != Bgpcrela && FormatOf(m).FourRegs?
    ensures BytesOf(DisLine(b1, b2, b3)) == Some([0, b1, b2, b3]) <==> RoundTrips(m, b1, b2, b3)
  {
    hide NameOf, OpcodeOf, FindOpcode, Dec, RegText, CondText, BytesOf, DisLine, PrintedLine, Join, ParseOperand,
         ParseLine, GoodPiece, Nibbles, Low;
    ShownName(m, b3);
    ShownWithGap(m, b1, b2, b3);
    PrintedRegs(b1);
    PrintedRegs(b2);
    OperandOfReg(b1 % 16);
    OperandOfReg(b1 / 16);
    OperandOfReg(b2 % 16);
    OperandOfReg(b2 / 16);
    BytesOfPieces(m, 8 - |NameOf(m)|, [RegText(b1 % 16), RegText(b1 / 16), RegText(b2 % 16), RegText(b2 / 16)],
                  [RegOp(b1 % 16), RegOp(b1 / 16), RegOp(b2 % 16), RegOp(b2 / 16)]);
  }

  lemma {:induction false} BranchReadBack(m: Mnemonic, b1: byte, b2: byte, b3: byte)
    requires FindOpcode(b3) == Some(m) && m != Bgpcrela && FormatOf(m).Branch?
    ensures BytesOf(DisLine(b1, b2, b3)) == Some([0, b1, b2, b3]) <==> RoundTrips(m, b1, b2, b3)
  {
    hide NameOf, OpcodeOf, FindOpcode, Dec, RegText, CondText, BytesOf, DisLine, PrintedLine, Join, ParseOperand,
         ParseLine, GoodPiece, Nibbles, Low;
    ShownName(m, b3);
    ShownWithGap(m, b1, b2, b3);
    PrintedRegs(b1);
    PrintedImm(b2);
    CondPiece(b1 / 16);
    OperandOfReg(b1 % 16);
    OperandOfDec(Signed8(b2));
    OperandOfCond(b1 / 16);
    CondBits(CondText(b1 / 16));
    CondNibble(b1, ParseOperand(CondText(b1 / 16)));
    BytesOfPieces(m, 8 - |NameOf(m)|, [RegText(b1 % 16), Dec(Signed8(b2)), CondText(b1 / 16)],
                  [RegOp(b1 % 16), ImmOp(Signed8(b2)), ParseOperand(CondText(b1 / 16)), Absent]);
  }

  lemma {:induction false} OtherReadBack(m: Mnemonic, b1: byte, b2: byte, b3: byte)
    requires FindOpcode(b3) == Some(m) && m != Bgpcrela
    requires FormatOf(m).NoOperand? || FormatOf(m).Abs16? || FormatOf(m).Rel16?
    ensures BytesOf(DisLine(b1, b2, b3)) == Some([0, b1, b2, b3]) <==> RoundTrips(m, b1, b2, b3)
  {
    hide NameOf, OpcodeOf, FindOpcode, Dec, RegText, CondText, BytesOf, DisLine, PrintedLine, ParseOperand, ParseLine;
    ShownName(m, b3);
    ShownWithGap(m, b1, b2, b3);
    if FormatOf(m).NoOperand? {
      EmptyPiece();
      BytesOfPieces(m, 8 - |NameOf(m)|, [""], [LabelOp(""), Absent, Absent, Absent]);
    } else {
      InvalidPiece();
      BytesOfPieces(m, 8 - |NameOf(m)|, ["<invalid>"], [LabelOp("<invalid>"), Absent, Absent, Absent]);
    }
  }

  lemma {:induction false} PrintedImm(b: byte)
    ensures GoodPiece(Dec(Signed8(b))) && Dec(Signed8(b)) != "" && Low(ImmOp(Signed8(b))) == b
  {
    PrintedPieces(Signed8(b), "#\r\n:");
    PrintedPieces(Signed8(b), ",");
  }

  lemma {:induction false} PrintedRegs(b: byte)
    ensures GoodPiece(RegText(b % 16)) && RegText(b % 16) != "" && GoodPiece(RegText(b / 16)) && RegText(b / 16) != ""
    ensures GoodPiece(Dec(b % 16)) && Dec(b % 16) != "" && GoodPiece(Dec(b / 16)) && Dec(b / 16) != ""
    ensures Nibbles(RegOp(b % 16), RegOp(b / 16)) == b && Nibbles(RegOp(b % 16), ImmOp(b / 16)) == b
  {
    hide GoodPiece, Dec, RegText;
    PrintedReg(b % 16);
    PrintedReg(b / 16);
  }

  lemma {:induction false} PrintedReg(n: nat)
    requires n < 16
    ensures GoodPiece(RegText(n)) && RegText(n) != "" && GoodPiece(Dec(n)) && Dec(n) != ""
  {
    PrintedPieces(n, "#\r\n:");
    PrintedPieces(n, ",");
  }

  lemma {:induction false} CondNibble(b: byte, cond: Operand)
    requires cond.CondOp? && cond.bits < 16
    ensures Nibbles(RegOp(b % 16), cond) == b <==> cond == CondOp(b / 16)
  {
  }

  lemma {:induction false} CondBits(s: string)
    requires ParseOperand(s).CondOp?
    ensures ParseOperand(s).bits < 16
  {
  }

  lemma {:induction false} EmptyPiece()
    ensures ParseOperand("") == LabelOp("") && Join([]) == "" == Join([""])
  {
  }

  lemma {:induction false} InvalidPiece()
    ensures ParseOperand("<invalid>") == LabelOp("<invalid>") && GoodPiece("<invalid>")
  {
    InvalidOperand();
    hide ParseOperand;
  }

  lemma {:induction false} InvalidOperand()
    ensures ParseOperand("<invalid>") == LabelOp("<invalid>")
  {
    hide Atoll, ParseCond;
  }

  // ---------- the name that fills its column ----------

  /** The longest prefix free of stops is at least as long as one known to be free of them. */
  lemma {:induction false} UntilAtLeast(s: string, t: string, stops: string)
    requires Free(s, stops)
    ensures |Until(s + t, stops)| >= |s| && Until(s + t, stops)[..|s|] == s
  {
    if s != [] {
      assert (s + t)[0] == s[0] && (s + t)[1..] == s[1..] + t;
      UntilAtLeast(s[1..], t, stops);
    }
  }

  /** No row has a dollar sign in its name. */
  lemma {:induction false} NoSuchName(name: string)
    requires '$' in name
    ensures FindName(name).None? && Floats.FindRow(name).None?
  {
    hide NameOf, Floats.FindRow;
    if FindName(name).Some? {
      NameLetters(FindName(name).value);
    }
    Floats.NoRowNamed(name, '$');
  }

  lemma {:induction false} AllPiecesGood(f: Format, b1: byte, b2: byte, b3: byte)
    ensures Pieces(f, b1, b2, b3) == [] || GoodPieces(Pieces(f, b1, b2, b3))
    ensures f.Branch? ==> Pieces(f, b1, b2, b3) != [] && Pieces(f, b1, b2, b3)[0] == RegText(b1 % 16)
  {
    hide GoodPiece, RegText, Dec, CondText, Nibbles, Low, ParseOperand;
    PrintedRegs(b1);
    PrintedRegs(b2);
    PrintedImm(b2);
    CondPiece(b1 / 16);
    InvalidPiece();
  }

  /** A printed line is a text without newline, and a newline. */
  lemma {:induction false} LineBody(m: Mnemonic, b1: byte, b2: byte, b3: byte) returns (body: string)
    requires FindOpcode(b3) == Some(m)
    ensures body == "\t" + (Pad(NameOf(m)) + Join(Pieces(FormatOf(m), b1, b2, b3)))
    ensures DisLine(b1, b2, b3) == body + "\n" && Free(body, "#\r\n:")
  {
    hide NameOf, FindOpcode, FormatOf, Pieces, Pad, Join;
    var pieces := Pieces(FormatOf(m), b1, b2, b3);
    AllPiecesGood(FormatOf(m), b1, b2, b3);
    NameLetters(m);
    PaddedFree(NameOf(m));
    PiecesFree(pieces);
    FreeConcat(Pad(NameOf(m)), Join(pieces), "#\r\n:");
    var p := Pad(NameOf(m)) + Join(pieces);
    body := "\t" + p;
    FreeConcat("\t", p, "#\r\n:");
    assert body + "\n" == "\t" + Pad(NameOf(m)) + Join(pieces) + "\n";
  }

  lemma {:induction false} PaddedFree(name: string)
    requires forall i :: 0 <= i < |name| ==> IsNameLetter(name[i])
    ensures Free(Pad(name), "#\r\n:")
  {
    NameFreeOf(name);
    if |name| < 8 {
      SpacesFree(8 - |name|, "#\r\n:");
      FreeConcat(name, Spaces(8 - |name|), "#\r\n:");
    }
    assert name + "" == name;
  }

  lemma {:induction false} PiecesFree(pieces: seq<string>)
    requires pieces == [] || GoodPieces(pieces)
    ensures Free(Join(pieces), "#\r\n:")
  {
    if pieces != [] {
      assert forall i :: 0 <= i < |pieces| ==> GoodPiece(pieces[i]);
      JoinFree(pieces, "#\r\n:");
    }
  }

  /** `bgpcrela` leaves no separator: its line assembles to nothing. */
  lemma {:induction false} FullColumnLost(b1: byte, b2: byte, b3: byte)
    requires FindOpcode(b3) == Some(Bgpcrela)
    ensures BytesOf(DisLine(b1, b2, b3)) == Some([])
  {
    hide FindOpcode, NameOf, Pieces, Join, Pad, FormatOf, RegText, Dec, CondText, BytesOf;
    var name, pieces := NameOf(Bgpcrela), Pieces(Branch, b1, b2, b3);
    assert FormatOf(Bgpcrela) == Branch by {
      BranchFormat();
    }
    NameLength(Bgpcrela);
    NameLetters(Bgpcrela);
    PadFull(name);
    var ops, cond := BranchOperands(b1, b2, b3);
    LineWithoutGap(name, ops, cond);
    assert DisLine(b1, b2, b3) == "\t" + name + (ops + cond) + "\n";
  }

  /** The operands of a branch: register and displacement, without spaces, then the condition. */
  lemma {:induction false} BranchOperands(b1: byte, b2: byte, b3: byte) returns (ops: string, cond: string)
    ensures Join(Pieces(Branch, b1, b2, b3)) == ops + cond
    ensures Free(ops, "#\r\n:") && Free(ops, " \t") && ops != "" && ops[0] == '$'
    ensures Free(cond, "#\r\n:") && Free(cond, ",") && |cond| == 5
  {
    hide RegText, Dec;
    var r, d := RegText(b1 % 16), Dec(Signed8(b2));
    cond := CondText(b1 / 16);
    PrintedPieces(b1 % 16, "#\r\n:");
    PrintedPieces(b1 % 16, " \t");
    PrintedPieces(Signed8(b2), "#\r\n:");
    PrintedPieces(Signed8(b2), " \t");
    ops := r + "," + d + ",";
    RegTextStarts(b1 % 16);
    JoinThree(r, d, cond);
    assert ops[0] == r[0];
  }

  lemma {:induction false} JoinThree(a: string, b: string, c: string)
    ensures Join([a, b, c]) == a + "," + b + "," + c
  {
    assert [a, b, c][1..] == [b, c] && [b, c][1..] == [c];
    assert Join([b, c]) == b + "," + c;
    assert a + "," + (b + "," + c) == a + "," + b + "," + c;
  }

  lemma {:induction false} RegTextStarts(n: nat)
    ensures RegText(n) != "" && RegText(n)[0] == '$'
  {
  }

  lemma {:induction false} BranchFormat()
    ensures FormatOf(Bgpcrela) == Branch
  {
  }

  lemma {:induction false} PadFull(name: string)
    requires |name| == 8
    ensures Pad(name) == name
  {
  }

  /** Without a gap the operands run into the mnemonic, which is then no mnemonic; what may follow the
      first space is too short to matter. */
  lemma {:induction false} LineWithoutGap(name: string, ops: string, cond: string)
    requires |name| == 8 && (forall i :: 0 <= i < |name| ==> IsNameLetter(name[i]))
    requires Free(ops, "#\r\n:") && Free(ops, " \t") && ops != "" && ops[0] == '$'
    requires Free(cond, "#\r\n:") && Free(cond, ",") && |cond| < NAME_SIZE
    ensures BytesOf("\t" + name + (ops + cond) + "\n") == Some([])
  {
    hide *;
    var start, p := name + ops, name + (ops + cond);
    assert p == start + cond;
    NameColumn(name, ops, cond);
    UntilAtLeast(start, cond, " \t");
    var mem := Until(p, " \t");
    assert mem[8] == mem[..|start|][8] == start[8] == '$';
    NoSuchName(mem);
    if |mem| < |p| {
      var rest := p[|mem| + 1..];
      assert forall i :: 0 <= i < |rest| ==> rest[i] == cond[|mem| + 1 - |start| + i];
      FreeTail(rest, cond, |mem| + 1 - |start|);
      ShortOperand(rest);
    }
    UnknownLine(p);
    assert "\t" + name + (ops + cond) + "\n" == "\t" + p + "\n";
  }

  lemma {:induction false} FreeTail(rest: string, s: string, k: nat)
    requires Free(s, ",") && k + |rest| <= |s| && forall i :: 0 <= i < |rest| ==> rest[i] == s[k + i]
    ensures Free(rest, ",")
  {
  }

  lemma {:induction false} NameColumn(name: string, ops: string, cond: string)
    requires |name| == 8 && (forall i :: 0 <= i < |name| ==> IsNameLetter(name[i]))
    requires Free(ops, "#\r\n:") && Free(ops, " \t") && Free(cond, "#\r\n:")
    ensures Free(name + ops, " \t")
    ensures var p := name + (ops + cond); Free(p, "#\r\n:") && p != "" && !IsSpace(p[0])
  {
    NameFreeOf(name);
    FreeConcat(name, ops, "#\r\n:");
    FreeConcat(name + ops, cond, "#\r\n:");
    FreeConcat(name, ops, " \t");
    assert name + (ops + cond) == name + ops + cond;
  }

  /** A line that no row is named by adds nothing. */
  lemma {:induction false} UnknownLine(p: string)
    requires Free(p, "#\r\n:") && p != "" && !IsSpace(p[0])
    requires var mem := Until(p, " \t");
      && FindName(mem).None? && Floats.FindRow(mem).None? && |mem| <= |p|
      && (|mem| < |p| ==>
            var pieces := SplitCommas(SkipSpaces(p[|mem| + 1..]));
            |pieces| == 1 && (ParseOperand(pieces[0]).LabelOp? ==> |ParseOperand(pieces[0]).name| < NAME_SIZE))
    ensures BytesOf("\t" + p + "\n") == Some([])
  {
    hide FindName, Floats.FindRow, Encode, ParseOperand, SplitCommas, SkipSpaces, Until, EncodeFloat;
    BodyOfLine(p);
    assert ':' !in p;
    UntilWhole(p, " \t");
  }

  lemma {:induction false} UntilWhole(p: string, stops: string)
    ensures |Until(p, stops)| == |p| ==> Until(p, stops) == p
  {
  }

  /** A short text without commas is one operand, and short. */
  lemma {:induction false} ShortOperand(rest: string)
    requires Free(rest, ",") && |rest| < NAME_SIZE
    ensures var pieces := SplitCommas(SkipSpaces(rest));
      |pieces| == 1 && (ParseOperand(pieces[0]).LabelOp? ==> |ParseOperand(pieces[0]).name| < NAME_SIZE)
  {
    hide ParseOperand;
    SkipShortens(rest);
    var s := SkipSpaces(rest);
    UntilStop(s, "", ",");
    assert s + "" == s;
    LabelOperandsFit([s]);
    assert [s][0] == s;
  }

  lemma {:induction false} SkipShortens(s: string)
    requires Free(s, ",")
    ensures |SkipSpaces(s)| <= |s| && Free(SkipSpaces(s), ",")
  {
    if s != "" && IsSpace(s[0]) {
      SkipShortens(s[1..]);
    }
  }

  /** For every word with an integer opcode: printing and assembling it gives it back exactly
      when it is one that round-trips. */
  lemma {:induction false} WordReadBack(m: Mnemonic, b1: byte, b2: byte, b3: byte)
    requires FindOpcode(b3) == Some(m)
    ensures BytesOf(DisLine(b1, b2, b3)) == Some([0, b1, b2, b3]) <==> RoundTrips(m, b1, b2, b3)
  {
    hide NameOf, OpcodeOf, FindOpcode, DisLine, BytesOf;
    if m == Bgpcrela {
      FullColumnLost(b1, b2, b3);
      assert FormatOf(Bgpcrela) == Branch by {
        BranchFormat();
      }
    } else {
      ReadBack(m, b1, b2, b3);
    }
  }

  // ---------- whole listings ----------

  datatype Word = Word(b1: byte, b2: byte, b3: byte)

  function Listing(ws: seq<Word>): string {
    if ws == [] then "" else DisLine(ws[0].b1, ws[0].b2, ws[0].b3) + Listing(ws[1..])
  }

  /** The stream of integer words with control byte 0. */
  function Flat(ws: seq<Word>): (s: seq<byte>)
    ensures |s| == 4 * |ws|
  {
    if ws == [] then [] else [0, ws[0].b1, ws[0].b2, ws[0].b3] + Flat(ws[1..])
  }

  ghost predicate IntegerWords(ws: seq<Word>) {
    forall i :: 0 <= i < |ws| ==> FindOpcode(ws[i].b3).Some?
  }

  ghost predicate WordRoundTrips(w: Word) {
    FindOpcode(w.b3).Some? && RoundTrips(FindOpcode(w.b3).value, w.b1, w.b2, w.b3)
  }

  function LinesOfListing(ws: seq<Word>): seq<string> {
    if ws == [] then [] else [DisLine(ws[0].b1, ws[0].b2, ws[0].b3)] + LinesOfListing(ws[1..])
  }

  lemma {:induction false} ListingLines(ws: seq<Word>)
    requires IntegerWords(ws)
    ensures Listing(ws) == Concat(LinesOfListing(ws))
    ensures forall i :: 0 <= i < |LinesOfListing(ws)| ==> IsLine(LinesOfListing(ws)[i])
  {
    hide FindOpcode, DisLine;
    if ws != [] {
      var w := ws[0];
      var body := LineBody(FindOpcode(w.b3).value, w.b1, w.b2, w.b3);
      assert (body + "\n")[..|body|] == body;
      ListingLines(ws[1..]);
    }
  }

  lemma {:induction false} AtMostAWord(line: string)
    ensures BytesOf(line).Some? ==> |BytesOf(line).value| <= 4
  {
    hide FindName, ParseLine;
  }

  /** Line by line the listing gives the stream back exactly when every word does. */
  lemma {:induction false} ListingBytes(ws: seq<Word>)
    requires IntegerWords(ws)
    ensures BytesOfLines(LinesOfListing(ws)).Some? ==> |BytesOfLines(LinesOfListing(ws)).value| <= 4 * |ws|
    ensures BytesOfLines(LinesOfListing(ws)) == Some(Flat(ws))
            <==> forall i :: 0 <= i < |ws| ==> WordRoundTrips(ws[i])
  {
    hide FindOpcode, DisLine, BytesOf, RoundTrips;
    if ws != [] {
      var w, rest := ws[0], ws[1..];
      ListingBytes(rest);
      WordReadBack(FindOpcode(w.b3).value, w.b1, w.b2, w.b3);
      AtMostAWord(DisLine(w.b1, w.b2, w.b3));
      var line, texts := DisLine(w.b1, w.b2, w.b3), LinesOfListing(rest);
      assert LinesOfListing(ws)[1..] == texts;
      assert (forall i :: 0 <= i < |ws| ==> WordRoundTrips(ws[i])) <==>
        WordRoundTrips(w) && forall i :: 0 <= i < |rest| ==> WordRoundTrips(rest[i]) by {
        assert forall i :: 1 <= i < |ws| ==> ws[i] == rest[i - 1];
        assert forall i :: 0 <= i < |rest| ==> rest[i] == ws[i + 1];
      }
      if BytesOf(line).Some? && BytesOfLines(texts).Some? {
        SplitStream(BytesOf(line).value, BytesOfLines(texts).value, [0, w.b1, w.b2, w.b3], Flat(rest));
      }
    }
  }

  lemma {:induction false} SplitStream(a: seq<byte>, b: seq<byte>, c: seq<byte>, d: seq<byte>)
    requires |a| <= |c| && |b| <= |d|
    ensures a + b == c + d <==> a == c && b == d
  {
    if a + b == c + d {
      assert |a + b| == |a| + |b| && |c + d| == |c| + |d|;
      assert (a + b)[..|a|] == a && (c + d)[..|c|] == c;
      assert (a + b)[|a|..] == b && (c + d)[|c|..] == d;
    }
  }

  /** Disassembling a stream of integer words and assembling the listing gives the stream back
      exactly when each of its words round-trips. */
  lemma {:induction false} ListingReadBack(ws: seq<Word>)
    requires IntegerWords(ws)
    ensures (AssembleText(Listing(ws)).Some? && AssembleText(Listing(ws)).value.out == Flat(ws))
            <==> forall i :: 0 <= i < |ws| ==> WordRoundTrips(ws[i])
  {
    hide FindOpcode, DisLine, BytesOf, ParseLines, WordRoundTrips;
    ListingLines(ws);
    LinesOfConcat(LinesOfListing(ws));
    AssemblesLineByLine(LinesOfListing(ws));
    ListingBytes(ws);
  }

  // ---------- the read loop ----------

  function FloatText(n: nat): string {
    "$f" + Dec(n)
  }

  /** The line of a row after the integer ones. */
  function FloatLine(row: nat, b1: byte, b2: byte): string
    requires row < Floats.ROW_COUNT
  {
    var ops :=
      if Floats.HasFour(row) then
        Join([FloatText(b1 % 16), FloatText(b1 / 16), FloatText(b2 % 16), FloatText(b2 / 16)])
      else "<invalid>";
    "\t" + Pad(Floats.RowName(row)) + ops + "\n"
  }

  /** What is printed for any word: the line of the first row of its opcode, control byte regardless, or
      nothing. */
  function WordLine(b1: byte, b2: byte, b3: byte): string {
    var row := Floats.FindRowOpcode(b3 % 128);
    if FindOpcode(b3).Some? then DisLine(b1, b2, b3)
    else if row.Some? then FloatLine(row.value, b1, b2)
    else ""
  }

  /** A word prints a line exactly when some row, integer or not, has its opcode. */
  lemma {:induction false} PrintsExactly(b1: byte, b2: byte, b3: byte)
    ensures WordLine(b1, b2, b3) != ""
            <==> (exists i :: 0 <= i < TABLE_COUNT && OpcodeOf(At(i)) == b3 % 128)
                 || exists i :: 0 <= i < Floats.ROW_COUNT && Floats.RowOpcode(i) == b3 % 128
  {
    hide Pad, NameOf, Join, Pieces, FormatOf, OpcodeOf, At, Floats.RowName, Floats.RowOpcode, Floats.FindRowOpcode;
    NoOpcode(b3, 0);
    if FindOpcode(b3).Some? {
      var m := FindOpcode(b3).value;
      assert OpcodeOf(At(IndexOf(m))) == b3 % 128;
    }
    if Floats.FindRowOpcode(b3 % 128).Some? {
      assert Floats.RowOpcode(Floats.FindRowOpcode(b3 % 128).value) == b3 % 128;
    }
  }

  lemma {:induction false} NoOpcode(b3: byte, i: nat)
    requires i <= TABLE_COUNT
    ensures FindOpcode(b3, i).None? ==> forall j :: i <= j < TABLE_COUNT ==> OpcodeOf(At(j)) != b3 % 128
    decreases TABLE_COUNT - i
  {
    hide OpcodeOf, At;
    if i < TABLE_COUNT {
      NoOpcode(b3, i + 1);
    }
  }

  /** Those opcodes in numbers: the table has a row for each of these ranges and for nothing else. */
  lemma {:induction false} PrintedOpcodes(b1: byte, b2: byte, b3: byte)
    ensures WordLine(b1, b2, b3) != ""
            <==> b3 % 128 <= 0x2c || 0x30 <= b3 % 128 <= 0x3e || 0x40 <= b3 % 128 <= 0x44 || 0x50 <= b3 % 128 <= 0x5f
  {
    hide WordLine, OpcodeOf, At, FormatOf;
    PrintsExactly(b1, b2, b3);
    var op := b3 % 128;
    forall i | 0 <= i < TABLE_COUNT
      ensures OpcodeOf(At(i)) == OpcodeAt(i)
    {
      OpcodesInOrder(i);
    }
    if op <= 0x2c {
      assert Floats.RowOpcode(op) == op;
    } else if 0x30 <= op <= 0x3e {
      assert OpcodeAt(27 + (op - 0x30)) == op;
    } else if 0x40 <= op <= 0x44 {
      assert Floats.RowOpcode(50 + (op - 0x40)) == op;
    } else if 0x50 <= op <= 0x5f {
      assert OpcodeAt(47 + (op - 0x50)) == op;
    }
  }

  /** Past the end a read yields the end-of-file value, cut to a byte. */
  function ByteAt(stream: seq<byte>, i: nat): byte {
    if i < |stream| then stream[i] else 0xff
  }

  /** The text printed from position `i` on; `None` is an abort. A control byte equal to the
      end-of-file value ends the loop, and the formats without operands take one byte. */
  function Disassembled(stream: seq<byte>, i: nat := 0): Option<string>
    decreases |stream| - i
  {
    if ByteAt(stream, i) == 0xff then Some("")
    else if stream[i] % 16 == 0 then
      var rest := Disassembled(stream, i + 4);
      if rest.None? then None
      else Some(WordLine(ByteAt(stream, i + 1), ByteAt(stream, i + 2), ByteAt(stream, i + 3)) + rest.value)
    else if stream[i] % 16 in {1, 3, 4} then Disassembled(stream, i + 1)
    else None
  }

  /** On integer words it prints their lines. */
  lemma {:induction false} DisassembledWords(ws: seq<Word>, stream: seq<byte>, i: nat)
    requires IntegerWords(ws) && i <= |stream| && stream[i..] == Flat(ws)
    ensures Disassembled(stream, i) == Some(Listing(ws))
    decreases ws
  {
    hide FindOpcode, DisLine;
    if ws != [] {
      var w := ws[0];
      var tail := stream[i..];
      assert tail[0] == stream[i] && tail[1] == stream[i + 1] && tail[2] == stream[i + 2] && tail[3] == stream[i + 3];
      assert stream[i + 4..] == tail[4..] == Flat(ws[1..]);
      DisassembledWords(ws[1..], stream, i + 4);
    }
  }

  /** The read loop over any stream. */
  method Disassemble(stream: seq<byte>) returns (text: Option<string>)
    ensures text == Disassembled(stream)
    ensures forall ws :: IntegerWords(ws) && stream == Flat(ws) ==> text == Some(Listing(ws))
  {
    hide FindOpcode, DisLine, WordLine, IntegerWords, Flat, Listing;
    var out := "";
    var i := 0;
    while ByteAt(stream, i) != 0xff
      invariant Extends(out, Disassembled(stream, i), Disassembled(stream))
      decreases |stream| - i
    {
      if stream[i] % 16 == 0 {
        var line := PrintWord(ByteAt(stream, i + 1), ByteAt(stream, i + 2), ByteAt(stream, i + 3));
        ExtendsLine(out, line, Disassembled(stream, i + 4), Disassembled(stream, i), Disassembled(stream));
        out := out + line;
        i := i + 4;
      } else if stream[i] % 16 in {1, 3, 4} {
        i := i + 1;
      } else {
        text := None;
        WordStreams(stream);
        return;
      }
    }
    assert out + "" == out;
    text := Some(out);
    WordStreams(stream);
  }

  /** The text so far and what is still to come make up the whole. */
  ghost predicate Extends(out: string, rest: Option<string>, whole: Option<string>) {
    (rest.None? <==> whole.None?) && (rest.Some? ==> whole.value == out + rest.value)
  }

  lemma {:induction false} ExtendsLine(out: string, line: string, rest: Option<string>, here: Option<string>,
      whole: Option<string>)
    requires Extends(out, here, whole) && here == if rest.None? then None else Some(line + rest.value)
    ensures Extends(out + line, rest, whole)
  {
    if rest.Some? {
      assert out + (line + rest.value) == out + line + rest.value;
    }
  }

  lemma {:induction false} WordStreams(stream: seq<byte>)
    ensures forall ws :: IntegerWords(ws) && stream == Flat(ws) ==> Disassembled(stream) == Some(Listing(ws))
  {
    forall ws | IntegerWords(ws) && stream == Flat(ws)
      ensures Disassembled(stream) == Some(Listing(ws))
    {
      assert stream[0..] == stream;
      DisassembledWords(ws, stream, 0);
    }
  }

  /** The table scan for one word, and the line of the row it finds. */
  method PrintWord(b1: byte, b2: byte, b3: byte) returns (line: string)
    ensures line == WordLine(b1, b2, b3)
  {
    hide OpcodeOf, At, FormatOf, NameOf, Pieces, Pad, Join, FloatLine, Floats.RowOpcode;
    for i := 0 to TABLE_COUNT
      invariant FindOpcode(b3, i) == FindOpcode(b3)
    {
      if OpcodeOf(At(i)) == b3 % 128 {
        return "\t" + Pad(NameOf(At(i))) + Join(Pieces(FormatOf(At(i)), b1, b2, b3)) + "\n";
      }
    }
    for i := 0 to Floats.ROW_COUNT
      invariant Floats.FindRowOpcode(b3 % 128, i) == Floats.FindRowOpcode(b3 % 128)
    {
      if Floats.RowOpcode(i) == b3 % 128 {
        return FloatLine(i, b1, b2);
      }
    }
    return "";
  }
}

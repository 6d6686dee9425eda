/** The bytes of a line of assembly, and the line of a word, in characters and numbers. */
module Encoding {
  import opened Options
  import opened Words
  import opened Isa
  import opened AsmText
  import opened Assembler
  import opened Printing
  import opened Disasm
  import Floats

  // ---------- operands ----------

  /** Registers by number, by their aliases, and by their special names; float registers and numbers. */
  lemma {:induction false} OperandNames(n: nat, i: int)
    ensures ParseOperand("$r" + Dec(n)) == RegOp(n) && ParseOperand("$t" + Dec(n)) == RegOp(n)
    ensures ParseOperand("$a" + Dec(n)) == RegOp(8 + n) && ParseOperand("$f" + Dec(n)) == FloatOp(n)
    ensures ParseOperand("$ra") == RegOp(12) && ParseOperand("$bp") == RegOp(13)
    ensures ParseOperand("$sp") == RegOp(14) && ParseOperand("$tp") == RegOp(15)
    ensures ParseOperand(Dec(i)) == ImmOp(i)
  {
    OperandOfDec(i);
    Prefixed('r', n);
    Prefixed('t', n);
    Prefixed('a', n);
    Prefixed('f', n);
    SpecialNames();
    hide ParseOperand, Dec;
    assert ['$', 'r'] == "$r" && ['$', 't'] == "$t" && ['$', 'a'] == "$a" && ['$', 'f'] == "$f";
  }

  lemma {:induction false} Prefixed(c: char, n: nat)
    requires c in "rtaf"
    ensures ParseOperand(['$', c] + Dec(n))
            == if c == 'a' then RegOp(n + 8) else if c == 'f' then FloatOp(n) else RegOp(n)
  {
    hide Atoll, ParseCond, Dec;
    DigitFirst(n);
    AtollOfDec(n);
    var p := ['$', c] + Dec(n);
    assert p[2..] == Dec(n) && p[2] == Dec(n)[0] && |p| >= 3;
  }

  lemma {:induction false} DigitFirst(n: nat)
    ensures Dec(n) != "" && IsDigit(Dec(n)[0])
  {
    DecNatDigits(n);
  }

  lemma {:induction false} SpecialNames()
    ensures ParseOperand("$ra") == RegOp(12) && ParseOperand("$bp") == RegOp(13)
    ensures ParseOperand("$sp") == RegOp(14) && ParseOperand("$tp") == RegOp(15)
  {
    hide Atoll, ParseCond;
  }

  // ---------- what a line ignores ----------

  lemma {:induction false} CutAt(line: string, c: char, rest: string, stops: string)
    requires c in stops
    ensures Until(line + [c] + rest, stops) == Until(line, stops)
  {
    if line == "" {
      assert "" + [c] + rest == [c] + rest;
    } else {
      assert (line + [c] + rest)[0] == line[0] && (line + [c] + rest)[1..] == line[1..] + [c] + rest;
      CutAt(line[1..], c, rest, stops);
    }
  }

  /** A hash sign, a return or a newline ends a line, whatever follows. */
  lemma {:induction false} RestIgnored(line: string, c: char, rest: string)
    requires c in ['#', '\r', '\n']
    ensures ParseLine(line + [c] + rest) == ParseLine(line)
  {
    hide SkipSpaces, Until, SplitCommas, ParseOperand;
    CutAt(line, c, rest, "#\r\n");
  }

  /** Blanks, tabs, vertical tabs and form feeds in front of a line are skipped. */
  lemma {:induction false} IndentIgnored(c: char, line: string)
    requires c in [' ', '\t', 11 as char, 12 as char]
    ensures ParseLine([c] + line) == ParseLine(line)
  {
    hide SplitCommas, ParseOperand;
    assert ([c] + line)[1..] == line && ([c] + Until(line, "#\r\n"))[1..] == Until(line, "#\r\n");
    assert Until([c] + line, "#\r\n") == [c] + Until(line, "#\r\n");
  }

  /** One more digit is ten times as much and its value. */
  lemma {:induction false} MoreDigits(s: string, d: nat)
    requires s != "" && AllDigits(s) && d < 10
    ensures Atoll("0") == 0 && Atoll(s + ["0123456789"[d]]) == 10 * Atoll(s) + d
    ensures Atoll("-" + s) == -Atoll(s)
  {
    var c := "0123456789"[d];
    DigitsAppend(s, [c], 0);
    assert [c][1..] == [] && "0"[1..] == [];
    assert ("-" + s)[1..] == s && (s + [c])[0] == s[0];
    assert SkipSpaces(s) == s && SkipSpaces(s + [c]) == s + [c] && SkipSpaces("-" + s) == "-" + s;
    assert DigitChar(d) == c;
  }

  /** A label of up to fifteen characters is read; a longer one overruns its buffer. */
  lemma {:induction false} LabelRead(name: string, rest: string)
    requires name != "" && Free(name, "#\r\n: \t") && !IsSpace(name[0]) && Free(rest, "#\r\n")
    ensures ParseLine(name + ":" + rest) == if |name| < 16 then Some(Label(name)) else None
  {
    hide SkipSpaces, Until, SplitCommas, ParseOperand;
    var p := name + ":" + rest;
    assert p == name + (":" + rest) && p[0] == name[0] && p[|name|] == ':';
    assert Free(p, "#\r\n");
    WholeLine(p);
    UntilStop(name, ":" + rest, ": \t");
  }

  lemma {:induction false} WholeLine(p: string)
    requires p != "" && Free(p, "#\r\n") && !IsSpace(p[0])
    ensures SkipSpaces(Until(p, "#\r\n")) == p
  {
    UntilStop(p, "", "#\r\n");
    assert p + "" == p;
  }

  // ---------- lines ----------

  /** A line: tab, name, blank, operands with commas between. */
  function LineOf(name: string, ops: string): string {
    "\t" + name + " " + ops + "\n"
  }

  lemma {:induction false} LinePrinted(name: string, ops: string)
    ensures LineOf(name, ops) == PrintedLine(name, 1, ops)
  {
    assert Spaces(1) == " ";
  }

  lemma {:induction false} JoinedThree(a: string, b: string, c: string)
    ensures Join([a, b, c]) == a + "," + (b + "," + c)
  {
    assert [a, b, c][1..] == [b, c] && [b, c][1..] == [c];
    assert Join([b, c]) == b + "," + c;
  }

  lemma {:induction false} JoinedFour(a: string, b: string, c: string, d: string)
    ensures Join([a, b, c, d]) == a + "," + (b + "," + (c + "," + d))
  {
    assert [a, b, c, d][1..] == [b, c, d];
    JoinedThree(b, c, d);
  }

  lemma {:induction false} SmallPieces(n: nat)
    requires n < 16
    ensures GoodPiece(RegText(n)) && RegText(n) != "" && GoodPiece(Dec(n)) && Dec(n) != ""
    ensures RegText(n) == "$r" + Dec(n)
  {
    hide GoodPiece, Dec;
    PrintedReg(n);
  }

  lemma {:induction false} ByteValue(i: nat)
    requires i < 256
    ensures Dec(if i < 128 then i else i - 256) == Dec(Signed8(i)) && Low(ImmOp(Signed8(i))) == i
    ensures GoodPiece(Dec(Signed8(i))) && Dec(Signed8(i)) != ""
  {
    hide GoodPiece, Dec;
    PrintedImm(i);
  }

  lemma {:induction false} TwoNibbles(a: nat, b: nat)
    requires a < 16 && b < 16
    ensures Nibbles(RegOp(a), RegOp(b)) == a + 16 * b && Nibbles(RegOp(a), ImmOp(b)) == a + 16 * b
  {
  }

  /** Register, register, number: destination low and source high in the first byte, the number in the
      second, the opcode with its top bit set in the third. Any number stands for its low byte. */
  lemma {:induction false} ImmLine(m: Mnemonic, op: nat, d: nat, a: nat, i: int)
    requires OpcodeNamed(NameOf(m)) == Some(op) && op < 128 && FormatOf(m).ImmOrReg?
    requires d < 16 && a < 16 && -128 <= i < 128
    ensures BytesOf(LineOf(NameOf(m), "$r" + Dec(d) + "," + ("$r" + Dec(a) + "," + Dec(i))))
            == Some([0, d + 16 * a, i % 256, op + 128])
  {
    hide NameOf, OpcodeOf, FormatOf, OpcodeNamed, Dec, BytesOf, PrintedLine, Join, ParseOperand, ParseLine, GoodPiece,
         RegText, Nibbles, Low;
    var pieces := [RegText(d), RegText(a), Dec(i)];
    SmallPieces(d);
    SmallPieces(a);
    ByteValue(i % 256);
    OperandOfReg(d);
    OperandOfReg(a);
    OperandOfDec(i);
    TwoNibbles(d, a);
    JoinedThree(RegText(d), RegText(a), Dec(i));
    LinePrinted(NameOf(m), Join(pieces));
    NameHasOpcode(m);
    ImmOpcode(m);
    assert Signed8(i % 256) == i;
    BytesOfPieces(m, 1, pieces, [RegOp(d), RegOp(a), ImmOp(i), Absent]);
  }

  lemma {:induction false} ImmOpcode(m: Mnemonic)
    ensures OpcodeOf(m) < 128
  {
  }

  /** Register, register, register, small number. */
  lemma {:induction false} RegLine(m: Mnemonic, op: nat, d: nat, a: nat, b: nat, i: nat)
    requires OpcodeNamed(NameOf(m)) == Some(op) && op < 128 && FormatOf(m).ImmOrReg?
    requires d < 16 && a < 16 && b < 16 && i < 16
    ensures BytesOf(LineOf(NameOf(m), "$r" + Dec(d) + "," + ("$r" + Dec(a) + "," + ("$r" + Dec(b) + "," + Dec(i)))))
            == Some([0, d + 16 * a, b + 16 * i, op])
  {
    hide NameOf, OpcodeOf, FormatOf, OpcodeNamed, Dec, BytesOf, PrintedLine, Join, ParseOperand, ParseLine, GoodPiece,
         RegText, Nibbles, Low;
    var pieces := [RegText(d), RegText(a), RegText(b), Dec(i)];
    SmallPieces(d);
    SmallPieces(a);
    SmallPieces(b);
    SmallPieces(i);
    OperandOfReg(d);
    OperandOfReg(a);
    OperandOfReg(b);
    OperandOfDec(i);
    TwoNibbles(d, a);
    TwoNibbles(b, i);
    JoinedFour(RegText(d), RegText(a), RegText(b), Dec(i));
    LinePrinted(NameOf(m), Join(pieces));
    NameHasOpcode(m);
    BytesOfPieces(m, 1, pieces, [RegOp(d), RegOp(a), RegOp(b), ImmOp(i)]);
  }

  /** Four registers. */
  lemma {:induction false} FourLine(m: Mnemonic, op: nat, d: nat, a: nat, b: nat, c: nat)
    requires OpcodeNamed(NameOf(m)) == Some(op) && op < 128 && FormatOf(m).FourRegs?
    requires d < 16 && a < 16 && b < 16 && c < 16
    ensures var ops := "$r" + Dec(d) + "," + ("$r" + Dec(a) + "," + ("$r" + Dec(b) + "," + ("$r" + Dec(c))));
      BytesOf(LineOf(NameOf(m), ops)) == Some([0, d + 16 * a, b + 16 * c, op])
  {
    hide NameOf, OpcodeOf, FormatOf, OpcodeNamed, Dec, BytesOf, PrintedLine, Join, ParseOperand, ParseLine, GoodPiece,
         RegText, Nibbles, Low;
    var pieces := [RegText(d), RegText(a), RegText(b), RegText(c)];
    SmallPieces(d);
    SmallPieces(a);
    SmallPieces(b);
    SmallPieces(c);
    OperandOfReg(d);
    OperandOfReg(a);
    OperandOfReg(b);
    OperandOfReg(c);
    TwoNibbles(d, a);
    TwoNibbles(b, c);
    JoinedFour(RegText(d), RegText(a), RegText(b), RegText(c));
    LinePrinted(NameOf(m), Join(pieces));
    NameHasOpcode(m);
    BytesOfPieces(m, 1, pieces, [RegOp(d), RegOp(a), RegOp(b), RegOp(c)]);
  }

  /** A condition operand, letter by letter. */
  function CondOf(inv: bool, n: bool, z: bool, c: bool): string {
    "?" + (Letter(inv, '!') + Letter(n, 'n') + Letter(z, 'z') + Letter(c, 'c'))
  }

  lemma {:induction false} CondRead(inv: bool, n: bool, z: bool, c: bool)
    ensures ParseOperand(CondOf(inv, n, z, c))
            == CondOp((if inv then 1 else 0) + (if n then 2 else 0) + (if z then 4 else 0) + (if c then 8 else 0))
    ensures GoodPiece(CondOf(inv, n, z, c)) && CondOf(inv, n, z, c) != ""
  {
    hide ParseCond, Atoll, Letter, GoodPiece;
    CondSpelled(inv, n, z, c);
    var s := Letter(inv, '!') + Letter(n, 'n') + Letter(z, 'z') + Letter(c, 'c');
    assert ("?" + s)[0] == '?' && ("?" + s)[1..] == s;
    LettersGood(Letter(inv, '!'), Letter(n, 'n'), Letter(z, 'z'), Letter(c, 'c'));
    LetterShort(inv, '!');
    LetterShort(n, 'n');
    LetterShort(z, 'z');
    LetterShort(c, 'c');
    MarkGood(s);
  }

  lemma {:induction false} LetterShort(b: bool, c: char)
    ensures |Letter(b, c)| <= 1 && (c !in "#\r\n:," ==> Free(Letter(b, c), "#\r\n:,"))
  {
  }

  lemma {:induction false} LettersGood(a: string, b: string, c: string, d: string)
    ensures |a| <= 1 && |b| <= 1 && |c| <= 1 && |d| <= 1 ==> |a + b + c + d| <= 4
    ensures Free(a, "#\r\n:,") && Free(b, "#\r\n:,") && Free(c, "#\r\n:,") && Free(d, "#\r\n:,")
            ==> Free(a + b + c + d, "#\r\n:,")
  {
  }

  lemma {:induction false} MarkGood(s: string)
    requires Free(s, "#\r\n:,") && |s| <= 4
    ensures GoodPiece("?" + s)
  {
  }

  /** Register, displacement, condition: the condition's bits are inversion, negative, zero and carry, from
      the lowest up. */
  lemma {:induction false} BranchLine(m: Mnemonic, op: nat, r: nat, i: int, inv: bool, n: bool, z: bool, c: bool)
    requires OpcodeNamed(NameOf(m)) == Some(op) && op < 128 && FormatOf(m).Branch?
    requires r < 16 && -128 <= i < 128
    ensures var cc := (if inv then 1 else 0) + (if n then 2 else 0) + (if z then 4 else 0) + (if c then 8 else 0);
      BytesOf(LineOf(NameOf(m), "$r" + Dec(r) + "," + (Dec(i) + "," + CondOf(inv, n, z, c))))
      == Some([0, r + 16 * cc, i % 256, op])
  {
    hide NameOf, OpcodeOf, FormatOf, OpcodeNamed, Dec, BytesOf, PrintedLine, Join, ParseOperand, ParseLine, GoodPiece,
         RegText, CondOf, Low;
    var cc := (if inv then 1 else 0) + (if n then 2 else 0) + (if z then 4 else 0) + (if c then 8 else 0);
    var pieces := [RegText(r), Dec(i), CondOf(inv, n, z, c)];
    SmallPieces(r);
    ByteValue(i % 256);
    assert Signed8(i % 256) == i;
    CondRead(inv, n, z, c);
    OperandOfReg(r);
    OperandOfDec(i);
    CondNibbles(r, cc);
    JoinedThree(RegText(r), Dec(i), CondOf(inv, n, z, c));
    LinePrinted(NameOf(m), Join(pieces));
    NameHasOpcode(m);
    BytesOfPieces(m, 1, pieces, [RegOp(r), ImmOp(i), CondOp(cc), Absent]);
  }

  lemma {:induction false} CondNibbles(r: nat, cc: nat)
    requires r < 16 && cc < 16
    ensures Nibbles(RegOp(r), CondOp(cc)) == r + 16 * cc
  {
  }

  // ---------- float rows ----------

  lemma {:induction false} FloatFound(row: nat)
    requires row < Floats.FOUR_COUNT
    ensures FindName(Floats.RowName(row)).None? && Floats.FindRow(Floats.RowName(row)) == Some(row)
  {
    hide Floats.RowName, NameOf;
    var name := Floats.RowName(row);
    Floats.FourStart(row);
    Floats.FindRowRecovers(row, 0);
    if FindName(name).Some? {
      NoneStartsF(FindName(name).value);
    }
  }

  lemma {:induction false} FloatPiece(n: nat)
    requires n < 16
    ensures GoodPiece("$f" + Dec(n)) && "$f" + Dec(n) != "" && ParseOperand("$f" + Dec(n)) == FloatOp(n)
  {
    hide Dec, ParseOperand;
    OperandNames(n, 0);
    PrintedPieces(n, "#\r\n:");
    PrintedPieces(n, ",");
  }

  lemma {:induction false} FloatNibbles(a: nat, b: nat)
    requires a < 16 && b < 16
    ensures Nibbles(FloatOp(a), FloatOp(b)) == a + 16 * b
  {
  }

  /** Four float registers: the control byte is 1. */
  lemma {:induction false} FloatRowLine(row: nat, d: nat, a: nat, b: nat, c: nat)
    requires row < Floats.FOUR_COUNT && d < 16 && a < 16 && b < 16 && c < 16
    ensures Floats.OpcodeNamed(Floats.RowName(row)).Some?
    ensures var ops := "$f" + Dec(d) + "," + ("$f" + Dec(a) + "," + ("$f" + Dec(b) + "," + ("$f" + Dec(c))));
      BytesOf(LineOf(Floats.RowName(row), ops))
      == Some([1, d + 16 * a, b + 16 * c, Floats.OpcodeNamed(Floats.RowName(row)).value % 256])
  {
    hide Dec, PrintedLine, Join, ParseOperand, ParseLine, GoodPiece, Nibbles, Floats.RowName, Floats.OpcodeNamed,
         FindName, Floats.FindRow, Low;
    var name := Floats.RowName(row);
    var pieces := ["$f" + Dec(d), "$f" + Dec(a), "$f" + Dec(b), "$f" + Dec(c)];
    FloatPiece(d);
    FloatPiece(a);
    FloatPiece(b);
    FloatPiece(c);
    FloatNibbles(d, a);
    FloatNibbles(b, c);
    JoinedFour("$f" + Dec(d), "$f" + Dec(a), "$f" + Dec(b), "$f" + Dec(c));
    LinePrinted(name, Join(pieces));
    Floats.NameHasOpcode(row);
    Floats.RowNamePlain(row);
    Floats.FourStart(row);
    FloatFound(row);
    ParsePieces(name, 1, pieces);
    var ops: Ops := [FloatOp(d), FloatOp(a), FloatOp(b), FloatOp(c)];
    assert OperandsOf(pieces) == ops;
    assert EMPTY.out + EncodeFloat(row, ops) == EncodeFloat(row, ops);
  }

  // ---------- the disassembler's lines ----------

  /** What is printed for a word with an immediate: tab, name filled up to eight columns, registers by
      number, the byte as a signed number. */
  lemma {:induction false} ImmPrinted(m: Mnemonic, op: nat, d: nat, a: nat, i: byte)
    requires OpcodeNamed(NameOf(m)) == Some(op) && op < 128 && FormatOf(m).ImmOrReg?
    requires d < 16 && a < 16
    ensures |NameOf(m)| < 8
    ensures WordLine(d + 16 * a, i, op + 128)
            == "\t" + NameOf(m) + Spaces(8 - |NameOf(m)|)
               + ("$r" + Dec(d) + "," + ("$r" + Dec(a) + "," + Dec(if i < 128 then i else i - 256))) + "\n"
  {
    hide NameOf, OpcodeOf, FormatOf, OpcodeNamed, Dec, Join, FindOpcode, Spaces, DisLine;
    NameHasOpcode(m);
    ImmOpcode(m);
    ImmName(m);
    FindOpcodeRecovers(m, OpcodeOf(m) + 128);
    ShownName(m, OpcodeOf(m) + 128);
    ShownWithGap(m, d + 16 * a, i, OpcodeOf(m) + 128);
    FieldsOf(d, a);
    JoinedThree("$r" + Dec(d), "$r" + Dec(a), Dec(Signed8(i)));
    ImmPieces(d + 16 * a, i, OpcodeOf(m) + 128);
  }

  lemma {:induction false} ImmName(m: Mnemonic)
    requires FormatOf(m).ImmOrReg?
    ensures m != Chtreeunchk && m != Bgpcrela
  {
  }

  lemma {:induction false} FieldsOf(d: nat, a: nat)
    requires d < 16 && a < 16
    ensures (d + 16 * a) % 16 == d && (d + 16 * a) / 16 == a
  {
  }

  lemma {:induction false} ImmPieces(b1: byte, b2: byte, b3: byte)
    requires b3 >= 128
    ensures Pieces(ImmOrReg, b1, b2, b3) == ["$r" + Dec(b1 % 16), "$r" + Dec(b1 / 16), Dec(Signed8(b2))]
  {
  }

  // ---------- the disassembler's stream ----------

  lemma {:induction false} ShiftedStream(stream: seq<byte>, i: nat, j: nat)
    requires i <= j
    ensures Disassembled(stream, j) == if i <= |stream| then Disassembled(stream[i..], j - i) else Some("")
    decreases |stream| - j
  {
    hide WordLine;
    if j < |stream| {
      var tail := stream[i..];
      assert forall k :: j <= k ==> ByteAt(stream, k) == ByteAt(tail, k - i);
      ShiftedStream(stream, i, j + 4);
      ShiftedStream(stream, i, j + 1);
    }
  }

  /** By the low half of the first byte: 0 prints a word and goes on after it; 1, 3 and 4 go on at the next
      byte; the others abort; and the byte that reads as end of file ends the listing. */
  lemma {:induction false} StreamStep(b: byte, rest: seq<byte>)
    ensures Disassembled([]) == Some("")
    ensures var text := Disassembled([b] + rest);
      && (b == 0xff ==> text == Some(""))
      && (b != 0xff && b % 16 in [1, 3, 4] ==> text == Disassembled(rest))
      && (b != 0xff && b % 16 !in [0, 1, 3, 4] ==> text.None?)
      && (b % 16 == 0 && |rest| >= 3 ==>
            var more := Disassembled(rest[3..]);
            text == if more.None? then None else Some(WordLine(rest[0], rest[1], rest[2]) + more.value))
  {
    hide WordLine;
    var stream := [b] + rest;
    assert stream[1..] == rest;
    ShiftedStream(stream, 1, 1);
    if |rest| >= 3 {
      assert stream[4..] == rest[3..];
      ShiftedStream(stream, 4, 4);
      assert ByteAt(stream, 1) == rest[0] && ByteAt(stream, 2) == rest[1] && ByteAt(stream, 3) == rest[2];
    }
  }
}

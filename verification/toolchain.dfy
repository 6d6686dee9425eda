/** The text the compiler writes, as the assembler reads it.

    Registers by name, one line per instruction, the section lines around them, and the label
    of the function. */
module Toolchain {
  import opened Options
  import opened Words
  import Ssa
  import opened Isa
  import opened AsmText
  import opened Assembler
  import opened Printing
  import opened Memory
  import opened Machine
  import opened Program
  import opened Refinement
  import opened Ast
  import opened Exactness
  import Emission
  import Floats
  import L = Lower
  import C = Compiler

  // ---------- the text the compiler writes ----------

  function MnemonicOf(op: Ssa.BinOp): Mnemonic {
    match op
    case Add => Mnemonic.Add
    case Sub => Mnemonic.Sub
    case Mul => Mnemonic.Mul
    case Div => Mnemonic.Div
    case Rem => Mnemonic.Rem
    case LShift => Mnemonic.Shl
    case RShift => Mnemonic.Shr
    case And => Mnemonic.And
    case Xor => Mnemonic.Xor
    case Or => Mnemonic.Or
  }

  function RegName(r: nat): string
    requires L.HasName(r)
  {
    if r < L.T7 then "$t" + Dec(r - L.T0) else "$a" + Dec(r - L.A0)
  }

  /** The machine register behind a name. */
  function Phys(r: nat): (p: nat)
    requires L.HasName(r)
    ensures p < REG_COUNT
  {
    if r < L.T7 then r - L.T0 else 8 + (r - L.A0)
  }

  function CodeLine(c: L.Code): string
    requires L.CodeNamed(c)
  {
    match c
    case Op(op, rd, ra, rb) =>
      PrintedLine(NameOf(MnemonicOf(op)), 1, Join([RegName(rd), RegName(ra), RegName(rb)]))
    case Ret => "\tret\n"
  }

  function CodeLines(code: seq<L.Code>): (ls: seq<string>)
    requires L.AllNamed(code)
    ensures |ls| == |code|
  {
    if code == [] then [] else [CodeLine(code[0])] + CodeLines(code[1..])
  }

  /** The listing of one function. */
  function FuncLines(name: string, code: seq<L.Code>): seq<string>
    requires L.AllNamed(code)
  {
    [".section .text\n", name + ":\n"] + CodeLines(code) + [".section .data\n"]
  }

  // ---------- that text parsed ----------

  function InstrOf(c: L.Code): Instr
    requires L.CodeNamed(c)
  {
    match c
    case Op(op, rd, ra, rb) => Instr(MnemonicOf(op), [RegOp(Phys(rd)), RegOp(Phys(ra)), RegOp(Phys(rb)), Absent])
    case Ret => Instr(Mnemonic.Ret, [Absent, Absent, Absent, Absent])
  }

  function ParsedOf(c: L.Code): Line
    requires L.CodeNamed(c)
  {
    Inst(NameOf(InstrOf(c).m), InstrOf(c).ops)
  }

  lemma {:induction false} RegNameReadBack(r: nat)
    requires L.HasName(r)
    ensures ParseOperand(RegName(r)) == RegOp(Phys(r)) && GoodPiece(RegName(r)) && RegName(r) != ""
  {
    var n: nat := if r < L.T7 then r - L.T0 else r - L.A0;
    DecNatDigits(n);
    AtollOfDec(n);
    var p := RegName(r);
    assert p[2..] == Dec(n) && IsDigit(p[2]);
    assert |DecNat(n)| == 1;
    assert p == [p[0], p[1], p[2]];
  }

  lemma {:induction false} CodeLineParses(c: L.Code)
    requires L.CodeNamed(c)
    ensures ParseLine(CodeLine(c)) == Some(ParsedOf(c)) && IsLine(CodeLine(c))
  {
    hide NameOf, ParseLine, ParseOperand, RegName, Encode, PrintedLine, Join, GoodPiece;
    match c
    case Op(op, rd, ra, rb) =>
      RegNameReadBack(rd);
      RegNameReadBack(ra);
      RegNameReadBack(rb);
      var pieces := [RegName(rd), RegName(ra), RegName(rb)];
      BytesOfPieces(MnemonicOf(op), 1, pieces, InstrOf(c).ops);
      PrintedIsLine(MnemonicOf(op), pieces);
    case Ret => RetParses();
  }

  lemma {:induction false} PrintedIsLine(m: Mnemonic, pieces: seq<string>)
    requires GoodPieces(pieces)
    ensures IsLine(PrintedLine(NameOf(m), 1, Join(pieces)))
  {
    hide NameOf, Join, Spaces;
    NameLetters(m);
    NameFreeOf(NameOf(m));
    SpacesFree(1, "\n");
    assert forall i :: 0 <= i < |pieces| ==> GoodPiece(pieces[i]);
    JoinFree(pieces, "\n");
    var line := PrintedLine(NameOf(m), 1, Join(pieces));
    assert line[..|line| - 1] == "\t" + NameOf(m) + Spaces(1) + Join(pieces);
    FreeConcat("\t", NameOf(m), "\n");
    FreeConcat("\t" + NameOf(m), Spaces(1), "\n");
    FreeConcat("\t" + NameOf(m) + Spaces(1), Join(pieces), "\n");
  }

  /** A line of one word. */
  lemma {:induction false} WordParses(name: string)
    requires name != "" && forall i :: 0 <= i < |name| ==> IsNameLetter(name[i])
    ensures ParseLine("\t" + name + "\n") == Some(Inst(name, [Absent, Absent, Absent, Absent]))
    ensures IsLine("\t" + name + "\n")
  {
    var line := "\t" + name + "\n";
    hide SkipSpaces, Until, SplitCommas, ParseOperand;
    NameFreeOf(name);
    assert Free(name, "#\r\n") && ':' !in name;
    BodyOfLine(name);
    UntilStop(name, "", " \t");
    assert name + "" == name;
    assert line[..|line| - 1] == "\t" + name;
  }

  lemma {:induction false} RetParses()
    ensures ParseLine("\tret\n") == Some(Inst(NameOf(Mnemonic.Ret), [Absent, Absent, Absent, Absent]))
    ensures IsLine("\tret\n")
  {
    hide ParseLine, IsLine;
    WordParses("ret");
    assert "\t" + "ret" + "\n" == "\tret\n";
  }

  /** Section lines are reported as unknown mnemonics and skipped. */
  lemma {:induction false} SectionParses(line: string, kind: string)
    requires line == ".section " + kind + "\n" && (kind == ".text" || kind == ".data")
    ensures ParseLine(line) == Some(Inst(".section", [LabelOp(kind), Absent, Absent, Absent])) && IsLine(line)
    ensures FindName(".section").None?
  {
    hide FindName, NameOf, SkipSpaces, Until, SplitCommas, ParseOperand, IsLine;
    SectionSplits(line, kind);
    SectionOperand(kind);
    DotNoName(".section");
    assert OperandsOf([kind]) == [LabelOp(kind), Absent, Absent, Absent];
  }

  lemma {:induction false} SectionOperand(kind: string)
    requires kind == ".text" || kind == ".data"
    ensures ParseOperand(kind) == LabelOp(kind)
  {
    hide Atoll;
  }

  lemma {:induction false} SectionSplits(line: string, kind: string)
    requires line == ".section " + kind + "\n" && (kind == ".text" || kind == ".data")
    ensures var p := ".section " + kind;
      && SkipSpaces(Until(line, "#\r\n")) == p && ':' !in p && Until(p, " \t") == ".section"
      && SplitCommas(SkipSpaces(p[9..])) == [kind]
      && IsLine(line)
  {
    hide Until, SplitCommas;
    var p := ".section " + kind;
    assert line[..|line| - 1] == p;
    assert p == ".section" + (" " + kind) && line == p + "\n";
    assert Free(p, "#\r\n");
    UntilStop(p, "\n", "#\r\n");
    UntilStop(".section", " " + kind, " \t");
    assert p[9..] == kind;
    SplitJoined([kind]);
    assert Join([kind]) == kind;
  }

  lemma {:induction false} DotNoName(name: string)
    requires '.' in name
    ensures FindName(name).None? && Floats.FindRow(name).None?
  {
    hide NameOf, Floats.FindRow;
    if FindName(name).Some? {
      NameLetters(FindName(name).value);
    }
    Floats.NoRowNamed(name, '.');
  }

  /** A function name the assembler can keep as a label. */
  predicate PlainName(name: string) {
    name != "" && |name| < NAME_SIZE
    && forall i :: 0 <= i < |name| ==> name[i] !in "#\r\n: \t" && !IsSpace(name[i])
  }

  lemma {:induction false} LabelParses(name: string)
    requires PlainName(name)
    ensures ParseLine(name + ":\n") == Some(Label(name)) && IsLine(name + ":\n")
  {
    var line, p := name + ":\n", name + ":";
    assert line == p + "\n";
    assert Free(p, "#\r\n") && Free(p, "\n");
    UntilStop(p, "\n", "#\r\n");
    assert SkipSpaces(p) == p;
    assert p[|name|] == ':';
    UntilStop(name, ":", ": \t");
    assert line[..|line| - 1] == p;
  }

  function ParsedLines(code: seq<L.Code>): (ls: seq<Line>)
    requires L.AllNamed(code)
    ensures |ls| == |code| && forall i :: 0 <= i < |ls| ==> ls[i] == ParsedOf(code[i])
  {
    if code == [] then [] else [ParsedOf(code[0])] + ParsedLines(code[1..])
  }

  /** The parsed listing: a section, the label, the code, a section. */
  function FuncParsed(name: string, code: seq<L.Code>): seq<Line>
    requires L.AllNamed(code)
  {
    [Inst(".section", [LabelOp(".text"), Absent, Absent, Absent]), Label(name)] + ParsedLines(code)
    + [Inst(".section", [LabelOp(".data"), Absent, Absent, Absent])]
  }

  lemma {:induction false} ParseConcat(a: seq<string>, b: seq<string>)
    ensures ParseLines(a + b) ==
            if ParseLines(a).Some? && ParseLines(b).Some? then Some(ParseLines(a).value + ParseLines(b).value) else None
  {
    hide ParseLine;
    if a == [] {
      assert a + b == b;
      if ParseLines(b).Some? {
        assert [] + ParseLines(b).value == ParseLines(b).value;
      }
    } else {
      ParseConcat(a[1..], b);
      assert (a + b)[1..] == a[1..] + b;
      if ParseLines(a).Some? && ParseLines(b).Some? {
        assert ParseLines(a).value + ParseLines(b).value
            == [ParseLine(a[0]).value] + (ParseLines(a[1..]).value + ParseLines(b).value);
      }
    }
  }

  lemma {:induction false} CodeLinesParse(code: seq<L.Code>)
    requires L.AllNamed(code)
    ensures ParseLines(CodeLines(code)) == Some(ParsedLines(code))
    ensures forall i :: 0 <= i < |code| ==> IsLine(CodeLines(code)[i])
  {
    hide ParseLine, CodeLine, IsLine, ParsedOf;
    if code != [] {
      CodeLineParses(code[0]);
      CodeLinesParse(code[1..]);
    }
  }

  /** The whole text of a function parses to its parsed listing. */
  lemma {:induction false} FuncParses(name: string, code: seq<L.Code>)
    requires PlainName(name) && L.AllNamed(code)
    ensures ParseLines(LinesOf(Concat(FuncLines(name, code)))) == Some(FuncParsed(name, code))
  {
    hide ParseLine, CodeLines, ParsedLines, IsLine, PlainName;
    var lines := FuncLines(name, code);
    var head, tail := [".section .text\n", name + ":\n"], [".section .data\n"];
    SectionParses(".section .text\n", ".text");
    SectionParses(".section .data\n", ".data");
    LabelParses(name);
    CodeLinesParse(code);
    assert lines == head + CodeLines(code) + tail;
    forall i | 0 <= i < |lines|
      ensures IsLine(lines[i])
    {
      if 2 <= i < 2 + |code| {
        assert lines[i] == CodeLines(code)[i - 2];
      }
    }
    LinesOfConcat(lines);
    OneLine(tail[0]);
    TwoLines(head[0], head[1]);
    ParseConcat(head, CodeLines(code));
    ParseConcat(head + CodeLines(code), tail);
  }

  lemma {:induction false} OneLine(t: string)
    requires ParseLine(t).Some?
    ensures ParseLines([t]) == Some([ParseLine(t).value])
  {
    hide ParseLine;
    var v := ParseLine(t).value;
    assert [t][1..] == [] && ParseLines([]) == Some([]);
    assert [v] + [] == [v];
  }

  lemma {:induction false} TwoLines(t: string, u: string)
    requires ParseLine(t).Some? && ParseLine(u).Some?
    ensures ParseLines([t, u]) == Some([ParseLine(t).value, ParseLine(u).value])
  {
    hide ParseLine;
    OneLine(u);
    assert [t, u][1..] == [u];
    var v, w := ParseLine(t).value, ParseLine(u).value;
    assert [v] + [w] == [v, w];
  }
}

/** Text written and read back.

    Numbers, joined operands, and the lines of a listing: what the assembler's scanning makes
    of text that was put together from pieces. */
module Printing {
  import opened Options
  import opened Words
  import opened Isa
  import opened AsmText
  import opened Assembler

  function DigitChar(d: nat): char
    requires d < 10
  {
    ('0' as int + d) as char
  }

  function DecNat(n: nat): string {
    if n < 10 then [DigitChar(n)] else DecNat(n / 10) + [DigitChar(n % 10)]
  }

  /** Signed decimal. */
  function Dec(i: int): string {
    if i < 0 then "-" + DecNat(-i) else DecNat(i)
  }

  function RegText(n: nat): string {
    "$r" + Dec(n)
  }

  function Join(pieces: seq<string>): string {
    if pieces == [] then ""
    else if |pieces| == 1 then pieces[0]
    else pieces[0] + "," + Join(pieces[1..])
  }

  function Spaces(n: nat): string {
    if n == 0 then "" else " " + Spaces(n - 1)
  }

  // ---------- numbers ----------

  predicate AllDigits(s: string) {
    forall i :: 0 <= i < |s| ==> IsDigit(s[i])
  }

  lemma {:induction false} DecNatDigits(n: nat)
    ensures AllDigits(DecNat(n)) && |DecNat(n)| >= 1
  {
    if n >= 10 {
      DecNatDigits(n / 10);
    }
  }

  lemma {:induction false} DigitsAppend(s: string, t: string, acc: nat)
    requires AllDigits(s)
    ensures Digits(s + t, acc) == Digits(t, Digits(s, acc))
  {
    if s == [] {
      assert s + t == t;
    } else {
      assert (s + t)[1..] == s[1..] + t;
      DigitsAppend(s[1..], t, acc * 10 + (s[0] as int - '0' as int));
    }
  }

  lemma {:induction false} DigitsOfDecNat(n: nat)
    ensures Digits(DecNat(n), 0) == n
  {
    if n >= 10 {
      DigitsOfDecNat(n / 10);
      DecNatDigits(n / 10);
      DigitsAppend(DecNat(n / 10), [DigitChar(n % 10)], 0);
      assert [DigitChar(n % 10)][1..] == [];
    } else {
      assert [DigitChar(n)][1..] == [];
    }
  }

  /** Reading back a printed number gives the number. */
  lemma {:induction false} AtollOfDec(i: int)
    ensures Atoll(Dec(i)) == i
  {
    var n := if i < 0 then -i else i;
    DecNatDigits(n);
    DigitsOfDecNat(n);
    if i < 0 {
      assert Dec(i)[1..] == DecNat(n);
      assert SkipSpaces(Dec(i)) == Dec(i);
    } else {
      assert IsDigit(DecNat(n)[0]);
      assert SkipSpaces(Dec(i)) == Dec(i);
    }
  }

  lemma {:induction false} OperandOfReg(n: nat)
    ensures ParseOperand(RegText(n)) == RegOp(n)
  {
    DecNatDigits(n);
    AtollOfDec(n);
    var p := RegText(n);
    assert p[2..] == Dec(n) && IsDigit(p[2]);
  }

  lemma {:induction false} OperandOfDec(i: int)
    ensures ParseOperand(Dec(i)) == ImmOp(i)
  {
    DecNatDigits(if i < 0 then -i else i);
    AtollOfDec(i);
    var c := Dec(i)[0];
    assert IsDigit(c) || c == '-';
  }

  // ---------- scanning ----------

  /** `s` holds none of the characters of `stops`. */
  ghost predicate Free(s: string, stops: string) {
    forall i :: 0 <= i < |s| ==> s[i] !in stops
  }

  lemma {:induction false} UntilStop(s: string, t: string, stops: string)
    requires Free(s, stops) && (t == "" || t[0] in stops)
    ensures Until(s + t, stops) == s
  {
    if s == [] {
      assert s + t == t;
    } else {
      assert (s + t)[0] == s[0] && (s + t)[1..] == s[1..] + t;
      UntilStop(s[1..], t, stops);
    }
  }

  lemma {:induction false} SkipSpacesOver(n: nat, t: string)
    requires t == "" || !IsSpace(t[0])
    ensures SkipSpaces(Spaces(n) + t) == t
  {
    if n == 0 {
      assert Spaces(0) + t == t;
    } else {
      assert (Spaces(n) + t)[0] == ' ' && (Spaces(n) + t)[1..] == Spaces(n - 1) + t;
      SkipSpacesOver(n - 1, t);
    }
  }

  /** Splitting what was joined gives the pieces back. */
  lemma {:induction false} SplitJoined(pieces: seq<string>)
    requires |pieces| >= 1 && forall i :: 0 <= i < |pieces| ==> Free(pieces[i], ",")
    ensures SplitCommas(Join(pieces)) == pieces
  {
    var s := Join(pieces);
    if |pieces| == 1 {
      UntilStop(pieces[0], "", ",");
      assert pieces[0] + "" == pieces[0];
      assert pieces == [pieces[0]];
    } else {
      var rest := "," + Join(pieces[1..]);
      assert s == pieces[0] + rest;
      UntilStop(pieces[0], rest, ",");
      assert s[|pieces[0]| + 1..] == Join(pieces[1..]);
      SplitJoined(pieces[1..]);
      assert pieces == [pieces[0]] + pieces[1..];
    }
  }

  // ---------- concatenation ----------

  lemma {:induction false} SpacesFree(n: nat, stops: string)
    requires ' ' !in stops
    ensures Free(Spaces(n), stops) && |Spaces(n)| == n
  {
    if n > 0 {
      SpacesFree(n - 1, stops);
    }
  }

  lemma {:induction false} FreeConcat(s: string, t: string, stops: string)
    requires Free(s, stops) && Free(t, stops)
    ensures Free(s + t, stops)
  {
  }

  /** After the tab and up to the newline. */
  lemma {:induction false} BodyOfLine(p: string)
    requires Free(p, "#\r\n") && p != "" && !IsSpace(p[0])
    ensures SkipSpaces(Until("\t" + p + "\n", "#\r\n")) == p
  {
    FreeConcat("\t", p, "#\r\n");
    UntilStop("\t" + p, "\n", "#\r\n");
    assert ("\t" + p)[0] == '\t' && ("\t" + p)[1..] == p;
  }

  /** The bytes a line of text assembles to. */
  function BytesOf(line: string): Option<seq<byte>> {
    var l := ParseLine(line);
    if l.None? || !LineOk(l.value) then None else Some(ProcessLine(EMPTY, l.value).out)
  }

  // ---------- a printed instruction read back ----------

  /** A listing line: name, gap, operands. */
  function PrintedLine(name: string, gap: nat, ops: string): string {
    "\t" + name + Spaces(gap) + ops + "\n"
  }

  /** A printed line comes apart at its gap. */
  lemma {:induction false} PrintedParts(name: string, gap: nat, ops: string)
    requires name != "" && gap > 0 && (forall i :: 0 <= i < |name| ==> IsNameLetter(name[i]))
    requires Free(ops, "#\r\n:") && (ops == "" || !IsSpace(ops[0]))
    ensures var p := name + Spaces(gap) + ops;
      && SkipSpaces(Until(PrintedLine(name, gap, ops), "#\r\n")) == p && p != "" && ':' !in p
      && Until(p, " \t") == name && |name| < |p| && SkipSpaces(p[|name| + 1..]) == ops
  {
    hide SkipSpaces, Until, Spaces;
    var sp := Spaces(gap);
    SpacesFree(gap, "#\r\n:");
    GapStarts(gap);
    var p := name + sp + ops;
    assert p == name + (sp + ops);
    NameFreeOf(name);
    FreeConcat(name, sp, "#\r\n:");
    FreeConcat(name + sp, ops, "#\r\n:");
    assert Free(p, "#\r\n") && ':' !in p;
    assert PrintedLine(name, gap, ops) == "\t" + p + "\n";
    BodyOfLine(p);
    UntilStop(name, sp + ops, " \t");
    assert p[|name| + 1..] == (sp + ops)[1..] == sp[1..] + ops;
    SkipSpacesOver(gap - 1, ops);
  }

  lemma {:induction false} GapStarts(n: nat)
    requires n > 0
    ensures Spaces(n) != "" && Spaces(n)[0] == ' ' && Spaces(n)[1..] == Spaces(n - 1)
  {
  }

  lemma {:induction false} NameFreeOf(name: string)
    requires forall i :: 0 <= i < |name| ==> IsNameLetter(name[i])
    ensures Free(name, "#\r\n:") && Free(name, " \t")
  {
  }

  lemma {:induction false} LabelOperandsFit(pieces: seq<string>)
    ensures forall i :: 0 <= i < |pieces| && ParseOperand(pieces[i]).LabelOp?
              ==> ParseOperand(pieces[i]).name == pieces[i]
  {
  }

  /** A text that passes through line and comma splitting unharmed. */
  ghost predicate GoodPiece(s: string) {
    Free(s, "#\r\n:") && Free(s, ",") && |s| < NAME_SIZE && (s == "" || !IsSpace(s[0]))
  }

  ghost predicate GoodPieces(pieces: seq<string>) {
    && 1 <= |pieces| <= 4 && (forall i :: 0 <= i < |pieces| ==> GoodPiece(pieces[i]))
    && (pieces[0] == "" ==> |pieces| == 1)
  }

  /** The operand slots a list of pieces fills. */
  function OperandsOf(pieces: seq<string>): seq<Operand> {
    seq(4, i requires 0 <= i < 4 => if i < |pieces| then ParseOperand(pieces[i]) else Absent)
  }

  /** What the assembler makes of a printed line. */
  lemma {:induction false} ParsePieces(name: string, gap: nat, pieces: seq<string>)
    requires name != "" && gap > 0 && (forall i :: 0 <= i < |name| ==> IsNameLetter(name[i])) && GoodPieces(pieces)
    ensures ParseLine(PrintedLine(name, gap, Join(pieces))) == Some(Inst(name, OperandsOf(pieces)))
  {
    hide Free, SplitCommas, ParseOperand, PrintedLine, SkipSpaces, Until, Join, Spaces;
    assert forall i :: 0 <= i < |pieces| ==> GoodPiece(pieces[i]);
    SplitJoined(pieces);
    JoinFree(pieces, "#\r\n:");
    JoinStarts(pieces);
    PrintedParts(name, gap, Join(pieces));
    LabelOperandsFit(pieces);
  }

  lemma {:induction false} JoinFree(pieces: seq<string>, stops: string)
    requires ',' !in stops && forall i :: 0 <= i < |pieces| ==> Free(pieces[i], stops)
    ensures Free(Join(pieces), stops)
  {
    if |pieces| > 1 {
      JoinFree(pieces[1..], stops);
    }
  }

  lemma {:induction false} JoinStarts(pieces: seq<string>)
    requires |pieces| >= 1 && (pieces[0] == "" ==> |pieces| == 1)
    ensures pieces[0] == "" ==> Join(pieces) == ""
    ensures pieces[0] != "" ==> Join(pieces) != "" && Join(pieces)[0] == pieces[0][0]
  {
  }

  /** Printed text and the bytes it assembles to. */
  lemma {:induction false} BytesOfPieces(m: Mnemonic, gap: nat, pieces: seq<string>, ops: Ops)
    requires gap > 0 && GoodPieces(pieces)
    requires forall i :: 0 <= i < 4 ==> ops[i] == if i < |pieces| then ParseOperand(pieces[i]) else Absent
    ensures ParseLine(PrintedLine(NameOf(m), gap, Join(pieces))) == Some(Inst(NameOf(m), ops))
    ensures BytesOf(PrintedLine(NameOf(m), gap, Join(pieces))) == Some(Encode(m, ops))
  {
    hide NameOf, ParseLine, ParseOperand, Encode, FindName, Join, PrintedLine, GoodPieces;
    NameLength(m);
    NameLetters(m);
    ParsePieces(NameOf(m), gap, pieces);
    assert OperandsOf(pieces) == ops;
    FindNameRecovers(m);
    assert EMPTY.out + Encode(m, ops) == Encode(m, ops);
  }

  // ---------- texts of several lines ----------

  function Concat(lines: seq<string>): string {
    if lines == [] then "" else lines[0] + Concat(lines[1..])
  }

  /** A line of text: something without a newline, and a newline. */
  ghost predicate IsLine(line: string) {
    line != "" && line[|line| - 1] == '\n' && Free(line[..|line| - 1], "\n")
  }

  /** Lines put together come apart again. */
  lemma {:induction false} LinesOfConcat(lines: seq<string>)
    requires forall i :: 0 <= i < |lines| ==> IsLine(lines[i])
    ensures LinesOf(Concat(lines)) == lines
  {
    if lines != [] {
      var line, rest, text := lines[0], Concat(lines[1..]), Concat(lines);
      var body := line[..|line| - 1];
      assert IsLine(line);
      assert line == body + "\n" && text == body + ("\n" + rest);
      UntilStop(body, "\n" + rest, "\n");
      assert text[..|body| + 1] == line && text[|body| + 1..] == rest;
      LinesOfConcat(lines[1..]);
    }
  }

  /** The bytes of the lines one by one, in order. */
  function BytesOfLines(texts: seq<string>): Option<seq<byte>> {
    if texts == [] then Some([])
    else
      var h, t := BytesOf(texts[0]), BytesOfLines(texts[1..]);
      if h.None? || t.None? then None else Some(h.value + t.value)
  }

  /** Lines are assembled independently of each other. */
  lemma {:induction false} AssemblesLineByLine(texts: seq<string>)
    ensures var ls := ParseLines(texts);
      && (ls.None? <==> BytesOfLines(texts).None?)
      && (ls.Some? ==> LinesOk(ls.value) && AssembleTo(ls.value, |ls.value|).out == BytesOfLines(texts).value)
  {
    hide ParseLine, ProcessLine;
    if texts != [] {
      AssemblesLineByLine(texts[1..]);
      var ls := ParseLines(texts);
      if ls.Some? {
        AssemblePrefixed(ls.value[0], ls.value[1..], |texts| - 1);
        assert ls.value == [ls.value[0]] + ls.value[1..];
      }
    }
  }

  lemma {:induction false} AssemblePrefixed(l: Line, ls: seq<Line>, n: nat)
    requires LineOk(l) && LinesOk(ls) && n <= |ls|
    ensures LinesOk([l] + ls)
    ensures AssembleTo([l] + ls, n + 1).out == ProcessLine(EMPTY, l).out + AssembleTo(ls, n).out
  {
    hide FindName, Encode;
    var all := [l] + ls;
    assert forall i :: 0 <= i < |all| ==> all[i] == if i == 0 then l else ls[i - 1];
    if n == 0 {
      assert AssembleTo(all, 1) == ProcessLine(EMPTY, l);
    } else {
      AssemblePrefixed(l, ls, n - 1);
      var a, b := AssembleTo(all, n), AssembleTo(ls, n - 1);
      assert all[n] == ls[n - 1];
      OutputAppended(a, ls[n - 1]);
      OutputAppended(b, ls[n - 1]);
    }
  }

  lemma {:induction false} OutputAppended(st: Asm, l: Line)
    requires LineOk(l)
    ensures ProcessLine(st, l).out == st.out + ProcessLine(EMPTY, l).out
  {
    hide FindName, Encode;
  }
}

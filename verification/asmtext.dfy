/** The text the assembler reads.

    Lines, operands, conditions, and decimal numbers. */
module AsmText {
  import opened Options
  import opened Words
  import opened Isa

  /** An operand as parsed; `Absent` is the zeroed slot of an operand not written. */
  datatype Operand =
    | Absent | RegOp(i: int) | FloatOp(i: int) | VectorOp(i: int) | ControlOp(i: int) | TileOp(i: int)
    | ImmOp(i: int) | LabelOp(name: string) | CondOp(bits: nat)

  /** Characters end in a NUL. */
  function CharAt(s: string, k: nat): char {
    if k < |s| then s[k] else '\0'
  }

  predicate IsSpace(c: char) {
    c == ' ' || c == '\t' || c == '\n' || c == '\r' || c == 11 as char || c == 12 as char
  }

  predicate IsDigit(c: char) {
    '0' <= c <= '9'
  }

  function SkipSpaces(s: string): string {
    if s != [] && IsSpace(s[0]) then SkipSpaces(s[1..]) else s
  }

  /** The number the leading digits of `s` spell, after `acc`. */
  function Digits(s: string, acc: nat): nat {
    if s != [] && IsDigit(s[0]) then Digits(s[1..], acc * 10 + (s[0] as int - '0' as int)) else acc
  }

  /** Decimal conversion: leading space, an optional sign, digits. */
  function Atoll(s: string): int {
    var t := SkipSpaces(s);
    if CharAt(t, 0) == '-' then 0 - Digits(t[1..], 0)
    else if CharAt(t, 0) == '+' then Digits(t[1..], 0)
    else Digits(t, 0)
  }

  /** A condition letter, if it comes next. */
  function Eat(s: string, c: char): string {
    if CharAt(s, 0) == c && s != [] then s[1..] else s
  }

  predicate Has(s: string, c: char) {
    s != [] && s[0] == c
  }

  /** The condition after `?`: each letter at most once, in this order. */
  function ParseCond(s0: string): (bits: nat)
    ensures bits < 16
  {
    var s1 := Eat(s0, '!');
    var s2 := Eat(s1, 'n');
    var s3 := Eat(s2, 'z');
    var s4 := Eat(s3, 'c');
    var s5 := Eat(s4, 'g');
    var s6 := Eat(s5, 'l');
    (if Has(s0, '!') || Has(s4, 'g') then 1 else 0)
    + (if Has(s1, 'n') then 2 else 0)
    + (if Has(s2, 'z') || Has(s4, 'g') || Has(s6, 'e') then 4 else 0)
    + (if Has(s3, 'c') || Has(s4, 'g') || Has(s5, 'l') then 8 else 0)
  }

  /** `c` if `b`. */
  function Letter(b: bool, c: char): string {
    if b then [c] else ""
  }

  /** Conditions spelled letter by letter: every subset of the four, in their order, is its bits, and the
      three shorthands stand for sets of them. */
  lemma {:induction false} CondSpelled(inv: bool, n: bool, z: bool, c: bool)
    ensures ParseCond(Letter(inv, '!') + Letter(n, 'n') + Letter(z, 'z') + Letter(c, 'c'))
            == (if inv then 1 else 0) + (if n then 2 else 0) + (if z then 4 else 0) + (if c then 8 else 0)
  {
    var s3 := Letter(c, 'c');
    var s2 := Letter(z, 'z') + s3;
    var s1 := Letter(n, 'n') + s2;
    var s0 := Letter(inv, '!') + s1;
    assert Letter(inv, '!') + Letter(n, 'n') + Letter(z, 'z') + Letter(c, 'c') == s0;
    assert s3 == s3 + "";
    hide Letter, Eat, Has;
    EatLetter(c, 'c', "");
    EatLetter(z, 'z', s3);
    EatLetter(n, 'n', s2);
    EatLetter(inv, '!', s1);
    NothingLeft(c);
  }

  lemma {:induction false} EatLetter(b: bool, c: char, rest: string)
    requires rest == "" || rest[0] != c
    ensures Eat(Letter(b, c) + rest, c) == rest && (Has(Letter(b, c) + rest, c) <==> b)
    ensures rest != "" || b ==> (Letter(b, c) + rest)[0] == if b then c else rest[0]
  {
    assert "" + rest == rest && ([c] + rest)[1..] == rest;
  }

  lemma {:induction false} NothingLeft(c: bool)
    ensures !Has("", 'g') && Eat("", 'g') == "" && Eat("", 'l') == "" && !Has("", 'l') && !Has("", 'e')
  {
  }

  /** `g` is neither carry nor zero, `l` carry, `e` zero. */
  lemma {:induction false} CondShorthand()
    ensures ParseCond("g") == 13 && ParseCond("l") == 8 && ParseCond("e") == 4 && ParseCond("le") == 12
  {
    assert "le"[1..] == "e" && "g"[1..] == "" && "l"[1..] == "" && "e"[1..] == "";
  }

  function ParseOperand(p: string): Operand {
    var c0, c1, c2 := CharAt(p, 0), CharAt(p, 1), CharAt(p, 2);
    if c0 == '$' && c1 == 'c' && c2 == 'r' then ControlOp(Atoll(p[3..]))
    else if c0 == '$' && c1 == 't' && c2 == 'm' then TileOp(Atoll(p[3..]))
    else if c0 == '?' then CondOp(ParseCond(p[1..]))
    else if c0 == '$' && c1 == 's' && c2 == 'p' then RegOp(14)
    else if c0 == '$' && c1 == 'b' && c2 == 'p' then RegOp(13)
    else if c0 == '$' && c1 == 't' && c2 == 'p' then RegOp(15)
    else if c0 == '$' && c1 == 'r' && c2 == 'a' then RegOp(12)
    else if c0 == '$' && c1 == 't' then RegOp(Atoll(p[2..]))
    else if c0 == '$' && c1 == 'a' then RegOp(Atoll(p[2..]) + 8)
    else if c0 == '$' && c1 == 'r' then RegOp(Atoll(p[2..]))
    else if c0 == '$' && c1 == 'v' then VectorOp(Atoll(p[2..]))
    else if c0 == '$' && c1 == 'f' then FloatOp(Atoll(p[2..]))
    else if IsDigit(c0) || c0 == '-' then ImmOp(Atoll(p))
    else LabelOp(p)
  }

  // ---------- lines ----------

  /** The prefix before the first character of `stops`. */
  function Until(s: string, stops: string): (r: string)
    ensures r <= s
  {
    if s == [] || s[0] in stops then [] else [s[0]] + Until(s[1..], stops)
  }

  /** The pieces between commas. */
  function SplitCommas(s: string): (r: seq<string>)
    ensures |r| >= 1
  {
    var h := Until(s, ",");
    if |h| == |s| then [s] else [h] + SplitCommas(s[|h| + 1..])
  }

  datatype Line = Blank | Label(name: string) | Inst(name: string, ops: seq<Operand>)

  const NAME_SIZE: nat := 16

  /** The parsed form of a line. `None` is a line that overruns the program's fixed buffers:
      over four operands, or a label name of sixteen characters or more. */
  function ParseLine(text: string): (r: Option<Line>)
    ensures r.Some? && r.value.Inst? ==> |r.value.ops| == 4
  {
    var p := SkipSpaces(Until(text, "#\r\n"));
    if p == "" then Some(Blank)
    else if ':' in p then
      var name := Until(p, ": \t");
      if |name| < NAME_SIZE then Some(Label(name)) else None
    else
      var mem := Until(p, " \t");
      if |mem| == |p| then Some(Inst(p, [Absent, Absent, Absent, Absent]))
      else
        var pieces := SplitCommas(SkipSpaces(p[|mem| + 1..]));
        if |pieces| > 4 then None
        else
          var ops := seq(4, i requires 0 <= i < 4 => if i < |pieces| then ParseOperand(pieces[i]) else Absent);
          if exists i :: 0 <= i < 4 && ops[i].LabelOp? && |ops[i].name| >= NAME_SIZE then None
          else Some(Inst(mem, ops))
  }

  /** The lines of a text, each with its newline; an empty rest is no line. */
  function LinesOf(text: string): seq<string> {
    if text == "" then []
    else
      var h := Until(text, "\n");
      if |h| == |text| then [text] else [text[..|h| + 1]] + LinesOf(text[|h| + 1..])
  }

  /** The parsed lines, unless one of them overruns a buffer. */
  function ParseLines(texts: seq<string>): (r: Option<seq<Line>>)
    ensures r.Some? ==> |r.value| == |texts|
  {
    if texts == [] then Some([])
    else
      var l, rest := ParseLine(texts[0]), ParseLines(texts[1..]);
      if l.None? || rest.None? then None else Some([l.value] + rest.value)
  }
}

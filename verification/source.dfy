/** The whole chain.

    Source text to tokens, tree, code, listing, bytes and result. */
module Source {
  import opened Options
  import opened Ast
  import opened Grammar
  import Coalesce
  import Descent
  import Lexer
  import AsmText
  import Printing
  import Machine
  import Emission
  import Ssa
  import Assembler
  import Toolchain
  import opened Calling
  import L = Lower
  import C = Compiler

  // ---------- tokens as the parser sees them ----------

  function OperatorOf(e: string): Option<BinKind> {
    match e
    case "*" => Some(Arith(Ssa.Mul))
    case "/" => Some(Arith(Ssa.Div))
    case "%" => Some(Arith(Ssa.Rem))
    case "-" => Some(Arith(Ssa.Sub))
    case "+" => Some(Arith(Ssa.Add))
    case "<<" => Some(Arith(Ssa.LShift))
    case ">>" => Some(Arith(Ssa.RShift))
    case "&" => Some(Arith(Ssa.And))
    case "^" => Some(Arith(Ssa.Xor))
    case "|" => Some(Arith(Ssa.Or))
    case "<=" => Some(CondLte)
    case ">=" => Some(CondGte)
    case "<" => Some(CondLt)
    case ">" => Some(CondGt)
    case "==" => Some(CondEq)
    case "!=" => Some(CondNeq)
    case "&&" => Some(CondAnd)
    case "||" => Some(CondOr)
    case "=" => Some(Assign)
    case _ => None
  }

  function TokOf(l: Lexer.Lexeme): Tok {
    match l.kind
    case Word => Ident(l.text)
    case Number => Literal(AsmText.Atoll(l.text))
    case Keyword(e) => if e == "return" then KwReturn else Other
    case Punct(e) =>
      if OperatorOf(e).Some? then Operator(OperatorOf(e).value)
      else if e == "?" then QMark
      else if e == ":" then Colon
      else if e == ";" then Semi
      else if e == "{" then LBrace
      else if e == "}" then RBrace
      else Other
  }

  /** The tokens of a text. */
  function TokensOf(text: string): (toks: seq<Tok>)
    ensures |toks| == |Lexer.Lex(text)|
  {
    var ts := Lexer.Lex(text);
    seq(|ts|, i requires 0 <= i < |ts| => TokOf(Lexer.LexemeOf(text, ts[i])))
  }

  // ---------- tokens written ----------

  function OperatorText(b: BinKind): string {
    match b
    case Assign => "="
    case CondEq => "=="
    case CondNeq => "!="
    case CondGt => ">"
    case CondLt => "<"
    case CondGte => ">="
    case CondLte => "<="
    case CondAnd => "&&"
    case CondOr => "||"
    case CondXor => "^^"
    case Arith(op) =>
      match op
      case Add => "+"
      case Sub => "-"
      case Mul => "*"
      case Div => "/"
      case Rem => "%"
      case And => "&"
      case Xor => "^"
      case Or => "|"
      case LShift => "<<"
      case RShift => ">>"
  }

  function LexemeFor(tok: Tok): Lexer.Lexeme {
    match tok
    case Ident(name) => Lexer.Lexeme(Lexer.Word, name)
    case Literal(v) => Lexer.Lexeme(Lexer.Number, Printing.Dec(v))
    case Operator(b) => Lexer.Lexeme(Lexer.Punct(OperatorText(b)), OperatorText(b))
    case QMark => Lexer.Lexeme(Lexer.Punct("?"), "?")
    case Colon => Lexer.Lexeme(Lexer.Punct(":"), ":")
    case Semi => Lexer.Lexeme(Lexer.Punct(";"), ";")
    case LBrace => Lexer.Lexeme(Lexer.Punct("{"), "{")
    case RBrace => Lexer.Lexeme(Lexer.Punct("}"), "}")
    case KwReturn => Lexer.Lexeme(Lexer.Keyword("return"), "return")
    case _ => Lexer.Lexeme(Lexer.Word, "")
  }

  /** Tokens that can be written: words that are no keyword, numbers without sign. */
  predicate Writable(tok: Tok) {
    match tok
    case Ident(name) => Lexer.Lexable(Lexer.Lexeme(Lexer.Word, name))
    case Literal(v) => v >= 0
    case Operator(b) => !b.CondXor?
    case Nothing => false
    case Other => false
    case _ => true
  }

  predicate AllWritable(toks: seq<Tok>) {
    forall i :: 0 <= i < |toks| ==> Writable(toks[i])
  }

  /** The tokens written, each with its gap after it. */
  function SourceOf(toks: seq<Tok>, gaps: seq<string>): string
    requires |gaps| == |toks|
  {
    Lexer.Spell(seq(|toks|, i requires 0 <= i < |toks| => LexemeFor(toks[i])), gaps)
  }

  lemma {:induction false} OperatorsListed(b: BinKind)
    requires !b.CondXor?
    ensures OperatorText(b) in Lexer.PUNCTS && OperatorOf(OperatorText(b)) == Some(b)
  {
    hide Lexer.PUNCTS1, Lexer.PUNCTS2, Lexer.PUNCTS3, Lexer.ASSIGNS2, Lexer.BRACKETS1;
    OperatorPlaces(b);
  }

  lemma {:induction false} OperatorPlaces(b: BinKind)
    requires !b.CondXor?
    ensures OperatorText(b) in Lexer.PUNCTS2 || OperatorText(b) in Lexer.ASSIGNS2
            || OperatorText(b) in Lexer.PUNCTS1 || OperatorText(b) in Lexer.BRACKETS1
  {
  }

  lemma {:induction false} MarksListed()
    ensures "?" in Lexer.PUNCTS && ":" in Lexer.PUNCTS && ";" in Lexer.PUNCTS && "{" in Lexer.PUNCTS
    ensures "}" in Lexer.PUNCTS
    ensures "return" in Lexer.KEYWORDS
  {
    assert "?" in Lexer.PUNCTS1 && ":" in Lexer.PUNCTS1;
    assert ";" in Lexer.BRACKETS1 && "{" in Lexer.BRACKETS1 && "}" in Lexer.BRACKETS1;
    assert "return" in Lexer.KEYWORDS6;
    hide Lexer.PUNCTS1, Lexer.PUNCTS2, Lexer.PUNCTS3, Lexer.ASSIGNS2, Lexer.BRACKETS1;
    hide Lexer.KEYWORDS11, Lexer.KEYWORDS9, Lexer.KEYWORDS8, Lexer.KEYWORDS7, Lexer.KEYWORDS6, Lexer.KEYWORDS5,
         Lexer.KEYWORDS4, Lexer.KEYWORDS3;
  }

  lemma {:induction false} TokReadBack(tok: Tok)
    requires Writable(tok)
    ensures Lexer.Lexable(LexemeFor(tok)) && TokOf(LexemeFor(tok)) == tok
  {
    hide Lexer.PUNCTS, Lexer.KEYWORDS, OperatorText;
    MarksListed();
    match tok
    case Literal(v) =>
      Printing.DecNatDigits(v);
      Printing.AtollOfDec(v);
    case Operator(b) => OperatorsListed(b);
    case _ =>
  }

  /** Tokens written out, with any whitespace after each, are read back. */
  lemma {:induction false} TokensReadBack(toks: seq<Tok>, gaps: seq<string>)
    requires AllWritable(toks) && Lexer.Blanks(gaps, |toks|)
    ensures TokensOf(SourceOf(toks, gaps)) == toks
  {
    hide Writable, LexemeFor, TokOf, Lexer.Lexable, Lexer.Lex, Lexer.Spell, Lexer.Blank;
    var ls := seq(|toks|, i requires 0 <= i < |toks| => LexemeFor(toks[i]));
    var text := SourceOf(toks, gaps);
    forall i | 0 <= i < |toks|
      ensures Lexer.Lexable(ls[i]) && TokOf(ls[i]) == toks[i]
    {
      TokReadBack(toks[i]);
    }
    assert "" + Lexer.Spell(ls, gaps) == text;
    Lexer.LexReadsBack("", ls, gaps);
  }

  // ---------- bodies written ----------

  /** Every name is a word that is no keyword, every literal a number without sign. */
  predicate Nameable(t: Tree)
    decreases t
  {
    && (t.kind.RefVar? ==> Writable(Ident(t.kind.varName)))
    && (t.kind.LiteralInteger? ==> t.kind.value >= 0)
    && (t.kind.Binop? ==> !t.kind.bin.CondXor?)
    && forall i :: 0 <= i < |t.kids| ==> Nameable(t.kids[i])
  }

  lemma {:induction false} ConcatWritable(a: seq<Tok>, b: seq<Tok>)
    requires AllWritable(a) && AllWritable(b)
    ensures AllWritable(a + b)
  {
  }

  lemma {:induction false} RenderWritable(t: Tree)
    requires Nameable(t)
    ensures AllWritable(Render(t))
    decreases t
  {
    hide AllWritable;
    match t.kind
    case Binop(b) =>
      if |t.kids| == 2 {
        RenderWritable(t.kids[0]);
        RenderWritable(t.kids[1]);
        OneWritable(Operator(b));
        ConcatWritable(Render(t.kids[0]), [Operator(b)]);
        ConcatWritable(Render(t.kids[0]) + [Operator(b)], Render(t.kids[1]));
      } else {
        NoneWritable();
      }
    case If =>
      if |t.kids| == 3 {
        var c, x, y := Render(t.kids[0]), Render(t.kids[1]), Render(t.kids[2]);
        RenderWritable(t.kids[0]);
        RenderWritable(t.kids[1]);
        RenderWritable(t.kids[2]);
        OneWritable(QMark);
        OneWritable(Colon);
        ConcatWritable(c, [QMark]);
        ConcatWritable(c + [QMark], x);
        ConcatWritable(c + [QMark] + x, [Colon]);
        ConcatWritable(c + [QMark] + x + [Colon], y);
      } else {
        NoneWritable();
      }
    case RefVar(name) => OneWritable(Ident(name));
    case LiteralInteger(v) => OneWritable(Literal(v));
    case _ => NoneWritable();
  }

  lemma {:induction false} OneWritable(tok: Tok)
    requires Writable(tok)
    ensures AllWritable([tok])
  {
  }

  lemma {:induction false} NoneWritable()
    ensures AllWritable([])
  {
  }

  lemma {:induction false} JumpsWritable(ts: seq<Tree>)
    requires FitsJumps(LEVELS, ts) && forall i :: 0 <= i < |ts| ==> Nameable(ts[i])
    ensures AllWritable(RenderJumps(LEVELS, ts))
    decreases ts
  {
    hide AllWritable, Nameable, FitsJump, LEVELS, Writable;
    if ts == [] {
      NoneWritable();
    } else {
      assert FitsJump(LEVELS, ts[0]);
      OneKid(LEVELS, ts[0]);
      JumpWritable(ts[0]);
      JumpsWritable(ts[1..]);
      ConcatWritable(RenderJump(ts[0]), RenderJumps(LEVELS, ts[1..]));
    }
  }

  lemma {:induction false} JumpWritable(t: Tree)
    requires |t.kids| == 1 && Nameable(t)
    ensures AllWritable(RenderJump(t))
  {
    hide AllWritable, Render;
    RenderWritable(t.kids[0]);
    OneWritable(KwReturn);
    OneWritable(Semi);
    ConcatWritable([KwReturn], Render(t.kids[0]));
    ConcatWritable([KwReturn] + Render(t.kids[0]), [Semi]);
  }

  /** The tokens of a function body. */
  function BodyTokens(ts: seq<Tree>): seq<Tok>
    requires FitsJumps(LEVELS, ts)
  {
    [LBrace] + RenderJumps(LEVELS, ts) + [RBrace]
  }

  /** A body written out, with any whitespace between its tokens, tokenized and parsed is that body. */
  lemma {:induction false} BodyReadBack(ts: seq<Tree>, gaps: seq<string>)
    requires FitsJumps(LEVELS, ts) && forall i :: 0 <= i < |ts| ==> Nameable(ts[i])
    requires Lexer.Blanks(gaps, |BodyTokens(ts)|)
    ensures var toks := TokensOf(SourceOf(BodyTokens(ts), gaps));
      ParseBody(LEVELS, toks, 0) == Ok(ts, |toks|)
  {
    hide LEVELS, Nameable, FitsJumps, TokensOf, SourceOf, AllWritable, ParseBody, Lexer.Blank;
    var toks := BodyTokens(ts);
    JumpsWritable(ts);
    OneWritable(LBrace);
    OneWritable(RBrace);
    ConcatWritable([LBrace], RenderJumps(LEVELS, ts));
    ConcatWritable([LBrace] + RenderJumps(LEVELS, ts), [RBrace]);
    TokensReadBack(toks, gaps);
    LevelsDistinct();
    assert toks[0..|toks|] == toks;
    BodyParsesExactly(LEVELS, toks, 0, ts, |toks|);
  }

  // ---------- the compiler ----------

  /** The compiler's stages on the body of a function, one after the other. */
  method CompileText(text: string, params: seq<string>, compared: nat, fixed: L.Policy)
      returns (code: Option<seq<L.Code>>)
    requires Lexer.Ends(text) && compared <= Ssa.MAX_ARGS
    ensures var body := ParseBody(LEVELS, TokensOf(text), 0);
      code == if body.Ok? then CodeOf(Descent.BodyTree(body.value), params, compared, fixed) else None
  {
    hide LEVELS, TokOf, ParseBody, Lexer.Lex, Lexer.Ends, C.Frontend, L.LowerTo;
    var ts := Lexer.Tokenize(text);
    var toks := seq(|ts|, i requires 0 <= i < |ts| => TokOf(Lexer.LexemeOf(text, ts[i])));
    assert toks == TokensOf(text);
    var arena := new Coalesce.Arena();
    var parsing := new Descent.Parsing(toks, LEVELS, arena);
    var out, root := parsing.Body();
    if !out.Parsed? {
      return None;
    }
    ghost var t := Descent.BodyTree(ParseBody(LEVELS, toks, 0).value);
    code := C.CompileFunc(Graph(arena.nodes, arena.arrays), root, t, params, compared, fixed);
  }

  /** From source text to result: whatever text parses to a body the compiler handles is compiled to
      code whose listing, assembled, loaded and called, returns the value of the body's first
      return to the caller. */
  lemma {:induction false} TextToResult(host: Machine.Host, s: Machine.Core, text: string, params: seq<string>,
                                        compared: nat, fixed: L.Policy, name: string)
    requires ParseBody(LEVELS, TokensOf(text), 0).Ok?
    requires var t := Descent.BodyTree(ParseBody(LEVELS, TokensOf(text), 0).value);
      C.Compilable(t, params, compared) && L.CoversAbi(fixed) && FitsMachine(t, params, compared, fixed)
    requires Toolchain.PlainName(name) && Machine.CoreOk(s)
    ensures RunsAsWritten(host, s, Descent.BodyTree(ParseBody(LEVELS, TokensOf(text), 0).value),
                          params, compared, fixed, name)
  {
    hide LEVELS, TokensOf, ParseBody, RunsAsWritten, C.Compilable, FitsMachine, Descent.BodyTree;
    SourceToResult(host, s, Descent.BodyTree(ParseBody(LEVELS, TokensOf(text), 0).value),
                   params, compared, fixed, name);
  }

  /** In particular the text of every body whose names and literals can be written, however it is spaced. */
  lemma {:induction false} WrittenToResult(host: Machine.Host, s: Machine.Core, ts: seq<Tree>, gaps: seq<string>,
                                           params: seq<string>, compared: nat, fixed: L.Policy, name: string)
    requires FitsJumps(LEVELS, ts) && forall i :: 0 <= i < |ts| ==> Nameable(ts[i])
    requires Lexer.Blanks(gaps, |BodyTokens(ts)|)
    requires var t := Descent.BodyTree(ts);
      C.Compilable(t, params, compared) && L.CoversAbi(fixed) && FitsMachine(t, params, compared, fixed)
    requires Toolchain.PlainName(name) && Machine.CoreOk(s)
    ensures ParseBody(LEVELS, TokensOf(SourceOf(BodyTokens(ts), gaps)), 0).Ok?
    ensures ParseBody(LEVELS, TokensOf(SourceOf(BodyTokens(ts), gaps)), 0).value == ts
    ensures RunsAsWritten(host, s, Descent.BodyTree(ts), params, compared, fixed, name)
  {
    hide LEVELS, Nameable, FitsJumps, TokensOf, SourceOf, BodyTokens, ParseBody, RunsAsWritten, C.Compilable,
         FitsMachine, Descent.BodyTree;
    BodyReadBack(ts, gaps);
    TextToResult(host, s, SourceOf(BodyTokens(ts), gaps), params, compared, fixed, name);
  }
}

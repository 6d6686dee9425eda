/** The tokenizer's vocabulary, listed.

    Keywords and punctuators in the order of the language, and the classes of the seven-bit
    characters, against the tables and tests of the tokenizer. */
module Vocabulary {
  import opened Options
  import opened Lexer

  const WORDS_A: seq<string> := ["alignas", "alignof", "auto", "bool", "break", "case", "char", "const", "constexpr"]
  const WORDS_C: seq<string> := ["continue", "default", "do", "double", "else", "enum", "extern", "false", "float"]
  const WORDS_F: seq<string> := ["for", "goto", "if", "inline", "int", "long", "nullptr", "register", "restrict"]
  const WORDS_R: seq<string> := ["return", "short", "signed", "sizeof", "static", "static_assert", "struct", "switch"]
  const WORDS_T: seq<string> := ["thread_local", "true", "typedef", "typeof", "typeof_unqual", "union", "unsigned"]
  const WORDS_V: seq<string> := ["void", "volatile", "while", "_Alignas", "_Alignof", "_Atomic", "_BitInt", "_Bool"]
  const WORDS_X: seq<string> := [
    "_Complex", "_Decimal128", "_Decimal32", "_Decimal64", "_Generic", "_Imaginary", "_Noreturn", "_Static_assert",
    "_Thread_local"
  ]

  /** The reserved words of C, old spellings included, in alphabetical order. */
  const RESERVED: seq<string> := WORDS_A + WORDS_C + WORDS_F + WORDS_R + WORDS_T + WORDS_V + WORDS_X

  ghost predicate AllIn(a: seq<string>, b: seq<string>) {
    forall e :: e in a ==> e in b
  }

  lemma {:induction false} Reserved11()
    ensures AllIn(KEYWORDS11, WORDS_R + WORDS_T + WORDS_X)
  {
  }

  lemma {:induction false} Reserved9()
    ensures AllIn(KEYWORDS9, WORDS_A + WORDS_X)
  {
  }

  lemma {:induction false} Reserved8()
    ensures AllIn(KEYWORDS8, WORDS_C + WORDS_F + WORDS_T + WORDS_V + WORDS_X)
  {
  }

  lemma {:induction false} Reserved7()
    ensures AllIn(KEYWORDS7, WORDS_A + WORDS_C + WORDS_F + WORDS_T + WORDS_V)
  {
  }

  lemma {:induction false} Reserved6()
    ensures AllIn(KEYWORDS6, WORDS_C + WORDS_F + WORDS_R + WORDS_T)
  {
  }

  lemma {:induction false} Reserved5()
    ensures AllIn(KEYWORDS5, WORDS_A + WORDS_C + WORDS_R + WORDS_T + WORDS_V)
  {
  }

  lemma {:induction false} Reserved4()
    ensures AllIn(KEYWORDS4, WORDS_A + WORDS_C + WORDS_F + WORDS_T + WORDS_V)
  {
  }

  lemma {:induction false} Reserved3()
    ensures AllIn(KEYWORDS3, WORDS_C + WORDS_F)
  {
  }

  lemma {:induction false} WordsA()
    ensures AllIn(WORDS_A, KEYWORDS9 + KEYWORDS7 + KEYWORDS5 + KEYWORDS4)
  {
  }

  lemma {:induction false} WordsC()
    ensures AllIn(WORDS_C, KEYWORDS8 + KEYWORDS7 + KEYWORDS6 + KEYWORDS5 + KEYWORDS4 + KEYWORDS3)
  {
  }

  lemma {:induction false} WordsF()
    ensures AllIn(WORDS_F, KEYWORDS8 + KEYWORDS7 + KEYWORDS6 + KEYWORDS4 + KEYWORDS3)
  {
  }

  lemma {:induction false} WordsR()
    ensures AllIn(WORDS_R, KEYWORDS11 + KEYWORDS6 + KEYWORDS5)
  {
  }

  lemma {:induction false} WordsT()
    ensures AllIn(WORDS_T, KEYWORDS11 + KEYWORDS8 + KEYWORDS7 + KEYWORDS6 + KEYWORDS5 + KEYWORDS4)
  {
  }

  lemma {:induction false} WordsV()
    ensures AllIn(WORDS_V, KEYWORDS8 + KEYWORDS7 + KEYWORDS5 + KEYWORDS4)
  {
  }

  lemma {:induction false} WordsX()
    ensures AllIn(WORDS_X, KEYWORDS11 + KEYWORDS9 + KEYWORDS8)
  {
  }

  /** The keyword table holds exactly the reserved words. */
  lemma {:induction false} KeywordsReserved(e: string)
    ensures e in KEYWORDS <==> e in RESERVED
  {
    hide KEYWORDS11, KEYWORDS9, KEYWORDS8, KEYWORDS7, KEYWORDS6, KEYWORDS5, KEYWORDS4, KEYWORDS3;
    hide WORDS_A, WORDS_C, WORDS_F, WORDS_R, WORDS_T, WORDS_V, WORDS_X;
    Reserved11();
    Reserved9();
    Reserved8();
    Reserved7();
    Reserved6();
    Reserved5();
    Reserved4();
    Reserved3();
    WordsA();
    WordsC();
    WordsF();
    WordsR();
    WordsT();
    WordsV();
    WordsX();
  }

  ghost predicate Long(words: seq<string>) {
    forall e :: e in words ==> |e| >= 2
  }

  lemma {:induction false} LongFirst()
    ensures Long(WORDS_A) && Long(WORDS_C)
  {
  }

  lemma {:induction false} LongMiddle()
    ensures Long(WORDS_F) && Long(WORDS_R)
  {
  }

  lemma {:induction false} LongLast()
    ensures Long(WORDS_T) && Long(WORDS_V)
  {
  }

  lemma {:induction false} LongLatest()
    ensures Long(WORDS_X)
  {
  }

  /** No reserved word is a single letter. */
  lemma {:induction false} ReservedLong()
    ensures Long(RESERVED)
  {
    hide WORDS_A, WORDS_C, WORDS_F, WORDS_R, WORDS_T, WORDS_V, WORDS_X;
    LongFirst();
    LongMiddle();
    LongLast();
    LongLatest();
  }

  /** A run of identifier characters with something after it is a keyword token if and only if it is a
      reserved word of C. */
  lemma {:induction false} ReservedExactly(text: string, p: nat, q: nat)
    requires p < q < |text| && (forall k :: p <= k < q ==> IsIdentifier(text[k])) && !IsIdentifier(text[q])
    ensures TokenAt(text, p) == Token(Keyword(text[p..q]), p, q - p) <==> text[p..q] in RESERVED
  {
    hide PUNCTS, KEYWORDS, RESERVED, FirstPunct, FirstKeyword, DigitsEnd, WordEnd;
    NoPunctHere(text, p);
    KeywordExactly(text, p, q);
    KeywordsReserved(text[p..q]);
  }

  // ---------- punctuators ----------

  const BRACKETS: seq<string> := ["[", "]", "(", ")", "{", "}", ".", "->", "...", ",", ":", "::", ";", "?", "#"]
  const ARITHMETIC: seq<string> := ["++", "--", "+", "-", "*", "/", "%", "<<", ">>", "&", "|", "^", "~"]
  const RELATIONS: seq<string> := ["!", "<", ">", "<=", ">=", "==", "!=", "&&", "||"]
  const ASSIGNMENTS: seq<string> := ["=", "*=", "/=", "%=", "+=", "-=", "<<=", ">>=", "&=", "^=", "|="]

  /** The punctuators of C but for digraphs and the preprocessor's `##`. */
  const PUNCTUATORS: seq<string> := BRACKETS + ARITHMETIC + RELATIONS + ASSIGNMENTS

  lemma {:induction false} ListedLong()
    ensures AllIn(PUNCTS3, BRACKETS + ASSIGNMENTS) && AllIn(PUNCTS2, BRACKETS + ARITHMETIC + RELATIONS)
    ensures AllIn(ASSIGNS2, BRACKETS + ARITHMETIC + ASSIGNMENTS)
  {
  }

  lemma {:induction false} ListedShort()
    ensures AllIn(PUNCTS1, BRACKETS + ARITHMETIC + RELATIONS)
    ensures AllIn(BRACKETS1, BRACKETS + RELATIONS + ASSIGNMENTS)
  {
  }

  lemma {:induction false} BracketsListed()
    ensures AllIn(BRACKETS, PUNCTS3 + PUNCTS2 + ASSIGNS2 + PUNCTS1 + BRACKETS1)
  {
  }

  lemma {:induction false} ArithmeticListed()
    ensures AllIn(ARITHMETIC, PUNCTS2 + ASSIGNS2 + PUNCTS1)
  {
  }

  lemma {:induction false} RelationsListed()
    ensures AllIn(RELATIONS, PUNCTS2 + PUNCTS1 + BRACKETS1)
  {
  }

  lemma {:induction false} AssignmentsListed()
    ensures AllIn(ASSIGNMENTS, PUNCTS3 + ASSIGNS2 + BRACKETS1)
  {
  }

  lemma {:induction false} PunctuatorsListed(e: string)
    ensures e in PUNCTS <==> e in PUNCTUATORS
  {
    hide PUNCTS3, PUNCTS2, ASSIGNS2, PUNCTS1, BRACKETS1, BRACKETS, ARITHMETIC, RELATIONS, ASSIGNMENTS;
    ListedLong();
    ListedShort();
    BracketsListed();
    ArithmeticListed();
    RelationsListed();
    AssignmentsListed();
  }

  /** Where `e` is a longest of them spelled at a position, it is the token there if and only if something
      follows it. */
  lemma {:induction false} PunctuatorExactly(text: string, p: nat, e: string)
    requires p < |text| && e in PUNCTUATORS && IsAt(e, text, p)
    requires forall d :: d in PUNCTUATORS && IsAt(d, text, p) ==> |d| <= |e|
    ensures TokenAt(text, p) == Token(Punct(e), p, |e|) <==> p + |e| < |text|
  {
    hide PUNCTS, PUNCTUATORS, TokenAt, IsAt;
    PunctuatorsListed(e);
    forall d | d in PUNCTS && IsAt(d, text, p)
      ensures |d| <= |e|
    {
      PunctuatorsListed(d);
    }
    LongestExactly(text, p, e);
  }

  // ---------- characters ----------

  const DIGITS: string := "0123456789"
  const LOWER: string := "abcdefghijklmnopqrstuvwxyz"
  const UPPER: string := "ABCDEFGHIJKLMNOPQRSTUVWXYZ"
  const MARKS: string := "!\"#$%&'()*+,-./:;<=>?@[\\]^_`{|}~"

  lemma {:induction false} Letters(c: char)
    ensures IsAlpha(c) <==> c in LOWER || c in UPPER
  {
  }

  lemma {:induction false} Marks(c: char)
    ensures IsPunct(c) <==> c in MARKS
  {
  }

  /** The classes of characters, listed. */
  lemma {:induction false} ClassesListed(c: char)
    ensures IsDigit(c) <==> c in DIGITS
    ensures IsIdentifier(c) <==> c in LOWER || c in UPPER || c in DIGITS || c == '_'
    ensures IsPunct(c) <==> c in MARKS
    ensures InWord(c) <==> c !in MARKS && c !in WHITESPACE
  {
    hide LOWER, UPPER, MARKS, IsPunct, IsAlpha, IsSpace, WHITESPACE;
    Letters(c);
    Marks(c);
    SpaceIsWhite(c);
  }
}

/** The tokenizer.

    A table searched in order at each position, digits and words for the rest; what the tokens
    of a text are, and exactly when the rules for longest tokens and whole keywords hold. */
module Lexer {
  import opened Options

  /** What a token is; table entries are told apart by their text. */
  datatype Type = Punct(text: string) | Keyword(text: string) | Number | Word

  datatype Token = Token(kind: Type, pos: nat, len: nat)

  /** The punctuators, in the order they are tried: those of three characters, of two, of one. */
  const PUNCTS3: seq<string> := ["...", "<<=", ">>="]
  const PUNCTS2: seq<string> := ["::", "++", "--", "<=", ">=", "==", "!=", "||", "&&"]
  const ASSIGNS2: seq<string> := ["+=", "-=", "/=", "%=", "*=", "&=", "^=", "|=", "<<", ">>", "->"]
  const PUNCTS1: seq<string> := ["!", "~", "+", "-", "/", "%", "*", "&", "^", "|", "?", ":"]
  const BRACKETS1: seq<string> := [";", ",", "<", ">", "=", "{", "}", "(", ")", "[", "]", "#", "."]
  const PUNCTS: seq<string> := PUNCTS3 + PUNCTS2 + ASSIGNS2 + PUNCTS1 + BRACKETS1

  /** The keywords, tried after them, longer ones first. */
  const KEYWORDS11: seq<string> := [
    "_Static_assert", "_Thread_local", "typeof_unqual", "static_assert", "thread_local", "_Decimal128"
  ]
  const KEYWORDS9: seq<string> := ["_Imaginary", "_Decimal64", "_Decimal32", "_Noreturn", "constexpr"]
  const KEYWORDS8: seq<string> := [
    "_Generic", "_Complex", "_Alignof", "_Alignas", "volatile", "unsigned", "restrict", "register", "continue"
  ]
  const KEYWORDS7: seq<string> := ["_BitInt", "_Atomic", "typedef", "nullptr", "default", "alignof", "alignas"]
  const KEYWORDS6: seq<string> := [
    "typeof", "switch", "struct", "static", "sizeof", "signed", "return", "inline", "extern", "double"
  ]
  const KEYWORDS5: seq<string> := ["_Bool", "while", "union", "short", "float", "false", "const", "break"]
  const KEYWORDS4: seq<string> := ["void", "true", "long", "goto", "enum", "else", "char", "case", "bool", "auto"]
  const KEYWORDS3: seq<string> := ["int", "for", "if", "do"]
  const KEYWORDS: seq<string> :=
    KEYWORDS11 + KEYWORDS9 + KEYWORDS8 + KEYWORDS7 + KEYWORDS6 + KEYWORDS5 + KEYWORDS4 + KEYWORDS3

  // ---------- characters ----------

  predicate IsSpace(c: char) {
    c == ' ' || 9 as char <= c <= 13 as char
  }

  predicate IsDigit(c: char) {
    '0' <= c <= '9'
  }

  predicate IsAlpha(c: char) {
    'a' <= c <= 'z' || 'A' <= c <= 'Z'
  }

  predicate IsIdentifier(c: char) {
    IsAlpha(c) || c == '_' || IsDigit(c)
  }

  /** Printing characters that are neither letters nor digits; the underscore is one of them. */
  predicate IsPunct(c: char) {
    '!' <= c <= '~' && !IsAlpha(c) && !IsDigit(c)
  }

  /** Input the loop gets through: bytes, none of them NUL, which would hold the loop in place. */
  predicate Plain(text: string) {
    forall i :: 0 <= i < |text| ==> 0 as char < text[i] < 256 as char
  }

  predicate Ascii(text: string) {
    forall i :: 0 <= i < |text| ==> text[i] < 128 as char
  }

  /** How far the program goes past a character: a byte of more than seven bits is negative as a
      `char`, which the length test takes for a character of four bytes. */
  function Width(c: char): nat {
    if c < 128 as char then 1 else 4
  }

  // ---------- matching ----------

  predicate IsAt(e: string, text: string, p: nat) {
    p + |e| <= |text| && text[p..p + |e|] == e
  }

  /** Entries only match strictly before the end of the input. */
  predicate Matches(e: string, text: string, p: nat) {
    IsAt(e, text, p) && p + |e| < |text|
  }

  /** A keyword is not the start of a longer identifier. */
  predicate KeywordMatches(e: string, text: string, p: nat) {
    Matches(e, text, p) && (p + |e| + 1 >= |text| || !IsIdentifier(text[p + |e|]))
  }

  function FirstPunct(text: string, p: nat, i: nat := 0): (r: Option<string>)
    requires i <= |PUNCTS|
    ensures r.Some? ==> r.value in PUNCTS && Matches(r.value, text, p)
    ensures r.None? ==> forall j :: i <= j < |PUNCTS| ==> !Matches(PUNCTS[j], text, p)
    decreases |PUNCTS| - i
  {
    if i == |PUNCTS| then None
    else if Matches(PUNCTS[i], text, p) then Some(PUNCTS[i])
    else FirstPunct(text, p, i + 1)
  }

  function FirstKeyword(text: string, p: nat, i: nat := 0): (r: Option<string>)
    requires i <= |KEYWORDS|
    ensures r.Some? ==> r.value in KEYWORDS && KeywordMatches(r.value, text, p)
    ensures r.None? ==> forall j :: i <= j < |KEYWORDS| ==> !KeywordMatches(KEYWORDS[j], text, p)
    decreases |KEYWORDS| - i
  {
    if i == |KEYWORDS| then None
    else if KeywordMatches(KEYWORDS[i], text, p) then Some(KEYWORDS[i])
    else FirstKeyword(text, p, i + 1)
  }

  /** Where the run of digits at `p` ends. */
  function DigitsEnd(text: string, p: nat): (q: nat)
    requires p <= |text|
    ensures p <= q <= |text| && (forall i :: p <= i < q ==> IsDigit(text[i])) && (q < |text| ==> !IsDigit(text[q]))
    decreases |text| - p
  {
    if p < |text| && IsDigit(text[p]) then DigitsEnd(text, p + 1) else p
  }

  predicate InWord(c: char) {
    !IsPunct(c) && !IsSpace(c)
  }

  /** Where the word at `p` ends: at a space or at a punctuation character, underscores included, or
      past the end when a wide byte comes last. */
  function WordEnd(text: string, p: nat): (q: nat)
    ensures p <= q && (q < |text| ==> !InWord(text[q]))
    ensures Ascii(text) && p <= |text| ==> q <= |text| && forall i :: p <= i < q ==> InWord(text[i])
    decreases |text| - p
  {
    if p < |text| && InWord(text[p]) then WordEnd(text, p + Width(text[p])) else p
  }

  function SpacesEnd(text: string, p: nat): (q: nat)
    ensures p <= q && (p <= |text| ==> q <= |text|) && (q < |text| ==> !IsSpace(text[q]))
    ensures forall i :: p <= i < q ==> i < |text| && IsSpace(text[i])
    decreases |text| - p
  {
    if p < |text| && IsSpace(text[p]) then SpacesEnd(text, p + 1) else p
  }

  /** The token at a position that holds no space. */
  function TokenAt(text: string, p: nat): (t: Token)
    requires p < |text|
    ensures t.pos == p && t.len > 0 && (Ascii(text) ==> p + t.len <= |text|)
  {
    hide PUNCTS, KEYWORDS;
    var punct, keyword := FirstPunct(text, p), FirstKeyword(text, p);
    if punct.Some? then
      EntriesGood();
      Token(Punct(punct.value), p, |punct.value|)
    else if keyword.Some? then
      EntriesGood();
      Token(Keyword(keyword.value), p, |keyword.value|)
    else if IsDigit(text[p]) then Token(Number, p, DigitsEnd(text, p + 1) - p)
    else Token(Word, p, WordEnd(text, p + Width(text[p])) - p)
  }

  function Lex(text: string, p: nat := 0): (ts: seq<Token>)
    ensures forall i :: 0 <= i < |ts| ==> ts[i].pos < |text|
    decreases |text| - p
  {
    hide PUNCTS, KEYWORDS, TokenAt;
    var q := SpacesEnd(text, p);
    if q >= |text| then []
    else
      var t := TokenAt(text, q);
      [t] + Lex(text, q + t.len)
  }

  /** The loop gets to the end: at no token start does it find a NUL, where it would stay for ever. */
  predicate Ends(text: string, p: nat := 0)
    decreases |text| - p
  {
    var q := SpacesEnd(text, p);
    q >= |text| || (text[q] != 0 as char && Ends(text, q + TokenAt(text, q).len))
  }

  /** Text without NUL bytes does. */
  lemma {:induction false} PlainEnds(text: string, p: nat)
    requires Plain(text)
    ensures Ends(text, p)
    decreases |text| - p
  {
    hide TokenAt, SpacesEnd, PUNCTS, KEYWORDS;
    var q := SpacesEnd(text, p);
    if q < |text| {
      PlainEnds(text, q + TokenAt(text, q).len);
    }
  }

  method Tokenize(text: string) returns (tokens: seq<Token>)
    requires Ends(text)
    ensures tokens == Lex(text)
  {
    hide TokenAt, SpacesEnd, Lex, Ends, PUNCTS, KEYWORDS;
    tokens := [];
    var p := 0;
    while p < |text|
      invariant Ends(text, p)
      invariant Lex(text) == tokens + Lex(text, p)
      decreases |text| - p
    {
      ghost var start := p;
      while p < |text| && IsSpace(text[p])
        invariant start <= p <= |text| && SpacesEnd(text, p) == SpacesEnd(text, start)
      {
        SpacesStep(text, p);
        p := p + Width(text[p]);
      }
      SpacesStep(text, p);
      if p < |text| {
        EndsStep(text, start);
      }
      if p < |text| && text[p] != 0 as char {
        var t := ReadToken(text, p);
        p := p + t.len;
        LexStep(text, start, tokens);
        tokens := tokens + [t];
      } else {
        LexEnd(text, start);
      }
    }
    SpacesStep(text, p);
    LexEnd(text, p);
  }

  lemma {:induction false} EndsStep(text: string, p: nat)
    requires Ends(text, p) && SpacesEnd(text, p) < |text|
    ensures var q := SpacesEnd(text, p);
      text[q] != 0 as char && Ends(text, q + TokenAt(text, q).len)
  {
    hide TokenAt, SpacesEnd, PUNCTS, KEYWORDS;
  }

  lemma {:induction false} SpacesStep(text: string, p: nat)
    ensures p < |text| && IsSpace(text[p]) ==> SpacesEnd(text, p) == SpacesEnd(text, p + 1) && Width(text[p]) == 1
    ensures !(p < |text| && IsSpace(text[p])) ==> SpacesEnd(text, p) == p
  {
  }

  lemma {:induction false} LexEnd(text: string, p: nat)
    requires SpacesEnd(text, p) >= |text|
    ensures Lex(text, p) == [] && Lex(text, SpacesEnd(text, p)) == [] && Ends(text, SpacesEnd(text, p))
  {
    hide TokenAt, SpacesEnd, PUNCTS, KEYWORDS;
    SpacesStep(text, SpacesEnd(text, p));
  }

  lemma {:induction false} LexStep(text: string, p: nat, tokens: seq<Token>)
    requires SpacesEnd(text, p) < |text|
    ensures var t := TokenAt(text, SpacesEnd(text, p));
      tokens + Lex(text, p) == tokens + [t] + Lex(text, SpacesEnd(text, p) + t.len)
  {
    hide TokenAt, SpacesEnd, PUNCTS, KEYWORDS;
  }

  /** The chain of tests in the loop. */
  method ReadToken(text: string, p: nat) returns (t: Token)
    requires p < |text|
    ensures t == TokenAt(text, p)
  {
    var i := 0;
    while i < |PUNCTS| && !Matches(PUNCTS[i], text, p)
      invariant i <= |PUNCTS| && FirstPunct(text, p) == FirstPunct(text, p, i)
    {
      i := i + 1;
    }
    if i < |PUNCTS| {
      return Token(Punct(PUNCTS[i]), p, |PUNCTS[i]|);
    }
    i := 0;
    while i < |KEYWORDS| && !KeywordMatches(KEYWORDS[i], text, p)
      invariant i <= |KEYWORDS| && FirstKeyword(text, p) == FirstKeyword(text, p, i)
    {
      i := i + 1;
    }
    if i < |KEYWORDS| {
      return Token(Keyword(KEYWORDS[i]), p, |KEYWORDS[i]|);
    }
    var q := p + Width(text[p]);
    if IsDigit(text[p]) {
      while q < |text| && IsDigit(text[q])
        invariant p < q <= |text| && DigitsEnd(text, p + 1) == DigitsEnd(text, q)
      {
        q := q + Width(text[q]);
      }
      return Token(Number, p, q - p);
    }
    while q < |text| && InWord(text[q])
      invariant p < q && WordEnd(text, p + Width(text[p])) == WordEnd(text, q)
    {
      q := q + Width(text[q]);
    }
    return Token(Word, p, q - p);
  }

  // ---------- the tables ----------

  predicate GoodPunct(e: string) {
    1 <= |e| <= 3 && forall i :: 0 <= i < |e| ==> IsPunct(e[i]) && e[i] != '_'
  }

  predicate GoodKeyword(e: string) {
    1 <= |e| <= 14 && !IsDigit(e[0]) && forall i :: 0 <= i < |e| ==> IsIdentifier(e[i])
  }

  lemma {:induction false} Puncts3Good()
    ensures forall e :: e in PUNCTS3 ==> GoodPunct(e) && |e| == 3
  {
  }

  lemma {:induction false} Puncts2Good()
    ensures forall e :: e in PUNCTS2 ==> GoodPunct(e) && |e| == 2
  {
  }

  lemma {:induction false} Assigns2Good()
    ensures forall e :: e in ASSIGNS2 ==> GoodPunct(e) && |e| == 2
  {
  }

  lemma {:induction false} Puncts1Good()
    ensures forall e :: e in PUNCTS1 ==> GoodPunct(e) && |e| == 1
  {
  }

  lemma {:induction false} Brackets1Good()
    ensures forall e :: e in BRACKETS1 ==> GoodPunct(e) && |e| == 1
  {
  }

  lemma {:induction false} Keywords11Good()
    ensures forall e :: e in KEYWORDS11 ==> GoodKeyword(e)
  {
  }

  lemma {:induction false} Keywords9Good()
    ensures forall e :: e in KEYWORDS9 ==> GoodKeyword(e)
  {
  }

  lemma {:induction false} Keywords8Good()
    ensures forall e :: e in KEYWORDS8 ==> GoodKeyword(e)
  {
  }

  lemma {:induction false} Keywords7Good()
    ensures forall e :: e in KEYWORDS7 ==> GoodKeyword(e)
  {
  }

  lemma {:induction false} Keywords6Good()
    ensures forall e :: e in KEYWORDS6 ==> GoodKeyword(e)
  {
  }

  lemma {:induction false} Keywords5Good()
    ensures forall e :: e in KEYWORDS5 ==> GoodKeyword(e)
  {
  }

  lemma {:induction false} Keywords4Good()
    ensures forall e :: e in KEYWORDS4 ==> GoodKeyword(e)
  {
  }

  lemma {:induction false} Keywords3Good()
    ensures forall e :: e in KEYWORDS3 ==> GoodKeyword(e)
  {
  }

  /** What all entries have in common. */
  lemma {:induction false} EntriesGood()
    ensures forall e :: e in PUNCTS ==> GoodPunct(e)
    ensures forall e :: e in KEYWORDS ==> GoodKeyword(e)
  {
    hide PUNCTS1, PUNCTS2, PUNCTS3, ASSIGNS2, BRACKETS1, GoodPunct, GoodKeyword;
    hide KEYWORDS11, KEYWORDS9, KEYWORDS8, KEYWORDS7, KEYWORDS6, KEYWORDS5, KEYWORDS4, KEYWORDS3;
    Puncts3Good();
    Puncts2Good();
    Assigns2Good();
    Puncts1Good();
    Brackets1Good();
    Keywords11Good();
    Keywords9Good();
    Keywords8Good();
    Keywords7Good();
    Keywords6Good();
    Keywords5Good();
    Keywords4Good();
    Keywords3Good();
  }

  lemma {:induction false} PunctSizeAt(i: nat)
    requires i < |PUNCTS|
    ensures var n3, n2 := |PUNCTS3|, |PUNCTS3| + |PUNCTS2| + |ASSIGNS2|;
      |PUNCTS[i]| == if i < n3 then 3 else if i < n2 then 2 else 1
  {
    hide PUNCTS1, PUNCTS2, PUNCTS3, ASSIGNS2, BRACKETS1, GoodPunct;
    Puncts3Good();
    Puncts2Good();
    Assigns2Good();
    Puncts1Good();
    Brackets1Good();
  }

  /** The first punctuator that matches is a longest one: no entry is shorter than a later one. */
  lemma {:induction false} FirstPunctLongest(text: string, p: nat, i: nat, e: string)
    requires i <= |PUNCTS| && e in PUNCTS[i..] && Matches(e, text, p)
    ensures FirstPunct(text, p, i).Some? && |FirstPunct(text, p, i).value| >= |e|
    decreases |PUNCTS| - i
  {
    hide PUNCTS, Matches;
    if Matches(PUNCTS[i], text, p) {
      var j :| i <= j < |PUNCTS| && PUNCTS[j] == e;
      PunctSizeAt(i);
      PunctSizeAt(j);
    } else {
      assert PUNCTS[i..][1..] == PUNCTS[i + 1..] && PUNCTS[i] != e;
      FirstPunctLongest(text, p, i + 1, e);
    }
  }

  // ---------- what the tokens are ----------

  /** Only whitespace from `a` to `b`. */
  predicate Gap(text: string, a: nat, b: nat) {
    a <= b <= |text| && forall k :: a <= k < b ==> IsSpace(text[k])
  }

  /** The end of the token before the `i`-th, or the start. */
  function EndBefore(ts: seq<Token>, p: nat, i: nat): nat
    requires i <= |ts|
  {
    if i == 0 then p else ts[i - 1].pos + ts[i - 1].len
  }

  function StartOf(text: string, ts: seq<Token>, i: nat): nat
    requires i <= |ts|
  {
    if i < |ts| then ts[i].pos else |text|
  }

  /** A token within the text, not empty, without whitespace. */
  predicate Solid(text: string, t: Token) {
    t.len > 0 && t.pos + t.len <= |text| && forall k :: t.pos <= k < t.pos + t.len ==> !IsSpace(text[k])
  }

  lemma {:induction false} TokenSolid(text: string, p: nat)
    requires Ascii(text) && p < |text| && !IsSpace(text[p])
    ensures Solid(text, TokenAt(text, p))
  {
    hide PUNCTS, KEYWORDS, FirstPunct, FirstKeyword, GoodPunct, GoodKeyword;
    var punct, keyword := FirstPunct(text, p), FirstKeyword(text, p);
    if punct.Some? {
      EntrySolid(text, p, punct.value);
    } else if keyword.Some? {
      EntrySolid(text, p, keyword.value);
    }
  }

  lemma {:induction false} EntrySolid(text: string, p: nat, e: string)
    requires IsAt(e, text, p) && (e in PUNCTS || e in KEYWORDS)
    ensures e != "" && forall k :: p <= k < p + |e| ==> !IsSpace(text[k])
  {
    hide PUNCTS, KEYWORDS;
    EntriesGood();
    forall k | p <= k < p + |e|
      ensures !IsSpace(text[k])
    {
      assert text[k] == text[p..p + |e|][k - p];
    }
  }

  /** The tokens are in order and disjoint, and what lies outside them is exactly the whitespace. */
  lemma {:induction false} LexPartitions(text: string, p: nat)
    requires Ascii(text) && p <= |text|
    ensures var ts := Lex(text, p);
      && (forall i :: 0 <= i < |ts| ==> Solid(text, ts[i]))
      && (forall i :: 0 <= i <= |ts| ==> Gap(text, EndBefore(ts, p, i), StartOf(text, ts, i)))
    decreases |text| - p
  {
    hide PUNCTS, KEYWORDS, TokenAt, SpacesEnd, Solid, Gap;
    var ts, q := Lex(text, p), SpacesEnd(text, p);
    assert Gap(text, p, q) by {
      SpacesGap(text, p);
    }
    if q == |text| {
      assert EndBefore(ts, p, 0) == p && StartOf(text, ts, 0) == q;
    } else {
      var t := TokenAt(text, q);
      var rest := Lex(text, q + t.len);
      TokenSolid(text, q);
      LexPartitions(text, q + t.len);
      assert rest == Lex(text, q + t.len);
      assert forall i :: 0 <= i < |rest| ==> Solid(text, rest[i]);
      assert ts == [t] + rest;
      forall i | 0 <= i < |ts|
        ensures Solid(text, ts[i])
      {
        if i > 0 {
          assert ts[i] == rest[i - 1];
          assert Solid(text, rest[i - 1]);
        }
      }
      forall i | 0 <= i <= |ts|
        ensures Gap(text, EndBefore(ts, p, i), StartOf(text, ts, i))
      {
        if i == 0 {
          assert EndBefore(ts, p, 0) == p && StartOf(text, ts, 0) == q;
        } else {
          assert EndBefore(ts, p, i) == EndBefore(rest, q + t.len, i - 1);
          assert StartOf(text, ts, i) == StartOf(text, rest, i - 1);
          assert Gap(text, EndBefore(rest, q + t.len, i - 1), StartOf(text, rest, i - 1));
        }
      }
    }
  }

  lemma {:induction false} SpacesGap(text: string, p: nat)
    requires p <= |text|
    ensures Gap(text, p, SpacesEnd(text, p))
  {
  }

  /** The longest-token rule, exactly: where `e` is a longest punctuator spelled in the text, it is the
      token if and only if something follows it. */
  lemma {:induction false} LongestExactly(text: string, p: nat, e: string)
    requires p < |text| && e in PUNCTS && IsAt(e, text, p)
    requires forall d :: d in PUNCTS && IsAt(d, text, p) ==> |d| <= |e|
    ensures TokenAt(text, p) == Token(Punct(e), p, |e|) <==> p + |e| < |text|
  {
    hide PUNCTS, KEYWORDS;
    if p + |e| < |text| {
      assert PUNCTS[0..] == PUNCTS;
      FirstPunctLongest(text, p, 0, e);
      var d := FirstPunct(text, p).value;
      assert |d| == |e| && text[p..p + |d|] == text[p..p + |e|];
    }
  }

  /** A byte of more than seven bits starts a word and swallows the three bytes after it, whatever
      they are. */
  lemma {:induction false} WideByteSwallows(text: string, p: nat)
    requires p < |text| && text[p] >= 128 as char
    ensures TokenAt(text, p).kind == Word && TokenAt(text, p).len >= 4
  {
    hide PUNCTS, KEYWORDS;
    EntriesGood();
    if FirstPunct(text, p).Some? {
      CharsAt(FirstPunct(text, p).value, text, p);
    } else if FirstKeyword(text, p).Some? {
      CharsAt(FirstKeyword(text, p).value, text, p);
    }
  }

  /** The last character of the input, unless a digit, is a word, a punctuator among them. */
  lemma {:induction false} LastIsWord(text: string)
    requires text != "" && Width(text[|text| - 1]) == 1 && !IsDigit(text[|text| - 1])
    ensures TokenAt(text, |text| - 1) == Token(Word, |text| - 1, 1)
  {
    hide PUNCTS, KEYWORDS;
    EntriesGood();
  }

  /** At the end of the input a longer punctuator loses to its prefix. */
  lemma {:induction false} EndLosesLongest()
    ensures Lex("<=") == [Token(Punct("<"), 0, 1), Token(Word, 1, 1)]
  {
    hide PUNCTS, KEYWORDS, TokenAt;
    var text := "<=";
    LessFirst();
    LastIsWord(text);
    assert Lex(text, 2) == [];
    assert Lex(text, 1) == [Token(Word, 1, 1)];
    assert Lex(text, 0) == [Token(Punct("<"), 0, 1)] + Lex(text, 1);
  }

  lemma {:induction false} LessFirst()
    ensures TokenAt("<=", 0) == Token(Punct("<"), 0, 1)
  {
    hide PUNCTS, KEYWORDS, FirstKeyword;
    var text := "<=";
    Known();
    assert text[0..1] == "<" && PUNCTS[0..] == PUNCTS;
    FirstPunctLongest(text, 0, 0, "<");
    EntriesGood();
    var d := FirstPunct(text, 0).value;
    assert |d| == 1 && text[0..|d|] == text[0..1];
  }

  lemma {:induction false} CharsAt(e: string, text: string, p: nat)
    requires IsAt(e, text, p)
    ensures forall k :: 0 <= k < |e| ==> text[p + k] == e[k]
  {
    var t := text[p..p + |e|];
    assert forall k :: 0 <= k < |e| ==> t[k] == text[p + k];
  }

  lemma {:induction false} Known()
    ensures "<" in PUNCTS && "<=" in PUNCTS && "int" in KEYWORDS
  {
    assert BRACKETS1[2] == "<" && PUNCTS2[3] == "<=" && KEYWORDS3[0] == "int";
  }

  lemma {:induction false} NoPunctHere(text: string, p: nat)
    requires p < |text| && IsIdentifier(text[p])
    ensures FirstPunct(text, p).None?
  {
    hide PUNCTS;
    EntriesGood();
    var r := FirstPunct(text, p);
    if r.Some? {
      CharsAt(r.value, text, p);
    }
  }

  /** A run of identifier characters that something follows is one of the keywords or none. */
  lemma {:induction false} KeywordExactly(text: string, p: nat, q: nat)
    requires p < q < |text| && (forall k :: p <= k < q ==> IsIdentifier(text[k])) && !IsIdentifier(text[q])
    ensures var s := text[p..q];
      FirstKeyword(text, p) == if s in KEYWORDS then Some(s) else None
  {
    hide KEYWORDS;
    var s := text[p..q];
    EntriesGood();
    forall e | e in KEYWORDS && KeywordMatches(e, text, p)
      ensures e == s
    {
      CharsAt(e, text, p);
    }
    if s in KEYWORDS {
      assert KeywordMatches(s, text, p);
      var i :| 0 <= i < |KEYWORDS| && KEYWORDS[i] == s;
    }
  }

  /** A run that ends the input is a keyword and one more character, or none. */
  lemma {:induction false} KeywordAtEnd(text: string, p: nat)
    requires p < |text| && forall k :: p <= k < |text| ==> IsIdentifier(text[k])
    ensures var t := text[p..|text| - 1];
      FirstKeyword(text, p) == if t in KEYWORDS then Some(t) else None
  {
    hide KEYWORDS;
    var t := text[p..|text| - 1];
    EntriesGood();
    forall e | e in KEYWORDS && KeywordMatches(e, text, p)
      ensures e == t
    {
      CharsAt(e, text, p);
    }
    if t in KEYWORDS {
      assert KeywordMatches(t, text, p);
      var i :| 0 <= i < |KEYWORDS| && KEYWORDS[i] == t;
    }
  }

  /** The whole-word rule for keywords, exactly: it holds of a run of identifier characters if and only
      if something follows the run, or neither the run nor the run without its last character is a
      keyword. */
  lemma {:induction false} WholeWordExactly(text: string, p: nat, q: nat)
    requires p < q <= |text| && (forall k :: p <= k < q ==> IsIdentifier(text[k]))
    requires q < |text| ==> !IsIdentifier(text[q])
    ensures var s := text[p..q];
      FirstKeyword(text, p) == (if s in KEYWORDS then Some(s) else None)
      <==> q < |text| || (s !in KEYWORDS && s[..|s| - 1] !in KEYWORDS)
  {
    hide KEYWORDS, FirstKeyword;
    var s := text[p..q];
    if q < |text| {
      KeywordExactly(text, p, q);
    } else {
      KeywordAtEnd(text, p);
      assert text[p..|text| - 1] == s[..|s| - 1];
      assert |s[..|s| - 1]| != |s|;
    }
  }

  /** At the end of the input a keyword is found in front of one more letter. */
  lemma {:induction false} EndSplitsWord()
    ensures TokenAt("intx", 0) == Token(Keyword("int"), 0, 3)
  {
    hide PUNCTS, KEYWORDS, FirstPunct, FirstKeyword;
    Known();
    NoPunctHere("intx", 0);
    KeywordAtEnd("intx", 0);
    assert "intx"[0..3] == "int";
  }

  // ---------- spelling tokens ----------

  /** A token's type and text. */
  datatype Lexeme = Lexeme(kind: Type, text: string)

  /** Texts that are tokens of that type when whitespace surrounds them. */
  predicate Lexable(l: Lexeme) {
    match l.kind
    case Punct(e) => l.text == e && e in PUNCTS
    case Keyword(e) => l.text == e && e in KEYWORDS
    case Number => l.text != "" && forall i :: 0 <= i < |l.text| ==> IsDigit(l.text[i])
    case Word =>
      && l.text != "" && l.text !in KEYWORDS && (IsAlpha(l.text[0]) || l.text[0] == '_')
      && forall i :: 1 <= i < |l.text| ==> IsAlpha(l.text[i]) || IsDigit(l.text[i])
  }

  /** The six characters of whitespace. */
  const WHITESPACE: string := [' ', '\t', '\n', 11 as char, 12 as char, '\r']

  /** Some whitespace, any kind of it. */
  predicate Blank(s: string) {
    s != "" && forall i :: 0 <= i < |s| ==> s[i] in WHITESPACE
  }

  predicate Blanks(gaps: seq<string>, n: nat) {
    |gaps| == n && forall i :: 0 <= i < n ==> Blank(gaps[i])
  }

  lemma {:induction false} SpaceIsWhite(c: char)
    ensures IsSpace(c) <==> c in WHITESPACE
  {
  }

  /** The texts, each with its gap after it. */
  function Spell(ls: seq<Lexeme>, gaps: seq<string>): string
    requires |gaps| == |ls|
  {
    if ls == [] then "" else ls[0].text + gaps[0] + Spell(ls[1..], gaps[1..])
  }

  /** A token's text; what lies past the end of the input ends it. */
  function LexemeOf(text: string, t: Token): Lexeme
    requires t.pos <= |text|
  {
    Lexeme(t.kind, if t.pos + t.len <= |text| then text[t.pos..t.pos + t.len] else text[t.pos..])
  }

  /** `l` stands at `p`, whitespace after it. */
  predicate Stands(text: string, p: nat, l: Lexeme) {
    p + |l.text| < |text| && text[p..p + |l.text|] == l.text && IsSpace(text[p + |l.text|])
  }

  lemma {:induction false} StandsAt(text: string, p: nat, l: Lexeme)
    requires Stands(text, p, l)
    ensures forall k :: 0 <= k < |l.text| ==> text[p + k] == l.text[k]
  {
    CharsAt(l.text, text, p);
  }

  lemma {:induction false} PunctFound(text: string, p: nat, l: Lexeme)
    requires Stands(text, p, l) && Lexable(l) && l.kind.Punct?
    ensures TokenAt(text, p) == Token(l.kind, p, |l.text|)
  {
    hide PUNCTS, KEYWORDS, TokenAt;
    var e := l.text;
    EntriesGood();
    forall d | d in PUNCTS && IsAt(d, text, p)
      ensures |d| <= |e|
    {
      CharsAt(d, text, p);
    }
    LongestExactly(text, p, e);
  }

  lemma {:induction false} LexableChars(l: Lexeme)
    requires Lexable(l) && !l.kind.Punct?
    ensures l.text != "" && (forall k :: 0 <= k < |l.text| ==> IsIdentifier(l.text[k]))
        && (IsDigit(l.text[0]) <==> l.kind.Number?)
    ensures l.kind.Keyword? <==> l.text in KEYWORDS
    ensures l.kind.Word? ==> forall k :: 1 <= k < |l.text| ==> InWord(l.text[k])
  {
    hide PUNCTS, KEYWORDS;
    EntriesGood();
  }

  lemma {:induction false} IdentifierFound(text: string, p: nat, l: Lexeme)
    requires Stands(text, p, l) && Lexable(l) && !l.kind.Punct?
    ensures TokenAt(text, p) == Token(l.kind, p, |l.text|)
  {
    hide PUNCTS, KEYWORDS, FirstPunct, FirstKeyword, WordEnd, DigitsEnd, InWord;
    LexableChars(l);
    StandsAt(text, p, l);
    var s, q := l.text, p + |l.text|;
    forall k | p <= k < q
      ensures text[k] == s[k - p] && IsIdentifier(text[k]) && Width(text[k]) == 1
    {
      assert text[p + (k - p)] == s[k - p];
    }
    NoPunctHere(text, p);
    KeywordExactly(text, p, q);
    assert text[p..q] == s;
    RunEnds(text, p + 1, q);
    if l.kind.Keyword? {
      assert l.kind.text == s;
    }
  }

  lemma {:induction false} RunEnds(text: string, p: nat, q: nat)
    requires p <= q < |text| && IsSpace(text[q])
    ensures (forall k :: p <= k < q ==> IsDigit(text[k])) ==> DigitsEnd(text, p) == q
    ensures (forall k :: p <= k < q ==> InWord(text[k]) && Width(text[k]) == 1) ==> WordEnd(text, p) == q
    decreases q - p
  {
    if p < q {
      RunEnds(text, p + 1, q);
    }
  }

  /** Every token, spelled with any whitespace after it, is read back. */
  lemma {:induction false} LexReadsBack(before: string, ls: seq<Lexeme>, gaps: seq<string>)
    requires Blanks(gaps, |ls|) && forall i :: 0 <= i < |ls| ==> Lexable(ls[i])
    ensures var text := before + Spell(ls, gaps);
      var ts := Lex(text, |before|);
      && |ts| == |ls|
      && forall i :: 0 <= i < |ls| ==> ts[i].pos <= |text| && LexemeOf(text, ts[i]) == ls[i]
    decreases ls
  {
    hide PUNCTS, KEYWORDS, Lexable, TokenAt, Spell, SpacesEnd, Blank;
    if ls == [] {
      NothingToLex(before);
    } else {
      var l, text, p := ls[0], before + Spell(ls, gaps), |before|;
      var before' := before + l.text + gaps[0];
      assert Blank(gaps[0]);
      SpellParts(before, ls, gaps);
      LexFirst(text, p, l, |gaps[0]|);
      LexReadsBack(before', ls[1..], gaps[1..]);
      var ts, rest := Lex(text, p), Lex(text, |before'|);
      assert ts == [Token(l.kind, p, |l.text|)] + rest;
      forall i | 0 <= i < |ls|
        ensures ts[i].pos <= |text| && LexemeOf(text, ts[i]) == ls[i]
      {
        assert ts[i] == if i == 0 then Token(l.kind, p, |l.text|) else rest[i - 1];
      }
    }
  }

  lemma {:induction false} NothingToLex(text: string)
    ensures Lex(text + Spell([], []), |text|) == []
  {
    hide TokenAt;
  }

  lemma {:induction false} SpellParts(before: string, ls: seq<Lexeme>, gaps: seq<string>)
    requires ls != [] && |gaps| == |ls| && Blank(gaps[0])
    ensures var text, before', q := before + Spell(ls, gaps), before + ls[0].text + gaps[0], |before| + |ls[0].text|;
      && text == before' + Spell(ls[1..], gaps[1..]) && Stands(text, |before|, ls[0])
      && q + |gaps[0]| <= |text| && forall k :: q <= k < q + |gaps[0]| ==> IsSpace(text[k])
  {
    var rest, gap := Spell(ls[1..], gaps[1..]), gaps[0];
    assert before + (ls[0].text + gap + rest) == before + ls[0].text + gap + rest;
    forall i | 0 <= i < |gap|
      ensures IsSpace(gap[i])
    {
      SpaceIsWhite(gap[i]);
    }
  }

  /** One token and the whitespace after it. */
  lemma {:induction false} LexFirst(text: string, p: nat, l: Lexeme, n: nat)
    requires Stands(text, p, l) && Lexable(l) && p + |l.text| + n <= |text|
    requires forall k :: p + |l.text| <= k < p + |l.text| + n ==> IsSpace(text[k])
    ensures Lex(text, p) == [Token(l.kind, p, |l.text|)] + Lex(text, p + |l.text| + n)
  {
    hide PUNCTS, KEYWORDS, Lexable, TokenAt;
    FirstSolid(l);
    StandsAt(text, p, l);
    assert text[p] == text[p + 0] == l.text[0];
    assert SpacesEnd(text, p) == p;
    if l.kind.Punct? {
      PunctFound(text, p, l);
    } else {
      IdentifierFound(text, p, l);
    }
    SkipsSpaces(text, p + |l.text|, n);
  }

  lemma {:induction false} SkipsSpaces(text: string, p: nat, n: nat)
    requires p + n <= |text| && forall k :: p <= k < p + n ==> IsSpace(text[k])
    ensures Lex(text, p) == Lex(text, p + n)
    decreases n
  {
    hide Lex;
    if n > 0 {
      SkipsSpace(text, p);
      SkipsSpaces(text, p + 1, n - 1);
    }
  }

  lemma {:induction false} FirstSolid(l: Lexeme)
    requires Lexable(l)
    ensures l.text != "" && !IsSpace(l.text[0])
  {
    hide PUNCTS, KEYWORDS;
    EntriesGood();
  }

  lemma {:induction false} SkipsSpace(text: string, p: nat)
    requires p < |text| && IsSpace(text[p])
    ensures Lex(text, p) == Lex(text, p + 1)
  {
    hide TokenAt;
  }
}

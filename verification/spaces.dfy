/** Whitespace and words.

    The six characters of whitespace are all alike to the tokenizer, and they are exactly what
    lies outside tokens; the keywords, punctuators and character classes, listed. */
module Spaces {
  import opened Options
  import opened Lexer

  /** Texts that differ in the kind of their whitespace only. */
  ghost predicate Alike(a: string, b: string) {
    |a| == |b| && forall i :: 0 <= i < |a| ==> a[i] == b[i] || (a[i] in WHITESPACE && b[i] in WHITESPACE)
  }

  /** To the tests of the tokenizer all whitespace is the same. */
  lemma {:induction false} SameClass(c: char, d: char)
    requires c == d || (c in WHITESPACE && d in WHITESPACE)
    ensures IsSpace(c) == IsSpace(d) && IsDigit(c) == IsDigit(d) && IsIdentifier(c) == IsIdentifier(d)
    ensures InWord(c) == InWord(d) && Width(c) == Width(d)
  {
  }

  ghost predicate Unspaced(e: string) {
    forall i :: 0 <= i < |e| ==> e[i] !in WHITESPACE
  }

  lemma {:induction false} EntriesUnspaced(e: string)
    requires e in PUNCTS || e in KEYWORDS
    ensures Unspaced(e)
  {
    hide PUNCTS, KEYWORDS;
    EntriesGood();
  }

  lemma {:induction false} AtAlike(e: string, a: string, b: string, p: nat)
    requires Alike(a, b) && Unspaced(e) && IsAt(e, a, p)
    ensures IsAt(e, b, p)
  {
    hide WHITESPACE;
    CharsAt(e, a, p);
    forall k | 0 <= k < |e|
      ensures b[p + k] == e[k]
    {
      assert a[p + k] == e[k];
    }
    assert b[p..p + |e|] == e;
  }

  lemma {:induction false} AlikeBack(a: string, b: string)
    requires Alike(a, b)
    ensures Alike(b, a)
  {
  }

  lemma {:induction false} MatchAlike(e: string, a: string, b: string, p: nat)
    requires Alike(a, b) && (e in PUNCTS || e in KEYWORDS)
    ensures Matches(e, a, p) == Matches(e, b, p) && KeywordMatches(e, a, p) == KeywordMatches(e, b, p)
  {
    hide PUNCTS, KEYWORDS, WHITESPACE, IsAt, IsIdentifier, Unspaced;
    EntriesUnspaced(e);
    AlikeBack(a, b);
    if IsAt(e, a, p) {
      AtAlike(e, a, b, p);
    } else if IsAt(e, b, p) {
      AtAlike(e, b, a, p);
    }
    if p + |e| < |a| {
      SameClass(a[p + |e|], b[p + |e|]);
    }
  }

  lemma {:induction false} PunctAlike(a: string, b: string, p: nat, i: nat)
    requires Alike(a, b) && i <= |PUNCTS|
    ensures FirstPunct(a, p, i) == FirstPunct(b, p, i)
    decreases |PUNCTS| - i
  {
    hide PUNCTS, KEYWORDS, Matches, KeywordMatches, Alike;
    if i < |PUNCTS| {
      MatchAlike(PUNCTS[i], a, b, p);
      PunctAlike(a, b, p, i + 1);
    }
  }

  lemma {:induction false} KeywordAlike(a: string, b: string, p: nat, i: nat)
    requires Alike(a, b) && i <= |KEYWORDS|
    ensures FirstKeyword(a, p, i) == FirstKeyword(b, p, i)
    decreases |KEYWORDS| - i
  {
    hide PUNCTS, KEYWORDS, Matches, KeywordMatches, Alike;
    if i < |KEYWORDS| {
      MatchAlike(KEYWORDS[i], a, b, p);
      KeywordAlike(a, b, p, i + 1);
    }
  }

  lemma {:induction false} DigitsAlike(a: string, b: string, p: nat)
    requires Alike(a, b) && p <= |a|
    ensures DigitsEnd(a, p) == DigitsEnd(b, p)
    decreases |a| - p
  {
    hide WHITESPACE, IsDigit;
    if p < |a| {
      SameClass(a[p], b[p]);
      DigitsAlike(a, b, p + 1);
    }
  }

  lemma {:induction false} WordAlike(a: string, b: string, p: nat)
    requires Alike(a, b)
    ensures WordEnd(a, p) == WordEnd(b, p)
    decreases |a| - p
  {
    hide WHITESPACE, InWord;
    if p < |a| {
      SameClass(a[p], b[p]);
      WordAlike(a, b, p + Width(a[p]));
    }
  }

  lemma {:induction false} SpacesAlike(a: string, b: string, p: nat)
    requires Alike(a, b)
    ensures SpacesEnd(a, p) == SpacesEnd(b, p)
    decreases |a| - p
  {
    hide WHITESPACE, IsSpace;
    if p < |a| {
      SameClass(a[p], b[p]);
      SpacesAlike(a, b, p + 1);
    }
  }

  lemma {:induction false} TokenAlike(a: string, b: string, p: nat)
    requires Alike(a, b) && p < |a|
    ensures TokenAt(a, p) == TokenAt(b, p)
  {
    hide PUNCTS, KEYWORDS, WHITESPACE, FirstPunct, FirstKeyword, DigitsEnd, WordEnd, IsDigit;
    PunctAlike(a, b, p, 0);
    KeywordAlike(a, b, p, 0);
    DigitsAlike(a, b, p + 1);
    SameClass(a[p], b[p]);
    WordAlike(a, b, p + Width(a[p]));
  }

  /** The kind of whitespace makes no difference to the tokens, in any text. */
  lemma {:induction false} LexAlike(a: string, b: string, p: nat)
    requires Alike(a, b)
    ensures Lex(a, p) == Lex(b, p)
    decreases |a| - p
  {
    hide PUNCTS, KEYWORDS, WHITESPACE, TokenAt, SpacesEnd, Alike;
    AlikeLength(a, b);
    SpacesAlike(a, b, p);
    var q := SpacesEnd(a, p);
    if q < |a| {
      TokenAlike(a, b, q);
      LexAlike(a, b, q + TokenAt(a, q).len);
    }
  }

  lemma {:induction false} AlikeLength(a: string, b: string)
    requires Alike(a, b)
    ensures |a| == |b|
  {
  }

  /** Any of the six can be a blank. */
  lemma {:induction false} AsBlank(text: string, p: nat)
    requires p < |text| && text[p] in [' ', '\t', '\n', 11 as char, 12 as char, '\r']
    ensures Lex(text[p := ' ']) == Lex(text)
  {
    LexAlike(text[p := ' '], text, 0);
  }

  // ---------- what lies in tokens ----------

  /** Position `k` lies in a token. */
  ghost predicate Covered(ts: seq<Token>, k: nat) {
    exists i :: 0 <= i < |ts| && ts[i].pos <= k < ts[i].pos + ts[i].len
  }

  lemma {:induction false} CoverFrom(text: string, p: nat, k: nat)
    requires Ascii(text) && p <= k < |text|
    ensures Covered(Lex(text, p), k) <==> !IsSpace(text[k])
    decreases |text| - p
  {
    hide PUNCTS, KEYWORDS, TokenAt, SpacesEnd, IsSpace;
    var ts, q := Lex(text, p), SpacesEnd(text, p);
    FromHere(text, p);
    if q < |text| && q <= k {
      var t := TokenAt(text, q);
      TokenSolid(text, q);
      var rest := Lex(text, q + t.len);
      assert ts == [t] + rest;
      FromHere(text, q + t.len);
      if k < q + t.len {
        assert ts[0] == t;
      } else {
        CoverFrom(text, q + t.len, k);
        CoverMore(t, rest, k);
      }
    }
  }

  /** No token from `p` on starts before `p`. */
  lemma {:induction false} FromHere(text: string, p: nat)
    ensures forall i :: 0 <= i < |Lex(text, p)| ==> SpacesEnd(text, p) <= Lex(text, p)[i].pos
    decreases |text| - p
  {
    hide PUNCTS, KEYWORDS, TokenAt, SpacesEnd;
    var q := SpacesEnd(text, p);
    if q < |text| {
      FromHere(text, q + TokenAt(text, q).len);
    }
  }

  lemma {:induction false} CoverMore(t: Token, rest: seq<Token>, k: nat)
    requires k >= t.pos + t.len
    ensures Covered([t] + rest, k) <==> Covered(rest, k)
  {
    var ts := [t] + rest;
    if i :| 0 <= i < |rest| && rest[i].pos <= k < rest[i].pos + rest[i].len {
      assert ts[i + 1] == rest[i];
    }
    if i :| 0 <= i < |ts| && ts[i].pos <= k < ts[i].pos + ts[i].len {
      assert ts[i] == rest[i - 1];
    }
  }

  /** In ASCII text exactly the six characters lie in no token. */
  lemma {:induction false} OutsideTokensExactly(text: string, k: nat)
    requires k < |text| && forall i :: 0 <= i < |text| ==> text[i] < 128 as char
    ensures Covered(Lex(text), k) <==> text[k] !in [' ', '\t', '\n', 11 as char, 12 as char, '\r']
  {
    CoverFrom(text, 0, k);
    SpaceIsWhite(text[k]);
  }
}

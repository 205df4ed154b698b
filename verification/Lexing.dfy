/** The lexer: one token at a time. */
module Lexing {

  datatype Token =
    | Eof
    | Unknown
    | Ident(text: string)
    | Func(text: string)
    | Keyword(text: string)
    | IntLit(text: string)
    | FloatLit(text: string)
    | StrLit(text: string)
    | Punct(sym: string)

  /** A token, and the text after it. */
  datatype Lexed = Lexed(tok: Token, rest: string)

  predicate IsDigit(c: char) { '0' <= c <= '9' }
  predicate IsAlpha(c: char) { 'a' <= c <= 'z' || 'A' <= c <= 'Z' }
  predicate IsWord(c: char) { IsAlpha(c) || IsDigit(c) || c == '_' }
  predicate IsBlank(c: char) { c == ' ' || c == '\t' || c == '\n' || c == '\r' || c == ';' }

  const FUNCS := {"min", "max", "pow", "log", "exp", "sqrt", "abs"}

  const KEYWORDS := {
    "script", "func", "for", "in", "if", "var", "let", "auto", "as", "to", "times", "vectorize", "unroll", "widen",
    "tile", "peel", "hoist", "sink", "fuse", "rename", "distribute", "float", "int8", "index"}

  /** The longest prefix of word characters. */
  function WordLength(s: string): (n: nat)
    ensures n <= |s|
  {
    if s == [] || !IsWord(s[0]) then 0 else 1 + WordLength(s[1..])
  }

  /** Digits with at most one period. */
  function NumberLength(s: string, seenPoint: bool): (n: nat)
    ensures n <= |s|
  {
    if s == [] then 0
    else if s[0] == '.' then (if seenPoint then 0 else 1 + NumberLength(s[1..], true))
    else if IsDigit(s[0]) then 1 + NumberLength(s[1..], seenPoint)
    else 0
  }

  function QuoteLength(s: string): (n: nat)
    ensures n <= |s|
  {
    if s == [] || s[0] == '"' then 0 else 1 + QuoteLength(s[1..])
  }

  function LineLength(s: string): (n: nat)
    ensures n <= |s|
  {
    if s == [] then 0 else if s[0] == '\n' || s[0] == '\r' then 1 else 1 + LineLength(s[1..])
  }

  function WordToken(w: string): Token
  {
    if w in FUNCS then Func(w) else if w in KEYWORDS then Keyword(w) else Ident(w)
  }

  /** lexNumber, after the first character; a minus sign right there is taken as well. */
  function LexNumber(s: string): Lexed
    requires s != []
  {
    var start := if |s| > 1 && s[1] == '-' then 2 else 1;
    var n := start + NumberLength(s[start..], false);
    Lexed(if '.' in s[start..n] then FloatLit(s[..n]) else IntLit(s[..n]), s[n..])
  }

  /** The characters that may start a two-character token with '='. */
  predicate TakesEqual(c: char) { c == '=' || c == '<' || c == '>' || c == '!' || c == '+' }

  predicate IsPlainPunct(c: char)
  {
    c == '#' || c == ',' || c == ':' || c == '*' || c == '{' || c == '}' || c == '(' || c == ')' || c == '[' || c == ']'
  }

  /** Lex: the next token of s. */
  function Lex(s: string): (r: Lexed)
    ensures |r.rest| <= |s| && (r.tok != Eof ==> |r.rest| < |s|)
    decreases |s|
  {
    if s == [] then Lexed(Eof, [])
    else if IsBlank(s[0]) then Lex(s[1..])
    else if IsPlainPunct(s[0]) then Lexed(Punct(s[..1]), s[1..])
    else if s[0] == '.' then
      (if |s| > 1 && s[1] == '.' then Lexed(Punct(".."), s[2..]) else Lexed(Punct("."), s[1..]))
    else if TakesEqual(s[0]) then
      (if |s| > 1 && s[1] == '=' then Lexed(Punct(s[..2]), s[2..]) else Lexed(Punct(s[..1]), s[1..]))
    else if s[0] == '-' then
      (if |s| > 1 && IsDigit(s[1]) then LexNumber(s) else Lexed(Punct("-"), s[1..]))
    else if s[0] == '/' then
      (if |s| > 1 && s[1] == '/' then Lex(s[2 + LineLength(s[2..])..]) else Lexed(Punct("/"), s[1..]))
    else if IsAlpha(s[0]) || s[0] == '_' then
      var n := 1 + WordLength(s[1..]);
      Lexed(WordToken(s[..n]), s[n..])
    else if IsDigit(s[0]) then LexNumber(s)
    else if s[0] == '"' then
      var n := QuoteLength(s[1..]);
      Lexed(StrLit(s[1..1 + n]), if 1 + n < |s| then s[2 + n..] else s[1 + n..])
    else Lexed(Unknown, s[1..])
  }

  /** Lexer with its position, as the source keeps it. */
  class Lexer {
    const buffer: string
    var pos: nat

    constructor (text: string)
      ensures buffer == text && pos == 0
    {
      buffer, pos := text, 0;
    }

    ghost predicate Valid()
      reads this
    {
      pos <= |buffer|
    }

    method SkipLine()
      requires Valid()
      modifies this
      ensures Valid() && buffer[pos..] == old(buffer[pos..])[LineLength(old(buffer[pos..]))..]
    {
      ghost var s := buffer[pos..];
      ghost var start := pos;
      while pos < |buffer|
        invariant start <= pos <= |buffer|
        invariant LineLength(s) == pos - start + LineLength(buffer[pos..])
      {
        var c := buffer[pos];
        assert buffer[pos..][1..] == buffer[pos + 1..];
        pos := pos + 1;
        if c == '\n' || c == '\r' { return; }
      }
    }

    method WordEnd()
      requires Valid()
      modifies this
      ensures Valid() && pos == old(pos) + WordLength(buffer[old(pos)..])
    {
      ghost var start := pos;
      while pos < |buffer| && IsWord(buffer[pos])
        invariant start <= pos <= |buffer|
        invariant WordLength(buffer[start..]) == pos - start + WordLength(buffer[pos..])
      {
        assert buffer[pos..][1..] == buffer[pos + 1..];
        pos := pos + 1;
      }
    }

    /** Digits and at most one period. */
    method NumberEnd() returns (seenPoint: bool)
      requires Valid()
      modifies this
      ensures Valid() && pos == old(pos) + NumberLength(buffer[old(pos)..], false)
      ensures seenPoint <==> '.' in buffer[old(pos)..pos]
    {
      ghost var start := pos;
      seenPoint := false;
      while pos < |buffer| && (IsDigit(buffer[pos]) || buffer[pos] == '.')
        invariant start <= pos <= |buffer|
        invariant NumberLength(buffer[start..], false) == pos - start + NumberLength(buffer[pos..], seenPoint)
        invariant seenPoint <==> '.' in buffer[start..pos]
      {
        assert buffer[pos..][1..] == buffer[pos + 1..];
        assert buffer[start..pos + 1] == buffer[start..pos] + [buffer[pos]];
        if buffer[pos] == '.' {
          if seenPoint { break; }
          seenPoint := true;
        }
        pos := pos + 1;
      }
    }

    /** A number; pos is at its first character. */
    method Number() returns (tok: Token)
      requires Valid() && pos < |buffer|
      modifies this
      ensures Valid() && Lexed(tok, buffer[pos..]) == LexNumber(buffer[old(pos)..])
    {
      ghost var s := buffer[pos..];
      var start := pos;
      pos := pos + 1;
      if pos < |buffer| && buffer[pos] == '-' { pos := pos + 1; }
      ghost var first := pos - start;
      assert buffer[pos..] == s[first..];
      var seenPoint := NumberEnd();
      assert buffer[start + first..pos] == s[first..pos - start] && buffer[start..pos] == s[..pos - start];
      assert buffer[pos..] == s[pos - start..];
      tok := if seenPoint then FloatLit(buffer[start..pos]) else IntLit(buffer[start..pos]);
    }

    method QuoteEnd()
      requires Valid()
      modifies this
      ensures Valid() && pos == old(pos) + QuoteLength(buffer[old(pos)..])
    {
      ghost var start := pos;
      while pos < |buffer| && buffer[pos] != '"'
        invariant start <= pos <= |buffer|
        invariant QuoteLength(buffer[start..]) == pos - start + QuoteLength(buffer[pos..])
      {
        assert buffer[pos..][1..] == buffer[pos + 1..];
        pos := pos + 1;
      }
    }

    /** The blanks and comments before a token. */
    method SkipBlanks()
      requires Valid()
      modifies this
      ensures Valid() && Lex(buffer[pos..]) == Lex(buffer[old(pos)..])
      ensures pos == |buffer| || StartsToken(buffer[pos..])
    {
      ghost var start := pos;
      while pos < |buffer| && !StartsToken(buffer[pos..])
        invariant start <= pos <= |buffer| && Lex(buffer[pos..]) == Lex(buffer[start..])
      {
        ghost var s := buffer[pos..];
        if IsBlank(buffer[pos]) {
          assert s[1..] == buffer[pos + 1..];
          pos := pos + 1;
        } else {
          assert s[2..] == buffer[pos + 2..];
          pos := pos + 2;
          SkipLine();
          assert Lex(s) == Lex(s[2 + LineLength(s[2..])..]);
          assert s[2..][LineLength(s[2..])..] == s[2 + LineLength(s[2..])..];
        }
      }
    }

    /** A name, a keyword or a built-in function. */
    method Word() returns (tok: Token)
      requires Valid() && pos < |buffer| && (IsAlpha(buffer[pos]) || buffer[pos] == '_')
      modifies this
      ensures Valid() && Lexed(tok, buffer[pos..]) == Lex(buffer[old(pos)..])
    {
      hide WordLength, QuoteLength, LineLength, LexNumber;
      ghost var s := buffer[pos..];
      var start := pos;
      assert buffer[pos + 1..] == s[1..];
      pos := pos + 1;
      WordEnd();
      assert buffer[start..pos] == s[..pos - start] && buffer[pos..] == s[pos - start..];
      tok := WordToken(buffer[start..pos]);
    }

    /** A string, up to the closing quote if there is one. */
    method Quoted() returns (tok: Token)
      requires Valid() && pos < |buffer| && buffer[pos] == '"'
      modifies this
      ensures Valid() && Lexed(tok, buffer[pos..]) == Lex(buffer[old(pos)..])
    {
      hide WordLength, QuoteLength, LineLength, LexNumber;
      ghost var s := buffer[pos..];
      var start := pos;
      assert buffer[pos + 1..] == s[1..];
      pos := pos + 1;
      QuoteEnd();
      tok := StrLit(buffer[start + 1..pos]);
      assert buffer[start + 1..pos] == s[1..pos - start];
      if pos < |buffer| { pos := pos + 1; }
      assert buffer[pos..] == s[pos - start..];
    }

    /** A punctuator of one or two characters, or an unknown character. */
    method Mark() returns (tok: Token)
      requires Valid() && StartsToken(buffer[pos..]) && !IsDigit(buffer[pos]) && !IsAlpha(buffer[pos])
      requires buffer[pos] != '_' && buffer[pos] != '"'
      requires !(buffer[pos] == '-' && pos + 1 < |buffer| && IsDigit(buffer[pos + 1]))
      modifies this
      ensures Valid() && Lexed(tok, buffer[pos..]) == Lex(buffer[old(pos)..])
    {
      hide WordLength, QuoteLength, LineLength, LexNumber;
      ghost var s := buffer[pos..];
      var start, c := pos, buffer[pos];
      var doubled := pos + 1 < |buffer| &&
        ((c == '.' && buffer[pos + 1] == '.') || (TakesEqual(c) && buffer[pos + 1] == '='));
      assert |s| == |buffer| - pos && (|s| > 1 ==> s[1] == buffer[pos + 1]);
      pos := pos + if doubled then 2 else 1;
      assert buffer[pos..] == s[pos - start..];
      assert buffer[start..pos] == s[..pos - start];
      tok := if IsPunct(c) then Punct(buffer[start..pos]) else Unknown;
    }

    /** The next token. */
    method NextToken() returns (tok: Token)
      requires Valid()
      modifies this
      ensures Valid() && Lexed(tok, buffer[pos..]) == Lex(buffer[old(pos)..])
    {
      hide WordLength, QuoteLength, LineLength, LexNumber;
      SkipBlanks();
      if pos == |buffer| { return Eof; }
      var c := buffer[pos];
      if IsDigit(c) || (c == '-' && pos + 1 < |buffer| && IsDigit(buffer[pos + 1])) {
        assert buffer[pos..][0] == c && (c == '-' ==> buffer[pos..][1] == buffer[pos + 1]);
        tok := Number();
      } else if IsAlpha(c) || c == '_' {
        tok := Word();
      } else if c == '"' {
        tok := Quoted();
      } else {
        tok := Mark();
      }
    }
  }

  predicate IsPunct(c: char) { IsPlainPunct(c) || TakesEqual(c) || c == '.' || c == '-' || c == '/' }

  /** Not a blank, and not a comment. */
  predicate StartsToken(s: string)
  {
    s != [] && !IsBlank(s[0]) && !(s[0] == '/' && |s| > 1 && s[1] == '/')
  }

  // ---- What the lexer does with well-separated text ---------------------------------------------

  /** Text that ends the token before it. */
  predicate Ends(r: string)
  {
    r == [] || (!IsWord(r[0]) && r[0] != '.' && r[0] != '-')
  }

  lemma {:induction false} LexBlank(s: string)
    ensures Lex([' '] + s) == Lex(s)
  {
    assert ([' '] + s)[1..] == s;
  }

  lemma {:induction false} LexBlanks(s: string)
    ensures Lex("  " + s) == Lex(s)
  {
    assert "  " + s == [' '] + ([' '] + s);
    LexBlank([' '] + s);
    LexBlank(s);
  }

  lemma {:induction false} LexPlain(c: char, s: string)
    requires IsPlainPunct(c)
    ensures Lex([c] + s) == Lexed(Punct([c]), s)
  {
    var t := [c] + s;
    assert t[..1] == [c] && t[1..] == s;
  }

  /** An identifier of the language that is not reserved. */
  predicate IsName(x: string)
  {
    x != [] && (IsAlpha(x[0]) || x[0] == '_') && (forall c | c in x :: IsWord(c)) && x !in FUNCS && x !in KEYWORDS
  }

  lemma {:induction false} WordStops(x: string, r: string)
    requires (forall c | c in x :: IsWord(c)) && Ends(r)
    ensures WordLength(x + r) == |x|
  {
    if x == [] {
      assert x + r == r;
    } else {
      assert x[0] in x && (x + r)[0] == x[0] && (x + r)[1..] == x[1..] + r;
      WordStops(x[1..], r);
    }
  }

  /** A word is one token. */
  lemma {:induction false} LexWord(x: string, r: string)
    requires x != [] && (IsAlpha(x[0]) || x[0] == '_') && (forall c | c in x :: IsWord(c)) && Ends(r)
    ensures Lex(x + r) == Lexed(WordToken(x), r)
  {
    var s := x + r;
    assert s[1..] == x[1..] + r;
    WordStops(x[1..], r);
    assert s[..|x|] == x && s[|x|..] == r;
  }

  /** What leaves the number before it whole: a minus sign right after its first digit is taken into it. */
  predicate EndsNumber(x: string, r: string)
  {
    r == [] || (!IsDigit(r[0]) && r[0] != '.' && !(|x| == 1 && r[0] == '-'))
  }

  lemma {:induction false} NumberRunsOn(x: string, r: string)
    requires forall c | c in x :: IsDigit(c)
    ensures var n := NumberLength(x + r, false);
      if r == [] || (!IsDigit(r[0]) && r[0] != '.') then n == |x| else n > |x|
  {
    if x == [] {
      assert x + r == r;
    } else {
      assert x[0] in x && (x + r)[0] == x[0] && (x + r)[1..] == x[1..] + r;
      NumberRunsOn(x[1..], r);
    }
  }

  /** Exactly when digits are a token of their own: "1-2" is one token, "10-2" is three. */
  lemma {:induction false} LexDigitsExactly(x: string, r: string)
    requires x != [] && (forall c | c in x :: IsDigit(c))
    ensures Lex(x + r) == Lexed(IntLit(x), r) <==> EndsNumber(x, r)
  {
    hide WordLength, QuoteLength, LineLength, NumberLength;
    var s := x + r;
    assert x[0] in x && s[0] == x[0];
    if |x| > 1 { assert x[1] in x && s[1] == x[1]; }
    assert s[1..] == x[1..] + r;
    NumberRunsOn(x[1..], r);
    if EndsNumber(x, r) {
      assert s[..|x|] == x && s[|x|..] == r && s[1..|x|] == x[1..];
      assert '.' !in x[1..];
    } else {
      assert Lex(s) == LexNumber(s) && |LexNumber(s).rest| < |r|;
    }
  }

  /** A number before text that ends a token is one token. */
  lemma {:induction false} LexDigits(x: string, r: string)
    requires x != [] && (forall c | c in x :: IsDigit(c)) && Ends(r)
    ensures Lex(x + r) == Lexed(IntLit(x), r)
  {
    hide Lex;
    LexDigitsExactly(x, r);
  }

  /** And so is a number after a minus sign. */
  lemma {:induction false} LexMinus(x: string, r: string)
    requires x != [] && (forall c | c in x :: IsDigit(c)) && Ends(r)
    ensures Lex(['-'] + x + r) == Lexed(IntLit(['-'] + x), r)
  {
    hide WordLength, QuoteLength, LineLength, NumberLength;
    MinusTaken(x, r);
    var t := ['-'] + x + r;
    assert x[0] in x && t[0] == '-' && t[1] == x[0];
  }

  lemma {:induction false} MinusTaken(x: string, r: string)
    requires x != [] && (forall c | c in x :: IsDigit(c)) && Ends(r)
    ensures LexNumber(['-'] + x + r) == Lexed(IntLit(['-'] + x), r)
  {
    hide NumberLength;
    var t := ['-'] + x + r;
    assert x[0] in x && t[1..] == x + r && t[1] == x[0];
    NumberRunsOn(x, r);
    assert t[..1 + |x|] == ['-'] + x && t[1 + |x|..] == r && t[1..1 + |x|] == x;
    assert '.' !in x;
  }
}

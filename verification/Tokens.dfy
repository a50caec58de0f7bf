/**
 The T-SQL scanner: what one lexeme is, where the tokens of a source text lie,
 and the loop that finds them.

 A source text is the sequence of its bytes, each shown as the character with
 that code. Every test the scanner makes is on an ASCII code, so nothing below
 needs the codes to stay under 256.
 */
module Tokens {
  import opened Wrappers

  datatype Kind = Word | Number | String | Punct | Comment | Whitespace

  datatype Lexeme = Lexeme(kind: Kind, len: nat)

  datatype Token = Token(kind: Kind, start: nat, end: nat, line: nat, col: nat)

  // ---- byte classes --------------------------------------------------------

  predicate IsSpace(b: char) { b == ' ' || b == '\t' || b == '\r' || b == '\n' }

  predicate IsAlpha(b: char) { 'a' <= b <= 'z' || 'A' <= b <= 'Z' }

  predicate IsDigit(b: char) { '0' <= b <= '9' }

  predicate IsWordStart(b: char) { IsAlpha(b) || b == '_' || b == '@' || b == '#' }

  predicate IsWordPart(b: char) { IsAlpha(b) || IsDigit(b) || b == '_' || b == '$' || b == '#' }

  predicate IsNumberPart(b: char) { IsDigit(b) || b == '.' }

  predicate NotNewline(b: char) { b != '\n' }

  predicate NotCloseBracket(b: char) { b != ']' }

  // ---- the shape of one lexeme, as a function of the text that follows ------

  predicate Opens(s: string) { |s| >= 2 && s[0] == '/' && s[1] == '*' }

  predicate Closes(s: string) { |s| >= 2 && s[0] == '*' && s[1] == '/' }

  predicate Dashes(s: string) { |s| >= 2 && s[0] == '-' && s[1] == '-' }

  /** Length of the longest run at the head of `s` whose bytes all satisfy `p`. */
  function Span(s: string, p: char -> bool): (n: nat)
    ensures n <= |s|
  {
    if s == [] || !p(s[0]) then 0 else 1 + Span(s[1..], p)
  }

  lemma {:induction false} SpanIsLongest(s: string, p: char -> bool)
    ensures var n := Span(s, p);
            && (forall k :: 0 <= k < n ==> p(s[k]))
            && (n < |s| ==> !p(s[n]))
  {
    if s != [] && p(s[0]) {
      SpanIsLongest(s[1..], p);
      assert forall k :: 0 < k < Span(s, p) ==> s[k] == s[1..][k - 1];
    }
  }

  lemma SpanOfDashes(s: string)
    requires Dashes(s)
    ensures Span(s, NotNewline) == 2 + Span(s[2..], NotNewline)
  {
    assert s[1..][0] == '-' && s[1..][1..] == s[2..];
  }

  /** Bytes from just after an opening quote `q` through its closing quote; a
      doubled quote is an escaped one. None when the quote is never closed. */
  function QuoteTail(s: string, q: char): (r: Option<nat>)
    ensures r.Some? ==> 0 < r.value <= |s|
  {
    if s == [] then None
    else if s[0] == q then
      if |s| >= 2 && s[1] == q then Plus(2, QuoteTail(s[2..], q)) else Some(1)
    else Plus(1, QuoteTail(s[1..], q))
  }

  /** Bytes from inside a block comment at nesting `depth` through the closer
      that ends it. None when it is never closed. */
  function BlockTail(s: string, depth: nat): (r: Option<nat>)
    requires depth > 0
    ensures r.Some? ==> 2 <= r.value <= |s|
  {
    if |s| < 2 then None
    else if Opens(s) then Plus(2, BlockTail(s[2..], depth + 1))
    else if Closes(s) then
      if depth == 1 then Some(2) else Plus(2, BlockTail(s[2..], depth - 1))
    else Plus(1, BlockTail(s[1..], depth))
  }

  function Plus(n: nat, r: Option<nat>): Option<nat> {
    match r case None => None case Some(m) => Some(n + m)
  }

  /** One unfolding of BlockTail, on offsets into a text. */
  lemma BlockStep(src: string, j: nat, depth: nat)
    requires j <= |src| && depth > 0
    ensures BlockTail(src[j..], depth) ==
            if j + 1 >= |src| then None
            else if src[j] == '/' && src[j + 1] == '*' then Plus(2, BlockTail(src[j + 2..], depth + 1))
            else if src[j] == '*' && src[j + 1] == '/' then
              if depth == 1 then Some(2) else Plus(2, BlockTail(src[j + 2..], depth - 1))
            else Plus(1, BlockTail(src[j + 1..], depth))
  {
  }

  /** An opened lexeme runs through its closer, or to the end of the text. */
  function Through(head: nat, tail: Option<nat>, whole: nat): nat {
    match tail case None => whole case Some(n) => head + n
  }

  /** The lexeme at the head of a nonempty text. */
  function Lex(s: string): (x: Lexeme)
    requires s != []
    ensures 0 < x.len <= |s|
  {
    var b := s[0];
    if IsSpace(b) then Lexeme(Whitespace, Span(s, IsSpace))
    else if Dashes(s) then Lexeme(Comment, Span(s, NotNewline))
    else if Opens(s) then Lexeme(Comment, Through(2, BlockTail(s[2..], 1), |s|))
    else if b == '\'' then Lexeme(String, Through(1, QuoteTail(s[1..], b), |s|))
    else if b == '"' then Lexeme(Word, Through(1, QuoteTail(s[1..], b), |s|))
    else if b == '[' then
      var n := 1 + Span(s[1..], NotCloseBracket);
      Lexeme(Word, if n < |s| then n + 1 else n)
    else if IsWordStart(b) then Lexeme(Word, 1 + Span(s[1..], IsWordPart))
    else if IsDigit(b) then Lexeme(Number, 1 + Span(s[1..], IsNumberPart))
    else Lexeme(Punct, 1)
  }

  // ---- positions -----------------------------------------------------------

  function Newlines(s: string): nat {
    if s == [] then 0 else Newlines(s[..|s| - 1]) + if s[|s| - 1] == '\n' then 1 else 0
  }

  /** Bytes after the last newline of `s`. */
  function LastRun(s: string): (n: nat)
    ensures n <= |s|
  {
    if s == [] || s[|s| - 1] == '\n' then 0 else LastRun(s[..|s| - 1]) + 1
  }

  function LineAt(src: string, i: nat): nat
    requires i <= |src|
  {
    1 + Newlines(src[..i])
  }

  function ColAt(src: string, i: nat): nat
    requires i <= |src|
  {
    1 + LastRun(src[..i])
  }

  lemma {:induction false} PositionsConcat(a: string, b: string)
    ensures Newlines(a + b) == Newlines(a) + Newlines(b)
    ensures LastRun(a + b) == if Newlines(b) > 0 then LastRun(b) else LastRun(a) + |b|
    ensures Newlines(b) == 0 ==> LastRun(b) == |b|
    decreases |b|
  {
    if b == [] {
      assert a + b == a;
    } else {
      var c := b[..|b| - 1];
      PositionsConcat(a, c);
      assert (a + b)[..|a + b| - 1] == a + c;
    }
  }

  lemma {:induction false} NoNewlines(s: string)
    requires forall k :: 0 <= k < |s| ==> s[k] != '\n'
    ensures Newlines(s) == 0 && LastRun(s) == |s|
    decreases |s|
  {
    if s != [] {
      NoNewlines(s[..|s| - 1]);
    }
  }

  lemma Extend(src: string, i: nat, j: nat, k: nat)
    requires i <= j <= k <= |src|
    ensures Newlines(src[i..k]) == Newlines(src[i..j]) + Newlines(src[j..k])
    ensures LastRun(src[i..k]) ==
            if Newlines(src[j..k]) > 0 then LastRun(src[j..k]) else LastRun(src[i..j]) + k - j
  {
    assert src[i..k] == src[i..j] + src[j..k];
    PositionsConcat(src[i..j], src[j..k]);
  }

  lemma ExtendByPair(src: string, i: nat, j: nat)
    requires i <= j && j + 2 <= |src| && (Opens(src[j..]) || Closes(src[j..]))
    ensures Newlines(src[i..j + 2]) == Newlines(src[i..j])
    ensures LastRun(src[i..j + 2]) == LastRun(src[i..j]) + 2
  {
    Extend(src, i, j, j + 2);
    NoNewlines(src[j..j + 2]);
  }

  lemma ExtendByOne(src: string, i: nat, j: nat)
    requires i <= j < |src|
    ensures Newlines(src[i..j + 1]) == Newlines(src[i..j]) + if src[j] == '\n' then 1 else 0
    ensures LastRun(src[i..j + 1]) == if src[j] == '\n' then 0 else LastRun(src[i..j]) + 1
  {
    assert src[i..j + 1][..j - i] == src[i..j];
  }

  /** Advancing the position counters over `src[i..j]`. */
  lemma Advance(src: string, i: nat, j: nat)
    requires i <= j <= |src|
    ensures LineAt(src, j) == LineAt(src, i) + Newlines(src[i..j])
    ensures ColAt(src, j) ==
            if Newlines(src[i..j]) > 0 then LastRun(src[i..j]) + 1
            else ColAt(src, i) + LastRun(src[i..j])
  {
    assert src[..j] == src[..i] + src[i..j];
    PositionsConcat(src[..i], src[i..j]);
  }

  lemma PositionAtStart(src: string)
    ensures LineAt(src, 0) == 1 && ColAt(src, 0) == 1
  {
  }

  // ---- the tokens of a text --------------------------------------------------

  /** The tokens from offset `i` on. Positions are stated outright: a line is
      one plus the newlines before the token, a column one plus the bytes since
      the last of them. */
  function TokensFrom(src: string, i: nat): seq<Token>
    requires i <= |src|
    decreases |src| - i
  {
    if i == |src| then []
    else
      var x := Lex(src[i..]);
      Emitted(src, i, x) + TokensFrom(src, i + x.len)
  }

  /** The token of lexeme `x` at offset `i`, if it makes one. */
  function Emitted(src: string, i: nat, x: Lexeme): seq<Token>
    requires i <= |src|
  {
    if x.kind.Whitespace? then [] else [Token(x.kind, i, i + x.len, LineAt(src, i), ColAt(src, i))]
  }

  lemma TokensStep(src: string, i: nat)
    requires i < |src|
    ensures var x := Lex(src[i..]);
            TokensFrom(src, i) == Emitted(src, i, x) + TokensFrom(src, i + x.len)
  {
    hide Lex;
  }

  lemma TokensEnd(src: string)
    ensures TokensFrom(src, |src|) == []
  {
  }

  function Scan(src: string): seq<Token> { TokensFrom(src, 0) }

  // ---- the scanner itself ----------------------------------------------------

  method SpanLines(seg: string) returns (nl: nat, last: nat)
    ensures nl == Newlines(seg) && last == LastRun(seg)
  {
    nl, last := 0, 0;
    for k := 0 to |seg|
      invariant nl == Newlines(seg[..k]) && last == LastRun(seg[..k])
    {
      assert seg[..k + 1][..k] == seg[..k];
      if seg[k] == '\n' {
        nl, last := nl + 1, 0;
      } else {
        last := last + 1;
      }
    }
    assert seg[..|seg|] == seg;
  }

  method ScanSpace(src: string, i: nat) returns (j: nat, nl: nat, last: nat)
    requires i <= |src|
    ensures j == i + Span(src[i..], IsSpace)
    ensures nl == Newlines(src[i..j]) && last == LastRun(src[i..j])
  {
    j, nl, last := i, 0, 0;
    while j < |src|
      invariant i <= j <= |src|
      invariant Span(src[i..], IsSpace) == j - i + Span(src[j..], IsSpace)
      invariant nl == Newlines(src[i..j]) && last == LastRun(src[i..j])
    {
      ExtendByOne(src, i, j);
      if src[j] == '\n' {
        nl, last, j := nl + 1, 0, j + 1;
      } else if src[j] == ' ' || src[j] == '\t' || src[j] == '\r' {
        last, j := last + 1, j + 1;
      } else {
        break;
      }
    }
  }

  /** A run of bytes of one class; the loops over line comments, bracketed
      names, words and numbers differ only in the class. */
  method ScanRun(src: string, i: nat, p: char -> bool) returns (j: nat)
    requires i <= |src|
    ensures j == i + Span(src[i..], p)
    ensures forall k :: i <= k < j ==> p(src[k])
  {
    j := i;
    while j < |src| && p(src[j])
      invariant i <= j <= |src|
      invariant forall k :: i <= k < j ==> p(src[k])
      invariant Span(src[i..], p) == j - i + Span(src[j..], p)
    {
      j := j + 1;
    }
  }

  method ScanQuoted(src: string, i: nat) returns (j: nat)
    requires i < |src|
    ensures j == i + Through(1, QuoteTail(src[i + 1..], src[i]), |src| - i)
  {
    var q := src[i];
    j := i + 1;
    while j < |src|
      invariant i < j <= |src|
      invariant QuoteTail(src[i + 1..], q) == Plus(j - i - 1, QuoteTail(src[j..], q))
    {
      if src[j] == q {
        if j + 1 < |src| && src[j + 1] == q {
          j := j + 2;
          continue;
        }
        j := j + 1;
        return;
      }
      j := j + 1;
    }
  }

  /** A nested block comment. The counters cover the whole lexeme unless it is
      unterminated: then the last byte is not looked at and they may be stale. */
  method ScanBlock(src: string, i: nat) returns (j: nat, nl: nat, last: nat)
    requires i < |src| && Opens(src[i..])
    ensures j == i + Through(2, BlockTail(src[i + 2..], 1), |src| - i)
    ensures j < |src| ==> nl == Newlines(src[i..j]) && last == LastRun(src[i..j])
  {
    hide BlockTail, Newlines, LastRun;
    j, nl, last := i + 2, 0, 2;
    var depth := 1;
    assert Newlines(src[i..i]) == 0 && LastRun(src[i..i]) == 0 by {
      NoNewlines(src[i..i]);
    }
    ExtendByPair(src, i, i);
    while j + 1 < |src|
      invariant i + 2 <= j <= |src|
      invariant depth > 0
      invariant BlockTail(src[i + 2..], 1) == Plus(j - i - 2, BlockTail(src[j..], depth))
      invariant nl == Newlines(src[i..j]) && last == LastRun(src[i..j])
    {
      BlockStep(src, j, depth);
      if src[j] == '/' && src[j + 1] == '*' {
        ExtendByPair(src, i, j);
        depth, last, j := depth + 1, last + 2, j + 2;
        continue;
      }
      if src[j] == '*' && src[j + 1] == '/' {
        ExtendByPair(src, i, j);
        depth, last, j := depth - 1, last + 2, j + 2;
        if depth == 0 {
          return;
        }
        continue;
      }
      ExtendByOne(src, i, j);
      if src[j] == '\n' {
        nl, last := nl + 1, 0;
      } else {
        last := last + 1;
      }
      j := j + 1;
    }
    BlockStep(src, j, depth);
    j := |src|;
  }

  /** One step of the scan: the lexeme at `i` and how far it moves the counters. */
  method ScanLexeme(src: string, i: nat) returns (kind: Kind, advance: nat, newlines: nat, lastLineChars: nat)
    requires i < |src|
    ensures Lexeme(kind, advance) == Lex(src[i..])
    ensures i + advance < |src| ==>
              newlines == Newlines(src[i..i + advance]) && lastLineChars == LastRun(src[i..i + advance])
  {
    hide Span, QuoteTail, BlockTail, Newlines, LastRun;
    var b := src[i];
    var j: nat;
    newlines := 0;
    if IsSpace(b) {
      j, newlines, lastLineChars := ScanSpace(src, i);
      kind := Whitespace;
    } else if b == '-' && i + 1 < |src| && src[i + 1] == '-' {
      j := ScanRun(src, i + 2, NotNewline);
      kind, lastLineChars := Comment, j - i;
      SpanOfDashes(src[i..]);
      NoNewlines(src[i..j]);
    } else if b == '/' && i + 1 < |src| && src[i + 1] == '*' {
      j, newlines, lastLineChars := ScanBlock(src, i);
      kind := Comment;
    } else if b == '\'' || b == '"' {
      j := ScanQuoted(src, i);
      kind := if b == '\'' then String else Word;
      newlines, lastLineChars := SpanLines(src[i..j]);
    } else if b == '[' {
      j := ScanRun(src, i + 1, NotCloseBracket);
      if j < |src| {
        j := j + 1;
      }
      kind := Word;
      newlines, lastLineChars := SpanLines(src[i..j]);
    } else if IsWordStart(b) {
      j := ScanRun(src, i + 1, IsWordPart);
      kind, lastLineChars := Word, j - i;
      NoNewlines(src[i..j]);
    } else if IsDigit(b) {
      j := ScanRun(src, i + 1, IsNumberPart);
      kind, lastLineChars := Number, j - i;
      NoNewlines(src[i..j]);
    } else {
      kind, j, lastLineChars := Punct, i + 1, 1;
      NoNewlines(src[i..j]);
    }
    advance := j - i;
  }

  method Tokenize(src: string) returns (out: seq<Token>)
    ensures out == Scan(src)
  {
    hide Lex, TokensFrom, LineAt, ColAt, Newlines, LastRun;
    out := [];
    PositionAtStart(src);
    var i, line, col := 0, 1, 1;
    while i < |src|
      invariant i <= |src|
      invariant i < |src| ==> line == LineAt(src, i) && col == ColAt(src, i)
      invariant Scan(src) == out + TokensFrom(src, i)
    {
      var kind, advance, newlines, lastLineChars := ScanLexeme(src, i);
      TokensStep(src, i);
      if kind != Whitespace {
        out := out + [Token(kind, i, i + advance, line, col)];
      }
      Advance(src, i, i + advance);
      i := i + advance;
      if newlines > 0 {
        line, col := line + newlines, lastLineChars + 1;
      } else {
        col := col + lastLineChars;
      }
    }
    TokensEnd(src);
  }
}

/**
 Which bytes make which lexeme, byte by byte, and what line and column a token
 carries: the scanner's classes spelled out.
 */
module TokenShapes {
  import opened Tokens

  /** White space is space, tab, CR and LF, and a lexeme takes all of it. */
  lemma SpaceLexeme(s: string)
    requires s != [] && (s[0] == ' ' || s[0] == '\t' || s[0] == '\r' || s[0] == '\n')
    ensures var n := Lex(s).len;
            && Lex(s).kind == Whitespace
            && (forall k :: 0 <= k < n ==> s[k] == ' ' || s[k] == '\t' || s[k] == '\r' || s[k] == '\n')
            && (n < |s| ==> s[n] != ' ' && s[n] != '\t' && s[n] != '\r' && s[n] != '\n')
  {
    hide Span;
    SpanIsLongest(s, IsSpace);
  }

  /** A line comment is two dashes and everything up to the next newline. */
  lemma LineCommentLexeme(s: string)
    requires |s| >= 2 && s[0] == '-' && s[1] == '-'
    ensures var n := Lex(s).len;
            && Lex(s).kind == Comment && n >= 2
            && (forall k :: 0 <= k < n ==> s[k] != '\n') && (n < |s| ==> s[n] == '\n')
  {
    hide Span;
    SpanIsLongest(s, NotNewline);
    SpanOfDashes(s);
  }

  /** After a letter, underscore, at or number sign: a word, as long as letters,
      digits, underscores, dollars and number signs go on. */
  lemma WordLexeme(s: string)
    requires s != []
    requires 'a' <= s[0] <= 'z' || 'A' <= s[0] <= 'Z' || s[0] == '_' || s[0] == '@' || s[0] == '#'
    ensures var n := Lex(s).len;
            && Lex(s).kind == Word
            && (forall k :: 1 <= k < n ==>
                  || 'a' <= s[k] <= 'z' || 'A' <= s[k] <= 'Z' || '0' <= s[k] <= '9'
                  || s[k] == '_' || s[k] == '$' || s[k] == '#')
            && (n < |s| ==>
                  && !('a' <= s[n] <= 'z') && !('A' <= s[n] <= 'Z') && !('0' <= s[n] <= '9')
                  && s[n] != '_' && s[n] != '$' && s[n] != '#')
  {
    hide Span, BlockTail, QuoteTail;
    SpanIsLongest(s[1..], IsWordPart);
    assert forall k :: 1 <= k < Lex(s).len ==> s[k] == s[1..][k - 1];
  }

  /** After a digit: a number, as long as digits and dots go on. */
  lemma NumberLexeme(s: string)
    requires s != [] && '0' <= s[0] <= '9'
    ensures var n := Lex(s).len;
            && Lex(s).kind == Number
            && (forall k :: 1 <= k < n ==> '0' <= s[k] <= '9' || s[k] == '.')
            && (n < |s| ==> !('0' <= s[n] <= '9') && s[n] != '.')
  {
    hide Span, BlockTail, QuoteTail;
    SpanIsLongest(s[1..], IsNumberPart);
    assert forall k :: 1 <= k < Lex(s).len ==> s[k] == s[1..][k - 1];
  }

  /** A bracketed name is a word through the first closing bracket, or to the end. */
  lemma BracketLexeme(s: string)
    requires s != [] && s[0] == '['
    ensures var n := Lex(s).len;
            && Lex(s).kind == Word
            && (forall k :: 0 <= k < n - 1 ==> s[k] != ']')
            && (s[n - 1] == ']' || n == |s|)
  {
    hide Span, BlockTail, QuoteTail;
    SpanIsLongest(s[1..], NotCloseBracket);
    assert forall k :: 1 <= k < Lex(s).len ==> s[k] == s[1..][k - 1];
  }

  /** Every other byte that opens no comment and no quoted lexeme stands alone. */
  lemma PunctLexeme(s: string)
    requires s != [] && s[0] != ' ' && s[0] != '\t' && s[0] != '\r' && s[0] != '\n'
    requires |s| >= 2 ==> !(s[0] == '-' && s[1] == '-') && !(s[0] == '/' && s[1] == '*')
    requires s[0] != '\'' && s[0] != '"' && s[0] != '[' && s[0] != '_' && s[0] != '@' && s[0] != '#'
    requires !('a' <= s[0] <= 'z') && !('A' <= s[0] <= 'Z') && !('0' <= s[0] <= '9')
    ensures Lex(s) == Lexeme(Punct, 1)
  {
    hide Span, BlockTail, QuoteTail;
  }

  /** A quote opens a string, a double quote a word. */
  lemma QuotedKinds(s: string)
    requires s != [] && (s[0] == '\'' || s[0] == '"')
    ensures Lex(s).kind == if s[0] == '\'' then String else Word
  {
    hide QuoteTail;
  }

  // ---- lines and columns -------------------------------------------------------------------

  lemma {:induction false} NewlinesCounted(s: string)
    ensures Newlines(s) == |set k | 0 <= k < |s| && s[k] == '\n'|
    decreases |s|
  {
    var all := set k | 0 <= k < |s| && s[k] == '\n';
    if s != [] {
      var n := |s| - 1;
      var before := set k | 0 <= k < n && s[..n][k] == '\n';
      NewlinesCounted(s[..n]);
      if s[n] == '\n' {
        assert all == before + {n};
      } else {
        assert all == before;
      }
    }
  }

  /** A line number is one more than the newlines before. */
  lemma LineIsCounted(src: string, i: nat)
    requires i <= |src|
    ensures LineAt(src, i) == 1 + |set k | 0 <= k < i && src[k] == '\n'|
  {
    NewlinesCounted(src[..i]);
    assert (set k | 0 <= k < i && src[k] == '\n') == set k | 0 <= k < |src[..i]| && src[..i][k] == '\n';
  }

  lemma {:induction false} LastRunMeans(s: string)
    ensures var n := LastRun(s);
            && (forall k :: |s| - n <= k < |s| ==> s[k] != '\n')
            && (n < |s| ==> s[|s| - n - 1] == '\n')
    decreases |s|
  {
    if s != [] && s[|s| - 1] != '\n' {
      LastRunMeans(s[..|s| - 1]);
    }
  }

  /** A column is one more than the bytes since the last newline, or since the start. */
  lemma ColumnIsDistance(src: string, i: nat)
    requires i <= |src|
    ensures var n := ColAt(src, i) - 1;
            && 0 <= n <= i
            && (forall k :: i - n <= k < i ==> src[k] != '\n')
            && (n < i ==> src[i - n - 1] == '\n')
  {
    LastRunMeans(src[..i]);
  }
}

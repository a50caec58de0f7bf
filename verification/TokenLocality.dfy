/**
 Locality of the scan. A lexeme depends on its own bytes and at most one more,
 so what the scan did up to a boundary depends only on the text before it and
 the byte at it, and what it does from there only on the text after.
 */
module TokenLocality {
  import opened Tokens
  import opened TokenLaws

  /** The first `m` bytes of `s` and `t` exist and are the same. */
  ghost predicate Agree(s: string, t: string, m: nat) {
    m <= |s| && m <= |t| && forall k :: 0 <= k < m ==> s[k] == t[k]
  }

  // ---- one byte of lookahead -------------------------------------------------

  lemma {:induction false} SpanLookahead(s: string, t: string, p: char -> bool)
    requires Span(s, p) < |s| && Agree(s, t, Span(s, p) + 1)
    ensures Span(t, p) == Span(s, p)
  {
    if p(s[0]) {
      SpanLookahead(s[1..], t[1..], p);
    }
  }

  lemma {:induction false} QuoteLookahead(s: string, t: string, q: char)
    requires QuoteTail(s, q).Some? && QuoteTail(s, q).value < |s|
    requires Agree(s, t, QuoteTail(s, q).value + 1)
    ensures QuoteTail(t, q) == QuoteTail(s, q)
    decreases |s|
  {
    if s[0] == q && |s| >= 2 && s[1] == q {
      QuoteLookahead(s[2..], t[2..], q);
    } else if s[0] != q {
      QuoteLookahead(s[1..], t[1..], q);
    }
  }

  lemma {:induction false} BlockLookahead(s: string, t: string, depth: nat)
    requires depth > 0 && BlockTail(s, depth).Some?
    requires Agree(s, t, BlockTail(s, depth).value)
    ensures BlockTail(t, depth) == BlockTail(s, depth)
    decreases |s|
  {
    BlockTailNonempty(s, depth);
    BlockUnfold(s, depth);
    BlockUnfold(t, depth);
    hide BlockTail;
    if Opens(s) {
      BlockLookahead(s[2..], t[2..], depth + 1);
    } else if Closes(s) {
      if depth > 1 {
        BlockLookahead(s[2..], t[2..], depth - 1);
      }
    } else {
      BlockLookahead(s[1..], t[1..], depth);
    }
  }

  /** A lexeme that does not reach the end of its text is decided by its own
      bytes and the one after them. */
  lemma LexLookahead(s: string, t: string)
    requires s != [] && Lex(s).len < |s|
    requires Agree(s, t, Lex(s).len + 1)
    ensures Lex(t) == Lex(s)
  {
    hide Span, QuoteTail, BlockTail;
    var b := s[0];
    if IsSpace(b) {
      SpanLookahead(s, t, IsSpace);
    } else if Dashes(s) {
      SpanLookahead(s, t, NotNewline);
    } else if Opens(s) {
      BlockLookahead(s[2..], t[2..], 1);
    } else if b == '\'' || b == '"' {
      QuoteLookahead(s[1..], t[1..], b);
    } else if b == '[' {
      SpanLookahead(s[1..], t[1..], NotCloseBracket);
    } else if IsWordStart(b) {
      SpanLookahead(s[1..], t[1..], IsWordPart);
    } else if IsDigit(b) {
      SpanLookahead(s[1..], t[1..], IsNumberPart);
    }
  }

  // ---- token boundaries ------------------------------------------------------

  /** The scan that is at offset `i` gets to offset `j`. */
  predicate Reaches(src: string, i: nat, j: nat)
    decreases |src| - i
  {
    i == j || (i < j && i < |src| && Reaches(src, i + Lex(src[i..]).len, j))
  }

  lemma ReachesStep(src: string, i: nat, j: nat)
    requires i < |src| && i < j
    ensures Reaches(src, i, j) <==> Reaches(src, i + Lex(src[i..]).len, j)
  {
    hide Lex;
  }

  lemma {:induction false} ReachesWithin(src: string, i: nat, j: nat)
    requires i <= |src| && Reaches(src, i, j)
    ensures i <= j <= |src|
    decreases |src| - i
  {
    hide Lex;
    if i < j {
      ReachesWithin(src, i + Lex(src[i..]).len, j);
    }
  }

  /** The tokens the scan makes between two offsets it reaches. */
  function TokensBetween(src: string, i: nat, j: nat): seq<Token>
    requires i <= |src| && Reaches(src, i, j)
    decreases |src| - i
  {
    if i == j then []
    else
      var x := Lex(src[i..]);
      Emitted(src, i, x) + TokensBetween(src, i + x.len, j)
  }

  lemma TokensBetweenStep(src: string, i: nat, j: nat)
    requires i < |src| && i < j && Reaches(src, i, j)
    requires Reaches(src, i + Lex(src[i..]).len, j)
    ensures TokensBetween(src, i, j) ==
            Emitted(src, i, Lex(src[i..])) + TokensBetween(src, i + Lex(src[i..]).len, j)
  {
    hide Lex;
  }

  lemma {:induction false} TokensSplit(src: string, i: nat, j: nat)
    requires i <= |src| && Reaches(src, i, j)
    ensures j <= |src|
    ensures TokensFrom(src, i) == TokensBetween(src, i, j) + TokensFrom(src, j)
    decreases |src| - i
  {
    hide Lex, TokensFrom;
    ReachesWithin(src, i, j);
    if i < j {
      var n := i + Lex(src[i..]).len;
      TokensSplit(src, n, j);
      TokensStep(src, i);
      TokensBetweenStep(src, i, j);
      assert TokensFrom(src, i) ==
             Emitted(src, i, Lex(src[i..])) + (TokensBetween(src, n, j) + TokensFrom(src, j));
    }
  }

  lemma SameLexeme(src: string, src': string, i: nat, j: nat)
    requires i < j < |src| && i + Lex(src[i..]).len <= j
    requires Agree(src, src', j + 1)
    ensures Lex(src'[i..]) == Lex(src[i..])
  {
    LexLookahead(src[i..], src'[i..]);
  }

  lemma SamePosition(src: string, src': string, i: nat)
    requires Agree(src, src', i)
    ensures LineAt(src, i) == LineAt(src', i) && ColAt(src, i) == ColAt(src', i)
  {
    assert src[..i] == src'[..i];
  }

  /** Text that agrees up to and at a boundary has the same tokens before it. */
  lemma {:induction false} PrefixLocality(src: string, src': string, i: nat, j: nat)
    requires i <= j < |src| && Reaches(src, i, j)
    requires Agree(src, src', j + 1)
    ensures Reaches(src', i, j)
    ensures TokensBetween(src', i, j) == TokensBetween(src, i, j)
    decreases |src| - i
  {
    hide Lex, LineAt, ColAt;
    if i < j {
      var n := i + Lex(src[i..]).len;
      ReachesStep(src, i, j);
      ReachesWithin(src, n, j);
      SameLexeme(src, src', i, j);
      PrefixLocality(src, src', n, j);
      ReachesStep(src', i, j);
      TokensBetweenStep(src, i, j);
      TokensBetweenStep(src', i, j);
      SamePosition(src, src', i);
    }
  }

  // ---- comments, without their offsets ---------------------------------------

  /** What the suppression reader sees of a comment token. */
  datatype CommentText = CommentText(line: nat, text: string)

  function CommentOf(src: string, t: Token): seq<CommentText>
    requires t.start <= t.end <= |src|
  {
    if t.kind == Comment then [CommentText(t.line, src[t.start..t.end])] else []
  }

  function CommentTexts(src: string, ts: seq<Token>): seq<CommentText>
    requires forall t :: t in ts ==> t.start <= t.end <= |src|
  {
    if ts == [] then [] else CommentOf(src, ts[0]) + CommentTexts(src, ts[1..])
  }

  lemma {:induction false} CommentTextsConcat(src: string, a: seq<Token>, b: seq<Token>)
    requires forall t :: t in a + b ==> t.start <= t.end <= |src|
    ensures (forall t :: t in a ==> t in a + b) && (forall t :: t in b ==> t in a + b)
    ensures CommentTexts(src, a + b) == CommentTexts(src, a) + CommentTexts(src, b)
  {
    if a == [] {
      assert a + b == b;
    } else {
      assert (a + b)[1..] == a[1..] + b;
      assert forall t :: t in a[1..] + b ==> t in a + b;
      CommentTextsConcat(src, a[1..], b);
    }
  }

  function Comments(src: string): seq<CommentText> {
    CommentsFrom(src, 0)
  }

  function CommentsFrom(src: string, i: nat): seq<CommentText>
    requires i <= |src|
  {
    TokensTile(src, i);
    CommentTexts(src, TokensFrom(src, i))
  }

  /** The comment a lexeme is, if it is one. */
  function CommentAt(src: string, i: nat, x: Lexeme): seq<CommentText>
    requires i + x.len <= |src|
  {
    if x.kind == Comment then [CommentText(LineAt(src, i), src[i..i + x.len])] else []
  }

  lemma CommentOfEmitted(src: string, i: nat, x: Lexeme)
    requires i + x.len <= |src|
    ensures CommentTexts(src, Emitted(src, i, x)) == CommentAt(src, i, x)
  {
  }

  lemma CommentsStep(src: string, i: nat)
    requires i < |src|
    ensures CommentsFrom(src, i) ==
            CommentAt(src, i, Lex(src[i..])) + CommentsFrom(src, i + Lex(src[i..]).len)
  {
    hide Lex, TokensFrom, LineAt, ColAt, CommentTexts, Emitted, CommentAt;
    var x := Lex(src[i..]);
    TokensStep(src, i);
    CommentsUnfold(src, i);
    CommentsUnfold(src, i + x.len);
    assert forall t :: t in Emitted(src, i, x) + TokensFrom(src, i + x.len) ==> t.start <= t.end <= |src|;
    CommentTextsConcat(src, Emitted(src, i, x), TokensFrom(src, i + x.len));
    CommentOfEmitted(src, i, x);
  }

  lemma NoCommentsAtEnd(src: string)
    ensures CommentsFrom(src, |src|) == []
  {
  }

  lemma SameTail(s: string, i: nat, s': string, i': nat, n: nat)
    requires i + n <= |s| && i' <= |s'| && s[i..] == s'[i'..]
    ensures i' + n <= |s'|
    ensures s[i..i + n] == s'[i'..i' + n] && s[i + n..] == s'[i' + n..]
  {
    assert s[i..i + n] == s[i..][..n] && s'[i'..i' + n] == s'[i'..][..n];
    assert s[i + n..] == s[i..][n..] && s'[i' + n..] == s'[i'..][n..];
  }

  /** What follows a boundary is read the same wherever it stands, as long as
      it stands on the same line. */
  lemma {:induction false} SuffixLocality(src: string, i: nat, src': string, i': nat)
    requires i <= |src| && i' <= |src'| && src[i..] == src'[i'..]
    requires LineAt(src, i) == LineAt(src', i')
    ensures CommentsFrom(src, i) == CommentsFrom(src', i')
    decreases |src| - i
  {
    hide Lex, TokensFrom, CommentsFrom, Newlines, LastRun, LineAt, ColAt;
    if i == |src| {
      assert |src'[i'..]| == 0;
      NoCommentsAtEnd(src);
      NoCommentsAtEnd(src');
    } else {
      var n := Lex(src[i..]).len;
      SameTail(src, i, src', i', n);
      Advance(src, i, i + n);
      Advance(src', i', i' + n);
      CommentsStep(src, i);
      CommentsStep(src', i');
      SuffixLocality(src, i + n, src', i' + n);
    }
  }

  /** The `n` bytes at `i` are scanned as one lexeme, and not as a comment. */
  ghost predicate Inert(src: string, i: nat, n: nat) {
    && 0 < n
    && i + n <= |src|
    && Reaches(src, 0, i)
    && Lex(src[i..]).len == n
    && Lex(src[i..]).kind != Comment
  }

  lemma CommentsUnfold(src: string, i: nat)
    requires i <= |src|
    ensures forall t :: t in TokensFrom(src, i) ==> t.start <= t.end <= |src|
    ensures CommentsFrom(src, i) == CommentTexts(src, TokensFrom(src, i))
  {
    TokensTile(src, i);
  }

  lemma CommentsBefore(src: string, j: nat)
    requires Reaches(src, 0, j)
    ensures j <= |src|
    ensures forall t :: t in TokensBetween(src, 0, j) ==> t.start <= t.end <= j
    ensures Comments(src) == CommentTexts(src, TokensBetween(src, 0, j)) + CommentsFrom(src, j)
  {
    hide Lex, TokensFrom, CommentsFrom, CommentTexts, TokensBetween, Reaches;
    TokensSplit(src, 0, j);
    CommentsUnfold(src, 0);
    CommentsUnfold(src, j);
    TokensBetweenEnd(src, 0, j);
    CommentTextsConcat(src, TokensBetween(src, 0, j), TokensFrom(src, j));
  }

  lemma CommentsAroundInert(src: string, i: nat, n: nat)
    requires Inert(src, i, n)
    ensures forall t :: t in TokensBetween(src, 0, i) ==> t.start <= t.end <= i
    ensures Comments(src) == CommentTexts(src, TokensBetween(src, 0, i)) + CommentsFrom(src, i + n)
  {
    hide Lex, TokensFrom, CommentsFrom, CommentTexts, TokensBetween, Reaches, Comments, LineAt;
    CommentsBefore(src, i);
    CommentsStep(src, i);
  }

  lemma {:induction false} CommentTextsAgree(src: string, src': string, ts: seq<Token>, m: nat)
    requires Agree(src, src', m)
    requires forall t :: t in ts ==> t.start <= t.end <= m
    ensures CommentTexts(src, ts) == CommentTexts(src', ts)
  {
    if ts != [] {
      assert ts[0] in ts;
      assert src[ts[0].start..ts[0].end] == src'[ts[0].start..ts[0].end];
      CommentTextsAgree(src, src', ts[1..], m);
    }
  }

  lemma {:induction false} TokensBetweenEnd(src: string, i: nat, j: nat)
    requires i <= |src| && Reaches(src, i, j)
    ensures forall t :: t in TokensBetween(src, i, j) ==> t.start <= t.end <= j
    decreases |src| - i
  {
    hide Lex, LineAt, ColAt;
    if i < j {
      ReachesStep(src, i, j);
      TokensBetweenStep(src, i, j);
      ReachesWithin(src, i + Lex(src[i..]).len, j);
      TokensBetweenEnd(src, i + Lex(src[i..]).len, j);
    }
  }

  /** Replacing one inert lexeme by another that starts with the same byte and
      spans as many lines changes no comment of the file, nor its line. */
  lemma InertReplacement(src: string, src': string, i: nat, n: nat, n': nat)
    requires Inert(src, i, n)
    requires Agree(src, src', i + 1)
    requires i + n' <= |src'| && src'[i + n'..] == src[i + n..]
    requires Newlines(src'[i..i + n']) == Newlines(src[i..i + n])
    requires 0 < n' == Lex(src'[i..]).len && Lex(src'[i..]).kind != Comment
    ensures Inert(src', i, n')
    ensures Comments(src') == Comments(src)
  {
    hide Lex, CommentsFrom, CommentTexts, TokensBetween, Reaches, Comments, Newlines, LineAt, LastRun, ColAt;
    PrefixLocality(src, src', 0, i);
    CommentsAroundInert(src, i, n);
    CommentsAroundInert(src', i, n');
    CommentTextsAgree(src, src', TokensBetween(src, 0, i), i);
    SamePosition(src, src', i);
    Advance(src, i, i + n);
    Advance(src', i, i + n');
    SuffixLocality(src, i + n, src', i + n');
  }
}

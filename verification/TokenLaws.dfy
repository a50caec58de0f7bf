/**
 What the tokens of a text mean: where they lie, what a block comment and a
 quoted literal are, and which bytes each of them depends on.
 */
module TokenLaws {
  import opened Wrappers
  import opened Tokens

  // ---- tiling ----------------------------------------------------------------

  ghost predicate Covered(p: nat, ts: seq<Token>) {
    exists k :: 0 <= k < |ts| && ts[k].start <= p < ts[k].end
  }

  /** `ts` lie in order in `src[i..]`, and what they leave out is white space. */
  ghost predicate Tiles(src: string, i: nat, ts: seq<Token>)
    requires i <= |src|
  {
    && (forall k :: 0 <= k < |ts| ==>
          && i <= ts[k].start < ts[k].end <= |src|
          && !ts[k].kind.Whitespace?
          && !IsSpace(src[ts[k].start])
          && ts[k].line == LineAt(src, ts[k].start)
          && ts[k].col == ColAt(src, ts[k].start))
    && (forall j, k :: 0 <= j < k < |ts| ==> ts[j].end <= ts[k].start)
    && (forall p :: i <= p < |src| ==> Covered(p, ts) || IsSpace(src[p]))
  }

  lemma LexOfSpace(s: string)
    requires s != []
    ensures Lex(s).kind.Whitespace? <==> IsSpace(s[0])
    ensures Lex(s).kind.Whitespace? ==> forall k :: 0 <= k < Lex(s).len ==> IsSpace(s[k])
  {
    SpanIsLongest(s, IsSpace);
  }

  lemma CoveredStep(p: nat, head: seq<Token>, rest: seq<Token>)
    requires Covered(p, head) || Covered(p, rest)
    ensures Covered(p, head + rest)
  {
    var ts := head + rest;
    if Covered(p, head) {
      var k :| 0 <= k < |head| && head[k].start <= p < head[k].end;
      assert ts[k] == head[k];
    } else {
      var k :| 0 <= k < |rest| && rest[k].start <= p < rest[k].end;
      assert ts[|head| + k] == rest[k];
    }
  }

  lemma TilesStep(src: string, i: nat, n: nat, kind: Kind, rest: seq<Token>)
    requires 0 < n && i + n <= |src|
    requires Tiles(src, i + n, rest)
    requires kind.Whitespace? <==> IsSpace(src[i])
    requires kind.Whitespace? ==> forall p :: i <= p < i + n ==> IsSpace(src[p])
    ensures Tiles(src, i, Emitted(src, i, Lexeme(kind, n)) + rest)
  {
    hide LineAt, ColAt;
    var head := Emitted(src, i, Lexeme(kind, n));
    forall p | i <= p < |src| && !IsSpace(src[p])
      ensures Covered(p, head + rest)
    {
      if p < i + n {
        assert head[0].start <= p < head[0].end;
      }
      CoveredStep(p, head, rest);
    }
  }

  /** Every scan ends with tokens that are nonempty, increasing and disjoint,
      carry exact positions, and leave only space, tab, CR and LF between them. */
  lemma {:induction false} TokensTile(src: string, i: nat)
    requires i <= |src|
    ensures Tiles(src, i, TokensFrom(src, i))
    decreases |src| - i
  {
    hide Lex, TokensFrom;
    if i == |src| {
      TokensEnd(src);
    } else {
      var x := Lex(src[i..]);
      TokensTile(src, i + x.len);
      TokensStep(src, i);
      LexOfSpace(src[i..]);
      assert forall p :: i <= p < i + x.len ==> src[p] == src[i..][p - i];
      TilesStep(src, i, x.len, x.kind, TokensFrom(src, i + x.len));
    }
  }

  lemma {:induction false} PositionBound(s: string)
    ensures Newlines(s) + LastRun(s) <= |s|
    decreases |s|
  {
    if s != [] {
      PositionBound(s[..|s| - 1]);
    }
  }

  /** No counter of the scan passes the length of the text plus one, so the
      32-bit counters of the program never wrap on a text under 2^32 - 1 bytes. */
  lemma CountersFit(src: string)
    requires |src| < 0xFFFF_FFFF
    ensures forall t :: t in Scan(src) ==>
              t.start < t.end < 0xFFFF_FFFF && t.line <= 0xFFFF_FFFF && t.col <= 0xFFFF_FFFF
  {
    TokensTile(src, 0);
    forall t | t in Scan(src)
      ensures t.start < t.end < 0xFFFF_FFFF && t.line <= 0xFFFF_FFFF && t.col <= 0xFFFF_FFFF
    {
      PositionBound(src[..t.start]);
    }
  }

  // ---- block comments nest ---------------------------------------------------

  /** The inside of a block comment: single bytes and whole inner comments. */
  datatype Body = Done | Plain(b: char, rest: Body) | Nest(inner: Body, rest: Body)

  function Unparse(t: Body): string {
    match t
    case Done => ""
    case Plain(b, rest) => [b] + Unparse(rest)
    case Nest(inner, rest) => "/*" + Unparse(inner) + "*/" + Unparse(rest)
  }

  /** Bytes from the start of `t` through the closer after it. */
  function Size(t: Body): (n: nat)
    ensures n >= 2
  {
    match t
    case Done => 2
    case Plain(_, rest) => 1 + Size(rest)
    case Nest(inner, rest) => 2 + Size(inner) + Size(rest)
  }

  /** `s` begins with the bytes of `t` and then a closer, and no byte taken
      singly could have started an inner comment or the closer. */
  ghost predicate Derives(t: Body, s: string) {
    match t
    case Done => Closes(s)
    case Plain(b, rest) => s != [] && s[0] == b && !Opens(s) && !Closes(s) && Derives(rest, s[1..])
    case Nest(inner, rest) =>
      && Opens(s)
      && Derives(inner, s[2..])
      && 2 + Size(inner) <= |s|
      && Derives(rest, s[2 + Size(inner)..])
  }

  lemma {:induction false} DerivesIsPrefix(t: Body, s: string)
    requires Derives(t, s)
    ensures Size(t) <= |s|
    ensures s[..Size(t)] == Unparse(t) + "*/"
  {
    match t
    case Done =>
    case Plain(b, rest) =>
      DerivesIsPrefix(rest, s[1..]);
      assert s[..Size(t)] == [b] + s[1..][..Size(rest)];
    case Nest(inner, rest) =>
      var m, k := Size(inner), Size(rest);
      DerivesIsPrefix(inner, s[2..]);
      DerivesIsPrefix(rest, s[2 + m..]);
      NestPrefix(s, m, k, Unparse(inner), Unparse(rest));
  }

  lemma NestPrefix(s: string, m: nat, k: nat, u: string, v: string)
    requires 2 + m + k <= |s| && Opens(s)
    requires s[2..][..m] == u + "*/" && s[2 + m..][..k] == v + "*/"
    ensures s[..2 + m + k] == "/*" + u + "*/" + v + "*/"
  {
    assert s[..2 + m + k] == s[..2] + s[2..][..m] + s[2 + m..][..k];
    assert s[..2] == "/*";
  }

  lemma BlockUnfold(s: string, depth: nat)
    requires |s| >= 2 && depth > 0
    ensures BlockTail(s, depth) ==
            if Opens(s) then Plus(2, BlockTail(s[2..], depth + 1))
            else if Closes(s) then
              if depth == 1 then Some(2) else Plus(2, BlockTail(s[2..], depth - 1))
            else Plus(1, BlockTail(s[1..], depth))
  {
  }

  lemma {:induction false} DerivedIsScanned(t: Body, s: string, depth: nat)
    requires Derives(t, s) && depth > 0
    ensures Size(t) <= |s|
    ensures BlockTail(s, depth) ==
            if depth == 1 then Some(Size(t)) else Plus(Size(t), BlockTail(s[Size(t)..], depth - 1))
    decreases t
  {
    hide BlockTail;
    DerivesIsPrefix(t, s);
    BlockUnfold(s, depth);
    match t
    case Done =>
    case Plain(b, rest) =>
      DerivedIsScanned(rest, s[1..], depth);
      assert s[1..][Size(rest)..] == s[Size(t)..];
    case Nest(inner, rest) =>
      var s' := s[2 + Size(inner)..];
      DerivedIsScanned(inner, s[2..], depth + 1);
      assert s[2..][Size(inner)..] == s';
      DerivedIsScanned(rest, s', depth);
      assert s'[Size(rest)..] == s[Size(t)..];
  }

  lemma BlockTailNonempty(s: string, depth: nat)
    requires depth > 0 && BlockTail(s, depth).Some?
    ensures |s| >= 2
  {
  }

  lemma {:induction false} ScannedIsDerived(s: string, depth: nat) returns (t: Body)
    requires depth > 0 && BlockTail(s, depth).Some?
    ensures Derives(t, s) && Size(t) <= BlockTail(s, depth).value
    ensures depth == 1 ==> BlockTail(s, depth) == Some(Size(t))
    ensures Size(t) <= |s|
    ensures depth > 1 ==> BlockTail(s, depth) == Plus(Size(t), BlockTail(s[Size(t)..], depth - 1))
    decreases |s|
  {
    hide BlockTail, Opens, Closes;
    BlockTailNonempty(s, depth);
    BlockUnfold(s, depth);
    if Opens(s) {
      var inner := ScannedIsDerived(s[2..], depth + 1);
      var s' := s[2 + Size(inner)..];
      assert s[2..][Size(inner)..] == s';
      var rest := ScannedIsDerived(s', depth);
      t := Nest(inner, rest);
      assert s'[Size(rest)..] == s[Size(t)..];
    } else if Closes(s) {
      t := Done;
    } else {
      var rest := ScannedIsDerived(s[1..], depth);
      t := Plain(s[0], rest);
      assert s[1..][Size(rest)..] == s[Size(t)..];
    }
  }

  /** A block comment ends at the closer that balances its opener: the counting
      scan stops after `n` bytes exactly when those bytes are one well-nested
      comment. So it is the shortest balanced span, and there is only one. */
  lemma BlockCommentIsNested(s: string, n: nat)
    requires Opens(s)
    ensures BlockTail(s[2..], 1) == Some(n) <==> exists t :: Derives(t, s[2..]) && Size(t) == n
    ensures BlockTail(s[2..], 1) == None <==> forall t :: !Derives(t, s[2..])
  {
    hide BlockTail;
    var u := s[2..];
    if BlockTail(u, 1).Some? {
      var t := ScannedIsDerived(u, 1);
      assert Derives(t, u) && BlockTail(u, 1) == Some(Size(t));
    }
    forall t | Derives(t, u)
      ensures BlockTail(u, 1) == Some(Size(t))
    {
      DerivedIsScanned(t, u, 1);
    }
  }

  lemma LexOpens(s: string)
    requires Opens(s)
    ensures Lex(s) == Lexeme(Comment, Through(2, BlockTail(s[2..], 1), |s|))
  {
    hide BlockTail, QuoteTail, Span;
  }

  lemma OpenerPrefix(s: string, n: nat, body: string)
    requires Opens(s) && n <= |s| - 2 && s[2..][..n] == body
    ensures s[..2 + n] == "/*" + body
  {
  }

  lemma NestedComment(s: string, t: Body)
    requires Opens(s) && Derives(t, s[2..])
    ensures Lex(s).len == 2 + Size(t) <= |s|
    ensures s[..2 + Size(t)] == "/*" + Unparse(t) + "*/"
  {
    hide Lex, BlockTail, Derives, Unparse, Size;
    LexOpens(s);
    DerivedIsScanned(t, s[2..], 1);
    DerivesIsPrefix(t, s[2..]);
    OpenerPrefix(s, Size(t), Unparse(t) + "*/");
    assert "/*" + (Unparse(t) + "*/") == "/*" + Unparse(t) + "*/";
  }

  /** The lexeme of a text that opens a block comment: the whole nested comment,
      or everything that is left if no well-nested comment starts here. */
  lemma BlockCommentLexeme(s: string)
    requires Opens(s)
    ensures Lex(s).kind == Comment
    ensures forall t :: Derives(t, s[2..]) ==>
              && Lex(s).len == 2 + Size(t)
              && s[..Lex(s).len] == "/*" + Unparse(t) + "*/"
    ensures (forall t :: !Derives(t, s[2..])) ==> Lex(s).len == |s|
  {
    hide BlockTail, Lex, Derives, Unparse, Size;
    LexOpens(s);
    BlockCommentIsNested(s, 0);
    forall t | Derives(t, s[2..])
      ensures Lex(s).len == 2 + Size(t) && s[..Lex(s).len] == "/*" + Unparse(t) + "*/"
    {
      NestedComment(s, t);
    }
  }

  // ---- quoted lexemes --------------------------------------------------------

  /** The text of a quoted body: every quote in it is doubled. */
  function Doubled(body: string, q: char): string {
    if body == [] then []
    else (if body[0] == q then [q, q] else [body[0]]) + Doubled(body[1..], q)
  }

  function Quoted(body: string, q: char): string { [q] + Doubled(body, q) + [q] }

  /** Ends the quoted text: the end of the source, or a byte that is no quote. */
  predicate NotQuoted(post: string, q: char) { post == [] || post[0] != q }

  lemma {:induction false} QuoteTailOfDoubled(body: string, q: char, post: string)
    requires NotQuoted(post, q)
    ensures QuoteTail(Doubled(body, q) + [q] + post, q) == Some(|Doubled(body, q)| + 1)
  {
    var s := Doubled(body, q) + [q] + post;
    if body == [] {
      assert s == [q] + post;
      assert |s| >= 2 ==> s[1] == post[0];
    } else {
      var s' := Doubled(body[1..], q) + [q] + post;
      QuoteTailOfDoubled(body[1..], q, post);
      if body[0] == q {
        assert s == [q, q] + s';
      } else {
        assert s == [body[0]] + s';
      }
    }
  }

  lemma {:induction false} QuoteTailIsDoubled(s: string, q: char) returns (body: string)
    requires QuoteTail(s, q).Some?
    ensures var n := QuoteTail(s, q).value;
            s[..n] == Doubled(body, q) + [q] && NotQuoted(s[n..], q)
    decreases |s|
  {
    var n := QuoteTail(s, q).value;
    if s[0] == q && |s| >= 2 && s[1] == q {
      var rest := QuoteTailIsDoubled(s[2..], q);
      body := [q] + rest;
      assert s[..n] == [q, q] + s[2..][..n - 2];
      assert s[n..] == s[2..][n - 2..];
      assert body[1..] == rest;
    } else if s[0] == q {
      body := [];
      assert s[..1] == [q];
    } else {
      var rest := QuoteTailIsDoubled(s[1..], q);
      body := [s[0]] + rest;
      assert s[..n] == [s[0]] + s[1..][..n - 1];
      assert s[n..] == s[1..][n - 1..];
      assert body[1..] == rest;
    }
  }

  lemma LexQuote(s: string, q: char)
    requires q == '\'' || q == '"'
    requires s != [] && s[0] == q
    ensures Lex(s) == Lexeme(if q == '\'' then String else Word, Through(1, QuoteTail(s[1..], q), |s|))
  {
    hide QuoteTail, Span, BlockTail;
  }

  lemma ClosedIsQuoted(s: string, q: char, n: nat) returns (body: string)
    requires s != [] && s[0] == q && 0 < n <= |s| && QuoteTail(s[1..], q) == Some(n - 1)
    ensures s[..n] == Quoted(body, q) && NotQuoted(s[n..], q)
  {
    hide QuoteTail, Doubled;
    var u := s[1..];
    body := QuoteTailIsDoubled(u, q);
    assert s[..n] == [q] + u[..n - 1];
    assert s[n..] == u[n - 1..];
  }

  lemma QuotedIsClosed(s: string, q: char, n: nat, body: string)
    requires n <= |s| && s[..n] == Quoted(body, q) && NotQuoted(s[n..], q)
    ensures QuoteTail(s[1..], q) == Some(n - 1)
  {
    hide QuoteTail, Doubled;
    var tail := Doubled(body, q) + [q];
    QuoteTailOfDoubled(body, q, s[n..]);
    assert s[..n] == [q] + tail;
    assert s[1..] == tail + s[n..];
  }

  /** The escape law, both ways: a closed literal or delimited name is the
      quoted form of some body, and every quoted form scans as one lexeme. */
  lemma QuotedLexeme(s: string, q: char, n: nat)
    requires q == '\'' || q == '"'
    requires s != [] && s[0] == q && 0 < n <= |s|
    ensures QuoteTail(s[1..], q) == Some(n - 1) <==>
            exists body :: s[..n] == Quoted(body, q) && NotQuoted(s[n..], q)
    ensures QuoteTail(s[1..], q) == Some(n - 1) ==>
              Lex(s) == Lexeme(if q == '\'' then String else Word, n)
    ensures QuoteTail(s[1..], q) == None ==> Lex(s).len == |s|
  {
    hide QuoteTail, Quoted, Lex, NotQuoted;
    LexQuote(s, q);
    if QuoteTail(s[1..], q) == Some(n - 1) {
      var body := ClosedIsQuoted(s, q, n);
    }
    forall body | s[..n] == Quoted(body, q) && NotQuoted(s[n..], q)
      ensures QuoteTail(s[1..], q) == Some(n - 1)
    {
      QuotedIsClosed(s, q, n, body);
    }
  }
}

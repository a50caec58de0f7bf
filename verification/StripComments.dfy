/**
 The comment stripper behind the "is this SQL at all" heuristics. It knows
 nothing of literals, so it agrees with the scanner on what a comment is exactly
 when no literal or name the scanner finds holds a comment mark.
 */
module StripComments {
  import opened Wrappers
  import opened Tokens
  import opened TokenLaws
  import opened Utf8

  // ---- the stripper ------------------------------------------------------------

  function StripCode(s: string): string
    decreases |s|, 1
  {
    if s == [] then []
    else if Opens(s) then StripBlock(s[2..], 1)
    else if Dashes(s) then
      SpanOfDashes(s);
      StripCode(s[Span(s, NotNewline)..])
    else [s[0]] + StripCode(s[1..])
  }

  function StripBlock(s: string, depth: nat): string
    requires depth > 0
    decreases |s|, 1
  {
    if s == [] then []
    else if Closes(s) then
      if depth == 1 then StripCode(s[2..]) else StripBlock(s[2..], depth - 1)
    else if Opens(s) then StripBlock(s[2..], depth + 1)
    else StripBlock(s[1..], depth)
  }

  function StripFrom(s: string, depth: nat): string {
    if depth > 0 then StripBlock(s, depth) else StripCode(s)
  }

  lemma StripStep(text: string, i: nat, depth: nat)
    requires i < |text|
    ensures Dashes(text[i..]) ==> Span(text[i..], NotNewline) >= 2
    ensures var s := text[i..];
            StripFrom(s, depth) ==
            if depth > 0 then
              if Closes(s) then StripFrom(text[i + 2..], depth - 1)
              else if Opens(s) then StripFrom(text[i + 2..], depth + 1)
              else StripFrom(text[i + 1..], depth)
            else if Opens(s) then StripFrom(text[i + 2..], 1)
            else if Dashes(s) then StripFrom(text[i + Span(s, NotNewline)..], 0)
            else [s[0]] + StripFrom(text[i + 1..], 0)
  {
    if Dashes(text[i..]) {
      SpanOfDashes(text[i..]);
    }
  }

  method Strip(text: string) returns (out: string)
    ensures out == StripCode(text)
  {
    hide Span, StripFrom;
    out := "";
    var i := 0;
    var blockDepth: nat := 0;
    StripStart(text);
    while i < |text|
      invariant i <= |text|
      invariant StripCode(text) == out + StripFrom(text[i..], blockDepth)
      decreases |text| - i
    {
      StripStep(text, i, blockDepth);
      if blockDepth > 0 {
        if text[i] == '*' && i + 1 < |text| && text[i + 1] == '/' {
          blockDepth := blockDepth - 1;
          i := i + 2;
          continue;
        }
        if text[i] == '/' && i + 1 < |text| && text[i + 1] == '*' {
          blockDepth := blockDepth + 1;
          i := i + 2;
          continue;
        }
        i := i + 1;
        continue;
      }
      if text[i] == '/' && i + 1 < |text| && text[i + 1] == '*' {
        blockDepth := 1;
        i := i + 2;
        continue;
      }
      if text[i] == '-' && i + 1 < |text| && text[i + 1] == '-' {
        SpanOfDashes(text[i..]);
        i := ScanRun(text, i, NotNewline);
        continue;
      }
      out := out + [text[i]];
      i := i + 1;
    }
    assert text[i..] == "";
    StripEnd(blockDepth);
  }

  lemma StripStart(text: string)
    ensures StripFrom(text[0..], 0) == StripCode(text)
  {
    assert text[0..] == text;
  }

  lemma StripEnd(depth: nat)
    ensures StripFrom("", depth) == ""
  {
  }

  // ---- which bytes are kept --------------------------------------------------------

  /** The offsets of the bytes the stripper keeps, when the head of `s` is at `at`. */
  function KeptCode(s: string, at: nat): seq<nat>
    decreases |s|, 1
  {
    if s == [] then []
    else if Opens(s) then KeptBlock(s[2..], at + 2, 1)
    else if Dashes(s) then
      SpanOfDashes(s);
      KeptCode(s[Span(s, NotNewline)..], at + Span(s, NotNewline))
    else [at] + KeptCode(s[1..], at + 1)
  }

  function KeptBlock(s: string, at: nat, depth: nat): seq<nat>
    requires depth > 0
    decreases |s|, 1
  {
    if s == [] then []
    else if Closes(s) then
      if depth == 1 then KeptCode(s[2..], at + 2) else KeptBlock(s[2..], at + 2, depth - 1)
    else if Opens(s) then KeptBlock(s[2..], at + 2, depth + 1)
    else KeptBlock(s[1..], at + 1, depth)
  }

  function KeptFrom(s: string, at: nat, depth: nat): seq<nat> {
    if depth > 0 then KeptBlock(s, at, depth) else KeptCode(s, at)
  }

  function Kept(src: string): seq<nat> { KeptFrom(src, 0, 0) }

  /** The bytes of `src` at `offsets`. */
  function Gather(src: string, offsets: seq<nat>): string
    requires forall k :: k in offsets ==> k < |src|
  {
    if offsets == [] then []
    else
      assert offsets[0] in offsets && forall k :: k in offsets[1..] ==> k in offsets;
      [src[offsets[0]]] + Gather(src, offsets[1..])
  }

  lemma KeptCodeStep(s: string, at: nat)
    requires s != []
    ensures KeptFrom(s, at, 0) ==
            if Opens(s) then KeptFrom(s[2..], at + 2, 1)
            else if Dashes(s) then KeptFrom(s[Span(s, NotNewline)..], at + Span(s, NotNewline), 0)
            else [at] + KeptFrom(s[1..], at + 1, 0)
  {
    hide Span, KeptBlock;
  }

  lemma KeptBlockStep(s: string, at: nat, depth: nat)
    requires s != [] && depth > 0
    ensures KeptFrom(s, at, depth) ==
            if Closes(s) then KeptFrom(s[2..], at + 2, depth - 1)
            else if Opens(s) then KeptFrom(s[2..], at + 2, depth + 1)
            else KeptFrom(s[1..], at + 1, depth)
  {
    hide KeptCode;
  }

  lemma KeptStep(s: string, at: nat, depth: nat)
    requires s != []
    ensures Dashes(s) ==> Span(s, NotNewline) >= 2
    ensures KeptFrom(s, at, depth) ==
            if depth > 0 && Closes(s) then KeptFrom(s[2..], at + 2, depth - 1)
            else if Opens(s) then KeptFrom(s[2..], at + 2, depth + 1)
            else if depth == 0 && Dashes(s) then KeptFrom(s[Span(s, NotNewline)..], at + Span(s, NotNewline), 0)
            else (if depth == 0 then [at] else []) + KeptFrom(s[1..], at + 1, depth)
  {
    hide Span, KeptFrom;
    if Dashes(s) {
      SpanOfDashes(s);
    }
    if depth > 0 {
      KeptBlockStep(s, at, depth);
      assert [] + KeptFrom(s[1..], at + 1, depth) == KeptFrom(s[1..], at + 1, depth);
    } else {
      KeptCodeStep(s, at);
    }
  }

  lemma {:induction false} KeptBounds(s: string, at: nat, depth: nat)
    ensures forall k :: k in KeptFrom(s, at, depth) ==> at <= k < at + |s|
    decreases |s|
  {
    hide Span, KeptFrom;
    if s == [] {
      NothingKept(at, depth);
    } else {
      KeptStep(s, at, depth);
      if depth > 0 && Closes(s) {
        KeptBounds(s[2..], at + 2, depth - 1);
      } else if Opens(s) {
        KeptBounds(s[2..], at + 2, depth + 1);
      } else if depth == 0 && Dashes(s) {
        KeptBounds(s[Span(s, NotNewline)..], at + Span(s, NotNewline), 0);
      } else {
        KeptBounds(s[1..], at + 1, depth);
      }
    }
  }

  lemma NothingKept(at: nat, depth: nat)
    ensures KeptFrom([], at, depth) == []
  {
  }

  /** The stripper's output is the text at the offsets it keeps. */
  lemma {:induction false} StripIsKept(src: string, i: nat, depth: nat)
    requires i <= |src|
    ensures forall k :: k in KeptFrom(src[i..], i, depth) ==> k < |src|
    ensures StripFrom(src[i..], depth) == Gather(src, KeptFrom(src[i..], i, depth))
    decreases |src| - i
  {
    hide Span, StripFrom, KeptFrom;
    var s := src[i..];
    KeptBounds(s, i, depth);
    if i == |src| {
      StripEnd(depth);
      NothingKept(i, depth);
    } else {
      StripStep(src, i, depth);
      KeptStep(s, i, depth);
      if depth > 0 && Closes(s) {
        assert s[2..] == src[i + 2..];
        StripIsKept(src, i + 2, depth - 1);
      } else if Opens(s) {
        assert s[2..] == src[i + 2..];
        StripIsKept(src, i + 2, depth + 1);
      } else if depth == 0 && Dashes(s) {
        var n := Span(s, NotNewline);
        assert s[n..] == src[i + n..];
        StripIsKept(src, i + n, 0);
      } else {
        assert s[1..] == src[i + 1..];
        StripIsKept(src, i + 1, depth);
        GatherMore(src, i, KeptFrom(s[1..], i + 1, depth));
        if depth > 0 {
          assert [] + KeptFrom(s[1..], i + 1, depth) == KeptFrom(s[1..], i + 1, depth);
        }
      }
    }
  }

  lemma GatherMore(src: string, i: nat, more: seq<nat>)
    requires i < |src| && forall k :: k in more ==> k < |src|
    ensures Gather(src, [i] + more) == [src[i]] + Gather(src, more)
  {
    assert ([i] + more)[1..] == more;
  }

  // ---- against the scanner -------------------------------------------------------

  function Range(i: nat, j: nat): seq<nat>
    requires i <= j
  {
    seq(j - i, k requires 0 <= k => i + k)
  }

  lemma RangeConcat(i: nat, j: nat, k: nat)
    requires i <= j <= k
    ensures Range(i, k) == Range(i, j) + Range(j, k)
  {
  }

  /** The offsets from `i` on that lie in none of the comment tokens of `ts`. */
  function OutsideFrom(src: string, i: nat, ts: seq<Token>): seq<nat>
    requires i <= |src|
    decreases |ts|
  {
    if ts == [] then Range(i, |src|)
    else if ts[0].kind == Comment && i <= ts[0].start <= ts[0].end <= |src| then
      Range(i, ts[0].start) + OutsideFrom(src, ts[0].end, ts[1..])
    else OutsideFrom(src, i, ts[1..])
  }

  function Outside(src: string): seq<nat> { OutsideFrom(src, 0, Scan(src)) }

  ghost predicate InComment(k: nat, ts: seq<Token>) {
    exists t :: t in ts && t.kind == Comment && t.start <= k < t.end
  }

  lemma InCommentStep(k: nat, ts: seq<Token>)
    requires ts != []
    ensures InComment(k, ts) <==>
            (ts[0].kind == Comment && ts[0].start <= k < ts[0].end) || InComment(k, ts[1..])
  {
    if InComment(k, ts) {
      var t :| t in ts && t.kind == Comment && t.start <= k < t.end;
      if t != ts[0] {
        assert t in ts[1..];
      }
    }
    if ts[0].kind == Comment && ts[0].start <= k < ts[0].end {
      assert ts[0] in ts;
    }
  }

  lemma {:induction false} OutsideFromMeans(src: string, i: nat, ts: seq<Token>, k: nat)
    requires i <= |src|
    requires forall t :: t in ts ==> i <= t.start < t.end <= |src|
    requires forall m, n :: 0 <= m < n < |ts| ==> ts[m].end <= ts[n].start
    ensures k in OutsideFrom(src, i, ts) <==> i <= k < |src| && !InComment(k, ts)
    decreases |ts|
  {
    hide InComment;
    if ts == [] {
      NoComments(k);
      InRange(i, |src|, k);
    } else {
      var t := ts[0];
      assert t in ts && forall x :: x in ts[1..] ==> x in ts && t.end <= x.start;
      InCommentStep(k, ts);
      if t.kind == Comment {
        InRange(i, t.start, k);
        OutsideFromMeans(src, t.end, ts[1..], k);
        if k < t.end {
          NotBefore(ts[1..], t.end, k);
        }
      } else {
        OutsideFromMeans(src, i, ts[1..], k);
      }
    }
  }

  lemma NoComments(k: nat)
    ensures !InComment(k, [])
  {
  }

  lemma NotBefore(ts: seq<Token>, i: nat, k: nat)
    requires (forall t :: t in ts ==> i <= t.start) && k < i
    ensures !InComment(k, ts)
  {
  }

  lemma InRange(i: nat, j: nat, k: nat)
    requires i <= j
    ensures k in Range(i, j) <==> i <= k < j
  {
    if i <= k < j {
      assert Range(i, j)[k - i] == k;
    }
  }

  lemma OutsideMeans(src: string, k: nat)
    ensures k in Outside(src) <==> k < |src| && !InComment(k, Scan(src))
  {
    hide TokensFrom, LineAt, ColAt, OutsideFrom, InComment;
    TokensTile(src, 0);
    OutsideFromMeans(src, 0, Scan(src), k);
  }

  /** What the stripper would take for the start of a comment. */
  predicate MarkAt(s: string, k: nat) {
    k + 1 < |s| && ((s[k] == '/' && s[k + 1] == '*') || (s[k] == '-' && s[k + 1] == '-'))
  }

  ghost predicate Marked(s: string) { exists k: nat :: MarkAt(s, k) }

  ghost predicate Misleads(src: string, t: Token) {
    (t.kind == String || t.kind == Word) && t.start <= t.end <= |src| && Marked(src[t.start..t.end])
  }

  /** No literal or name the scanner finds contains a comment mark. */
  ghost predicate NoneMisleads(src: string, ts: seq<Token>) { forall t :: t in ts ==> !Misleads(src, t) }

  lemma {:induction false} BlockKept(s: string, at: nat, depth: nat)
    requires depth > 0
    ensures KeptFrom(s, at, depth) ==
            match BlockTail(s, depth) case None => [] case Some(n) => KeptFrom(s[n..], at + n, 0)
    decreases |s|
  {
    hide KeptFrom, Span, BlockTail;
    if |s| < 2 {
      ShortBlock(s, at, depth);
    } else {
      BlockUnfold(s, depth);
      KeptStep(s, at, depth);
      if Opens(s) {
        BlockKept(s[2..], at + 2, depth + 1);
      } else if Closes(s) {
        if depth > 1 {
          BlockKept(s[2..], at + 2, depth - 1);
        }
      } else {
        BlockKept(s[1..], at + 1, depth);
        assert [] + KeptFrom(s[1..], at + 1, depth) == KeptFrom(s[1..], at + 1, depth);
      }
    }
  }

  lemma ShortBlock(s: string, at: nat, depth: nat)
    requires depth > 0 && |s| < 2
    ensures KeptFrom(s, at, depth) == [] && BlockTail(s, depth) == None
  {
    if s != [] {
      assert s[1..] == [];
      assert !Opens(s) && !Closes(s) && KeptBlock(s[1..], at + 1, depth) == [];
    }
  }

  /** Bytes that start no comment are kept. */
  lemma {:induction false} UnmarkedRunKept(s: string, at: nat, n: nat)
    requires n <= |s| && forall k: nat :: k < n ==> !MarkAt(s, k)
    ensures KeptFrom(s, at, 0) == Range(at, at + n) + KeptFrom(s[n..], at + n, 0)
    decreases n
  {
    hide KeptFrom, Span, MarkAt, Range;
    RangeSteps(at, n);
    if n == 0 {
      assert s[0..] == s;
    } else {
      forall k: nat | k < n - 1
        ensures !MarkAt(s[1..], k)
      {
        MarkShifted(s, k);
      }
      UnmarkedRunKept(s[1..], at + 1, n - 1);
      assert s[n..] == s[1..][n - 1..];
      UnmarkedHead(s);
      KeptStep(s, at, 0);
    }
  }

  lemma RangeSteps(at: nat, n: nat)
    ensures n == 0 ==> Range(at, at + n) == []
    ensures n > 0 ==> Range(at, at + n) == [at] + Range(at + 1, at + n)
  {
  }

  lemma MarkShifted(s: string, k: nat)
    requires s != []
    ensures MarkAt(s[1..], k) == MarkAt(s, k + 1)
  {
  }

  lemma UnmarkedHead(s: string)
    ensures MarkAt(s, 0) <==> Opens(s) || Dashes(s)
  {
  }

  /** A byte that can start no comment. */
  predicate Plainly(b: char) { b != '/' && b != '-' }

  lemma {:induction false} QuoteTailEnds(s: string, q: char)
    ensures QuoteTail(s, q).Some? ==> s[QuoteTail(s, q).value - 1] == q
    decreases |s|
  {
    if s != [] {
      if s[0] != q {
        QuoteTailEnds(s[1..], q);
      } else if |s| >= 2 && s[1] == q {
        QuoteTailEnds(s[2..], q);
      }
    }
  }

  /** A lexeme that is no comment holds no mark unless it is a literal or a name,
      and no mark straddles its end. */
  lemma LexemeMarks(s: string)
    requires s != [] && Lex(s).kind != Comment
    ensures Marked(s[..Lex(s).len]) ==> Lex(s).kind == String || Lex(s).kind == Word
    ensures !MarkAt(s, Lex(s).len - 1)
  {
    hide Span, BlockTail, QuoteTail;
    var b, n := s[0], Lex(s).len;
    if IsSpace(b) {
      SpanIsLongest(s, IsSpace);
    } else if b == '\'' || b == '"' {
      QuoteTailEnds(s[1..], b);
    } else if b == '[' {
      SpanIsLongest(s[1..], NotCloseBracket);
    } else if IsWordStart(b) {
      SpanIsLongest(s[1..], IsWordPart);
    } else if IsDigit(b) {
      NumberMarks(s);
    }
  }

  lemma NumberMarks(s: string)
    requires s != [] && IsDigit(s[0])
    ensures var n := 1 + Span(s[1..], IsNumberPart); !Marked(s[..n]) && !MarkAt(s, n - 1)
  {
    hide Span;
    var n := 1 + Span(s[1..], IsNumberPart);
    SpanIsLongest(s[1..], IsNumberPart);
    forall k | 0 <= k < n
      ensures Plainly(s[k])
    {
      if k > 0 {
        assert IsNumberPart(s[1..][k - 1]);
      }
    }
  }

  /** A lexeme without a mark in it is dropped whole if it is a comment and kept
      whole otherwise. */
  lemma LexemeKept(s: string, at: nat)
    requires s != [] && (Lex(s).kind == Comment || !Marked(s[..Lex(s).len]))
    ensures var x := Lex(s);
            KeptFrom(s, at, 0) ==
            (if x.kind == Comment then [] else Range(at, at + x.len)) + KeptFrom(s[x.len..], at + x.len, 0)
  {
    hide Lex, KeptFrom, Range;
    var n := Lex(s).len;
    if Lex(s).kind == Comment {
      CommentDropped(s, at);
    } else {
      LexemeMarks(s);
      UnmarkedBefore(s, n, n);
      UnmarkedRunKept(s, at, n);
    }
  }

  lemma UnmarkedBefore(s: string, n: nat, m: nat)
    requires 0 < n <= |s| && m <= n && !MarkAt(s, n - 1)
    requires forall k: nat :: k < m ==> !MarkAt(s[..n], k)
    ensures forall k: nat :: k < m ==> !MarkAt(s, k)
  {
    forall k: nat | k < m
      ensures !MarkAt(s, k)
    {
      assert !MarkAt(s[..n], k);
    }
  }

  lemma CommentDropped(s: string, at: nat)
    requires s != [] && Lex(s).kind == Comment
    ensures KeptFrom(s, at, 0) == KeptFrom(s[Lex(s).len..], at + Lex(s).len, 0)
  {
    hide Span, BlockTail, QuoteTail, KeptFrom;
    KeptStep(s, at, 0);
    if Opens(s) {
      var t := s[2..];
      BlockKept(t, at + 2, 1);
      match BlockTail(t, 1)
      case Some(n) => assert t[n..] == s[2 + n..];
      case None =>
        assert s[|s|..] == [];
        NothingKept(at + |s|, 0);
    }
  }

  /** The first mark in a lexeme is not kept. */
  lemma MarkDropped(s: string, at: nat, n: nat, m: nat)
    requires m < n <= |s| && MarkAt(s[..n], m) && forall k: nat :: k < m ==> !MarkAt(s[..n], k)
    ensures at + m !in KeptFrom(s, at, 0)
  {
    hide KeptFrom, Range;
    forall k: nat | k < m
      ensures !MarkAt(s, k)
    {
      assert !MarkAt(s[..n], k);
    }
    UnmarkedRunKept(s, at, m);
    InRange(at, at + m, at + m);
    HeadDropped(s[m..], at + m);
  }

  lemma HeadDropped(s: string, at: nat)
    requires Opens(s) || Dashes(s)
    ensures at !in KeptFrom(s, at, 0)
  {
    hide Span, KeptFrom;
    KeptStep(s, at, 0);
    if Opens(s) {
      KeptBounds(s[2..], at + 2, 1);
    } else {
      KeptBounds(s[Span(s, NotNewline)..], at + Span(s, NotNewline), 0);
    }
  }

  lemma {:induction false} FirstMark(s: string, k: nat) returns (m: nat)
    requires MarkAt(s, k)
    ensures MarkAt(s, m) && forall j: nat :: j < m ==> !MarkAt(s, j)
  {
    if j: nat :| j < k && MarkAt(s, j) {
      m := FirstMark(s, j);
    } else {
      m := k;
    }
  }

  lemma TokensSplit(src: string, i: nat)
    requires i < |src|
    ensures var x := Lex(src[i..]);
            NoneMisleads(src, TokensFrom(src, i)) <==>
            (x.kind.Whitespace? || !Misleads(src, Emitted(src, i, x)[0]))
            && NoneMisleads(src, TokensFrom(src, i + x.len))
  {
    hide Lex, TokensFrom, Misleads, LineAt, ColAt;
    var x := Lex(src[i..]);
    TokensStep(src, i);
    var head, rest := Emitted(src, i, x), TokensFrom(src, i + x.len);
    if NoneMisleads(src, head + rest) {
      assert forall t :: t in rest ==> t in head + rest;
      if head != [] {
        assert head[0] in head + rest;
      }
    }
  }

  lemma {:induction false} KeptIsOutside(src: string, i: nat)
    requires i <= |src| && NoneMisleads(src, TokensFrom(src, i))
    ensures KeptFrom(src[i..], i, 0) == OutsideFrom(src, i, TokensFrom(src, i))
    decreases |src| - i
  {
    hide Lex, TokensFrom, KeptFrom, OutsideFrom, Emitted, NoneMisleads, Marked, Range;
    if i == |src| {
      TokensEnd(src);
      NothingToStrip(src);
    } else {
      var x := Lex(src[i..]);
      var j := i + x.len;
      TokensSplit(src, i);
      LexemeUnmarked(src, i);
      LexemeKept(src[i..], i);
      assert src[i..][x.len..] == src[j..];
      KeptIsOutside(src, j);
      TokensStep(src, i);
      OutsideStep(src, i, j);
      OutsideEmitted(src, i, x, TokensFrom(src, j));
    }
  }

  lemma LexemeUnmarked(src: string, i: nat)
    requires i < |src|
    requires var x := Lex(src[i..]); x.kind.Whitespace? || !Misleads(src, Emitted(src, i, x)[0])
    ensures var x := Lex(src[i..]); x.kind == Comment || !Marked(src[i..][..x.len])
  {
    hide Lex, Marked, LineAt, ColAt;
    var x := Lex(src[i..]);
    assert src[i..][..x.len] == src[i..i + x.len];
    if x.kind != Comment {
      LexemeMarks(src[i..]);
    }
  }

  lemma NothingToStrip(src: string)
    ensures KeptFrom(src[|src|..], |src|, 0) == [] == OutsideFrom(src, |src|, [])
  {
  }

  lemma {:induction false} OutsideFromLater(src: string, i: nat, j: nat, ts: seq<Token>)
    requires i <= j <= |src|
    requires forall t :: t in ts ==> j <= t.start <= t.end <= |src|
    ensures OutsideFrom(src, i, ts) == Range(i, j) + OutsideFrom(src, j, ts)
    decreases |ts|
  {
    hide Range;
    if ts == [] {
      RangeConcat(i, j, |src|);
    } else {
      var t := ts[0];
      assert t in ts && forall x :: x in ts[1..] ==> x in ts;
      if t.kind == Comment {
        RangeConcat(i, j, t.start);
      } else {
        OutsideFromLater(src, i, j, ts[1..]);
      }
    }
  }

  lemma OutsideStep(src: string, i: nat, j: nat)
    requires i <= j <= |src|
    ensures OutsideFrom(src, i, TokensFrom(src, j)) == Range(i, j) + OutsideFrom(src, j, TokensFrom(src, j))
  {
    hide TokensFrom, LineAt, ColAt, OutsideFrom, Range;
    TokensTile(src, j);
    OutsideFromLater(src, i, j, TokensFrom(src, j));
  }

  lemma OutsideEmitted(src: string, i: nat, x: Lexeme, rest: seq<Token>)
    requires i + x.len <= |src|
    ensures OutsideFrom(src, i, Emitted(src, i, x) + rest) ==
            if x.kind == Comment then OutsideFrom(src, i + x.len, rest) else OutsideFrom(src, i, rest)
  {
    var head := Emitted(src, i, x);
    if head == [] {
      assert head + rest == rest;
    } else {
      assert (head + rest)[1..] == rest;
      assert Range(i, i) == [];
    }
  }

  /** If some literal or name has a mark in it, a byte of the first such is dropped. */
  lemma {:induction false} ByteLost(src: string, i: nat) returns (k: nat, t: Token)
    requires i <= |src| && !NoneMisleads(src, TokensFrom(src, i))
    ensures t in TokensFrom(src, i) && t.kind != Comment && t.start <= k < t.end
    ensures i <= k && k !in KeptFrom(src[i..], i, 0)
    decreases |src| - i
  {
    hide Lex, TokensFrom, KeptFrom, NoneMisleads, LineAt, ColAt, Marked, Range;
    if i == |src| {
      TokensEnd(src);
      NoTokens(src);
    } else {
      var x := Lex(src[i..]);
      var j := i + x.len;
      TokensSplit(src, i);
      TokensStep(src, i);
      assert src[i..][x.len..] == src[j..] && src[i..][..x.len] == src[i..j];
      if !x.kind.Whitespace? && Misleads(src, Emitted(src, i, x)[0]) {
        t := Emitted(src, i, x)[0];
        assert t in Emitted(src, i, x) + TokensFrom(src, j);
        var m := MarkIn(src[i..], i, x.len);
        k := i + m;
      } else {
        LexemeUnmarked(src, i);
        LexemeKept(src[i..], i);
        k, t := ByteLost(src, j);
        assert t in Emitted(src, i, x) + TokensFrom(src, j);
        InRange(i, j, k);
      }
    }
  }

  lemma NoTokens(src: string)
    ensures NoneMisleads(src, [])
  {
  }

  lemma MarkIn(s: string, at: nat, n: nat) returns (m: nat)
    requires n <= |s| && Marked(s[..n])
    ensures m < n && at + m !in KeptFrom(s, at, 0)
  {
    hide KeptFrom;
    var k: nat :| MarkAt(s[..n], k);
    m := FirstMark(s[..n], k);
    MarkDropped(s, at, n, m);
  }

  /** The stripper keeps exactly the bytes outside the scanner's comment tokens if
      and only if no literal and no quoted or bracketed name has a comment mark in it. */
  lemma KeepsOutsideIffNoneMisleads(src: string)
    ensures (forall k: nat :: k in Kept(src) <==> k < |src| && !InComment(k, Scan(src)))
            <==> NoneMisleads(src, Scan(src))
    ensures NoneMisleads(src, Scan(src)) ==> Kept(src) == Outside(src)
  {
    hide TokensFrom, KeptFrom, InComment, NoneMisleads, OutsideFrom, LineAt, ColAt;
    assert src[0..] == src;
    forall k: nat
      ensures k in Outside(src) <==> k < |src| && !InComment(k, Scan(src))
    {
      OutsideMeans(src, k);
    }
    if NoneMisleads(src, Scan(src)) {
      KeptIsOutside(src, 0);
    } else {
      var k, t := ByteLost(src, 0);
      TokensTile(src, 0);
      OneTokenEach(src, k, t);
      assert k !in Kept(src) && k < |src|;
    }
  }

  lemma OneTokenEach(src: string, k: nat, t: Token)
    requires Tiles(src, 0, Scan(src)) && t in Scan(src) && t.kind != Comment && t.start <= k < t.end
    ensures !InComment(k, Scan(src)) && k < |src|
  {
    hide TokensFrom, Tiles;
    forall c | c in Scan(src) && c.start <= k < c.end
      ensures c == t
    {
      SameToken(src, Scan(src), k, t, c);
    }
    SameToken(src, Scan(src), k, t, t);
  }

  lemma SameToken(src: string, ts: seq<Token>, k: nat, t: Token, c: Token)
    requires Tiles(src, 0, ts) && t in ts && c in ts && t.start <= k < t.end && c.start <= k < c.end
    ensures t == c && k < |src|
  {
    hide Tiles;
    var m :| 0 <= m < |ts| && ts[m] == t;
    var n :| 0 <= n < |ts| && ts[n] == c;
    Apart(src, ts, m, n, k);
  }

  lemma Apart(src: string, ts: seq<Token>, m: nat, n: nat, k: nat)
    requires Tiles(src, 0, ts) && m < |ts| && n < |ts|
    ensures ts[m].start <= k < ts[m].end && ts[n].start <= k < ts[n].end ==> m == n && k < |src|
  {
    hide LineAt, ColAt;
  }

  // ---- characters against bytes --------------------------------------------------

  lemma HeadOfEncoding(text: string)
    requires text != []
    ensures Encode(text) == EncodeChar(text[0]) + Encode(text[1..])
    ensures Opens(Encode(text)) <==> Opens(text)
    ensures Closes(Encode(text)) <==> Closes(text)
    ensures Dashes(Encode(text)) <==> Dashes(text)
  {
    var e := Encode(text);
    if text[0] as int < 0x80 {
      assert e == [text[0]] + Encode(text[1..]);
      if |text| >= 2 {
        var r := Encode(text[1..]);
        assert r == EncodeChar(text[1]) + Encode(text[2..]);
        assert r[0] == EncodeChar(text[1])[0];
        assert e[1] == r[0];
      }
    } else {
      assert e[0] == EncodeChar(text[0])[0];
    }
  }

  lemma PairOfEncoding(text: string)
    requires Opens(text) || Closes(text)
    ensures |Encode(text)| >= 2 && Encode(text)[2..] == Encode(text[2..])
  {
    var c := text[0];
    EncodeConcat(text[..2], text[2..]);
    assert text == text[..2] + text[2..];
    assert Encode(text[..2]) == EncodeChar(c) + Encode([text[1]]);
    assert Encode([text[1]]) == EncodeChar(text[1]) + Encode([]);
  }

  lemma {:induction false} LineOfEncoding(text: string)
    ensures var n := Span(text, NotNewline);
            var e := Encode(text);
            e[Span(e, NotNewline)..] == Encode(text[n..])
  {
    if text != [] && text[0] != '\n' {
      var h, r := EncodeChar(text[0]), Encode(text[1..]);
      LineOfEncoding(text[1..]);
      assert Encode(text) == h + r;
      SpanOverRun(h, r);
      assert (h + r)[|h| + Span(r, NotNewline)..] == r[Span(r, NotNewline)..];
      assert text[Span(text, NotNewline)..] == text[1..][Span(text[1..], NotNewline)..];
    }
  }

  lemma {:induction false} SpanOverRun(h: string, r: string)
    requires forall k :: 0 <= k < |h| ==> h[k] != '\n'
    ensures Span(h + r, NotNewline) == |h| + Span(r, NotNewline)
  {
    if h == [] {
      assert h + r == r;
    } else {
      SpanOverRun(h[1..], r);
      assert (h + r)[1..] == h[1..] + r;
    }
  }

  lemma {:induction false} BlockSkipsInert(h: string, r: string, depth: nat)
    requires depth > 0 && forall k :: 0 <= k < |h| ==> h[k] as int >= 0x80
    ensures StripBlock(h + r, depth) == StripBlock(r, depth)
  {
    if h == [] {
      assert h + r == r;
    } else {
      BlockSkipsInert(h[1..], r, depth);
      assert (h + r)[1..] == h[1..] + r;
    }
  }

  /** The stripper works on characters and the scanner on bytes; stripping
      commutes with the encoding between them. */
  lemma {:induction false} StripOfEncoding(text: string, depth: nat)
    ensures StripFrom(Encode(text), depth) == Encode(StripFrom(text, depth))
    decreases |text|
  {
    hide Span, Encode, EncodeChar, StripFrom;
    if text == [] {
      EmptyEncoding(depth);
    } else {
      EncodedStep(text, depth);
      if depth > 0 && Closes(text) {
        StripOfEncoding(text[2..], depth - 1);
      } else if Opens(text) {
        StripOfEncoding(text[2..], depth + 1);
      } else if depth == 0 && Dashes(text) {
        SpanOfDashes(text);
        StripOfEncoding(text[Span(text, NotNewline)..], 0);
      } else {
        StripOfEncoding(text[1..], depth);
        if depth == 0 {
          EncodeConcat([text[0]], StripFrom(text[1..], 0));
          EncodeOne(text[0]);
        } else {
          NothingPrepended(StripFrom(text[1..], depth));
          NothingPrepended(StripFrom(Encode(text[1..]), depth));
        }
      }
    }
  }

  lemma EmptyEncoding(depth: nat)
    ensures StripFrom(Encode(""), depth) == Encode(StripFrom("", depth))
  {
    assert Encode("") == [];
    StripEnd(depth);
  }

  lemma NothingPrepended(s: string)
    ensures [] + s == s
  {
  }

  lemma EncodeOne(c: char)
    ensures Encode([c]) == EncodeChar(c)
  {
    assert Encode([c]) == EncodeChar(c) + Encode([]);
  }

  lemma HeadStep(s: string, depth: nat)
    requires s != []
    ensures Dashes(s) ==> Span(s, NotNewline) >= 2
    ensures StripFrom(s, depth) ==
            if depth > 0 && Closes(s) then StripFrom(s[2..], depth - 1)
            else if Opens(s) then StripFrom(s[2..], depth + 1)
            else if depth == 0 && Dashes(s) then StripFrom(s[Span(s, NotNewline)..], 0)
            else (if depth == 0 then [s[0]] else []) + StripFrom(s[1..], depth)
  {
    hide Span, StripFrom;
    assert s[0..] == s;
    StripStep(s, 0, depth);
  }

  /** One step of the stripper on a text and on its encoding. */
  lemma EncodedStep(text: string, depth: nat)
    requires text != []
    ensures Dashes(text) ==> Span(text, NotNewline) >= 2
    ensures StripFrom(text, depth) ==
            if depth > 0 && Closes(text) then StripFrom(text[2..], depth - 1)
            else if Opens(text) then StripFrom(text[2..], depth + 1)
            else if depth == 0 && Dashes(text) then StripFrom(text[Span(text, NotNewline)..], 0)
            else (if depth == 0 then [text[0]] else []) + StripFrom(text[1..], depth)
    ensures StripFrom(Encode(text), depth) ==
            if depth > 0 && Closes(text) then StripFrom(Encode(text[2..]), depth - 1)
            else if Opens(text) then StripFrom(Encode(text[2..]), depth + 1)
            else if depth == 0 && Dashes(text) then StripFrom(Encode(text[Span(text, NotNewline)..]), 0)
            else (if depth == 0 then EncodeChar(text[0]) else []) + StripFrom(Encode(text[1..]), depth)
  {
    hide Span, EncodeChar, StripFrom, Encode;
    var e := Encode(text);
    HeadStep(text, depth);
    HeadOfEncoding(text);
    if Opens(text) || Closes(text) {
      PairOfEncoding(text);
      HeadStep(e, depth);
    } else if depth == 0 && Dashes(text) {
      LineOfEncoding(text);
      HeadStep(e, depth);
    } else {
      CharStripped(text[0], Encode(text[1..]), depth);
    }
  }

  lemma {:induction false} RunStripped(h: string, r: string)
    requires forall k :: 0 <= k < |h| ==> Plainly(h[k])
    ensures StripCode(h + r) == h + StripCode(r)
  {
    if h == [] {
      assert h + r == r;
    } else {
      RunStripped(h[1..], r);
      assert (h + r)[1..] == h[1..] + r && h == [h[0]] + h[1..];
    }
  }

  lemma CharStripped(c: char, r: string, depth: nat)
    requires var e := EncodeChar(c) + r; !Opens(e) && !(depth > 0 && Closes(e)) && !(depth == 0 && Dashes(e))
    ensures StripFrom(EncodeChar(c) + r, depth) ==
            (if depth == 0 then EncodeChar(c) else []) + StripFrom(r, depth)
  {
    hide EncodeChar;
    var h := EncodeChar(c);
    if c as int < 0x80 {
      assert (h + r)[1..] == r;
    } else if depth == 0 {
      RunStripped(h, r);
    } else {
      BlockSkipsInert(h, r, depth);
    }
  }

  // ---- texts -------------------------------------------------------------------------

  /** `src` without the bytes of the scanner's comment tokens. */
  function Without(src: string): string {
    OutsideInside(src);
    Gather(src, Outside(src))
  }

  lemma OutsideInside(src: string)
    ensures forall k :: k in Outside(src) ==> k < |src|
  {
    hide Outside, InComment, Scan;
    forall k | k in Outside(src)
      ensures k < |src|
    {
      OutsideMeans(src, k);
    }
  }

  /** Stripping a text leaves its encoding without the bytes of the scanner's comment
      tokens, and nothing else is lost, whenever no literal or name misleads. */
  lemma StripRemovesComments(text: string)
    requires NoneMisleads(Encode(text), Scan(Encode(text)))
    ensures Encode(StripCode(text)) == Without(Encode(text))
  {
    hide Encode, StripCode, KeptFrom, Scan, Gather, NoneMisleads, Outside;
    var src: string := Encode(text);
    StripOfEncoding(text, 0);
    assert src[0..] == src;
    StripIsKept(src, 0, 0);
    KeepsOutsideIffNoneMisleads(src);
  }

  predicate Unquoted(s: string) { forall k :: 0 <= k < |s| ==> s[k] != '\'' && s[k] != '"' && s[k] != '[' }

  lemma {:induction false} UnquotedEncoding(text: string)
    requires Unquoted(text)
    ensures Unquoted(Encode(text))
  {
    if text != [] {
      UnquotedEncoding(text[1..]);
    }
  }

  lemma PlainLexeme(s: string)
    requires s != [] && Unquoted(s)
    ensures Lex(s).kind == Comment || !Marked(s[..Lex(s).len])
  {
    hide Span, BlockTail, QuoteTail;
    if Lex(s).kind != Comment {
      LexemeMarks(s);
      if IsWordStart(s[0]) {
        SpanIsLongest(s[1..], IsWordPart);
        forall k | 0 <= k < Lex(s).len
          ensures Plainly(s[k])
        {
          if k > 0 {
            assert IsWordPart(s[1..][k - 1]);
          }
        }
      }
    }
  }

  /** No token of unquoted text misleads. */
  lemma {:induction false} UnquotedNeverMisleads(src: string, i: nat)
    requires i <= |src| && Unquoted(src)
    ensures NoneMisleads(src, TokensFrom(src, i))
    decreases |src| - i
  {
    hide Lex, TokensFrom, NoneMisleads, LineAt, ColAt, Marked;
    if i == |src| {
      TokensEnd(src);
      NoTokens(src);
    } else {
      var x := Lex(src[i..]);
      UnquotedNeverMisleads(src, i + x.len);
      PlainLexeme(src[i..]);
      assert src[i..][..x.len] == src[i..i + x.len];
      TokensSplit(src, i);
    }
  }

  /** On text without quotes or brackets the stripper always agrees with the scanner. */
  lemma UnquotedIsStripped(text: string)
    requires Unquoted(text)
    ensures Encode(StripCode(text)) == Without(Encode(text))
  {
    hide Encode, StripCode, NoneMisleads, TokensFrom, Unquoted, Without;
    UnquotedEncoding(text);
    UnquotedNeverMisleads(Encode(text), 0);
    StripRemovesComments(text);
  }

  /** Dashes inside a literal are taken for a comment. */
  lemma LiteralsAreNotSpared()
    ensures StripCode("'--'") == "'" && Misleads("'--'", Token(String, 0, 4, 1, 1))
    ensures Scan("'--'") == [Token(String, 0, 4, 1, 1)]
  {
    var s := "'--'";
    assert s[1..] == "--'" && s[1..][1..] == "-'" && s[1..][1..][1..] == "'" && s[1..][1..][1..][1..] == "";
    assert Lex(s) == Lexeme(String, 4);
    assert s[0..] == s;
    TokensStep(s, 0);
    TokensEnd(s);
    PositionAtStart(s);
    assert StripCode("--'") == "";
    assert MarkAt(s[0..4], 1);
  }
}

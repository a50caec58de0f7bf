/**
 What suppression promises: only comments can silence a rule, a literal's
 contents never do, and a rule is silenced on a line exactly when some
 directive that concerns the line names it.
 */
module SuppressLaws {
  import opened Wrappers
  import opened Strings
  import opened Tokens
  import opened TokenLaws
  import opened TokenLocality
  import opened Suppress

  // ---- what covers a rule --------------------------------------------------------

  /** Does argument text `args` name `rule`? No list at all names every rule. */
  predicate ArgsCover(args: string, rule: string) {
    SplitSpecs(args) == [] || exists s :: s in SplitSpecs(args) && SpecMatches(s, rule)
  }

  predicate Concerns(d: Directive, line: Option<nat>) {
    d.target == WholeFile || (line.Some? && d.target == Line(line.value))
  }

  lemma {:induction false} SpecsAreTrimmed(pieces: seq<string>)
    ensures forall s :: s in TrimmedNonempty(pieces) ==> Trim(s) == s && s != ""
  {
    if pieces != [] {
      TrimIdempotent(pieces[0]);
      SpecsAreTrimmed(pieces[1..]);
    }
  }

  lemma {:induction false} WithAllCovers(scope: Scope, ss: seq<string>, rule: string)
    requires forall s :: s in ss ==> Trim(s) == s && s != ""
    ensures scope.WithAll(ss).Covers(rule) <==>
            scope.Covers(rule) || exists s :: s in ss && SpecMatches(s, rule)
    decreases |ss|
  {
    hide Lower, Trim;
    if ss != [] {
      assert ss[0] in ss;
      WithCovers(scope, ss[0], rule);
      WithAllCovers(scope.With(ss[0]), ss[1..], rule);
      assert forall s :: s in ss <==> s == ss[0] || s in ss[1..];
    }
  }

  lemma WithCovers(scope: Scope, s: string, rule: string)
    requires Trim(s) == s && s != ""
    ensures scope.With(s).Covers(rule) <==> scope.Covers(rule) || SpecMatches(s, rule)
  {
    hide Lower, Trim;
    var r := scope.With(s);
    if !IsWildcard(s) {
      assert forall x :: x in r.specs <==> x in scope.specs || x == s;
    }
  }

  /** A scope grows by exactly what the new argument text names. */
  lemma AddedCovers(scope: Scope, raw: string, rule: string)
    ensures scope.Added(raw).Covers(rule) <==> scope.Covers(rule) || ArgsCover(raw, rule)
  {
    hide SpecMatches, Split;
    SpecsAreTrimmed(Split(raw, IsSpecSeparator));
    WithAllCovers(scope, SplitSpecs(raw), rule);
  }

  lemma AppliedCovers(s: Suppressions, d: Directive, rule: string, line: Option<nat>)
    ensures s.Applied(d).Covers(rule, line) <==>
            s.Covers(rule, line) || (Concerns(d, line) && ArgsCover(d.args, rule))
  {
    hide SpecMatches, SplitSpecs, ArgsCover;
    match d.target
    case WholeFile => AddedCovers(s.file, d.args, rule);
    case Line(n) => AddedCovers(s.OnLine(n), d.args, rule);
  }

  lemma {:induction false} AppliedAllCovers(s: Suppressions, ds: seq<Directive>, rule: string, line: Option<nat>)
    ensures s.AppliedAll(ds).Covers(rule, line) <==>
            s.Covers(rule, line) || exists d :: d in ds && Concerns(d, line) && ArgsCover(d.args, rule)
    decreases |ds|
  {
    hide ArgsCover;
    if ds != [] {
      AppliedCovers(s, ds[0], rule, line);
      AppliedAllCovers(s.Applied(ds[0]), ds[1..], rule, line);
      assert forall d :: d in ds <==> d == ds[0] || d in ds[1..];
    }
  }

  /** A rule is silenced on a line if and only if some directive of the file
      concerns that line and names the rule. */
  lemma CoversIffDirective(sql: string, rule: string, line: Option<nat>)
    ensures Read(sql).Covers(rule, line) <==>
            exists d :: d in Directives(sql) && Concerns(d, line) && ArgsCover(d.args, rule)
  {
    hide ArgsCover, Directives;
    AppliedAllCovers(NO_SUPPRESSIONS, Directives(sql), rule, line);
  }

  // ---- literals and delimited names are inert ------------------------------------

  lemma {:induction false} DoubledNewlines(body: string, q: char)
    requires q != '\n'
    ensures Newlines(Doubled(body, q)) == Newlines(body)
  {
    if body != [] {
      var head := if body[0] == q then [q, q] else [body[0]];
      DoubledNewlines(body[1..], q);
      PositionsConcat(head, Doubled(body[1..], q));
      PositionsConcat([body[0]], body[1..]);
      assert body == [body[0]] + body[1..];
      if body[0] == q {
        NoNewlines(head);
        NoNewlines([body[0]]);
      }
    }
  }

  lemma QuotedNewlines(body: string, q: char)
    requires q != '\n'
    ensures Newlines(Quoted(body, q)) == Newlines(body)
  {
    DoubledNewlines(body, q);
    PositionsConcat([q] + Doubled(body, q), [q]);
    PositionsConcat([q], Doubled(body, q));
    NoNewlines([q]);
  }

  lemma QuotedIsOneLexeme(body: string, q: char, post: string)
    requires (q == '\'' || q == '"') && NotQuoted(post, q)
    ensures Lex(Quoted(body, q) + post) ==
            Lexeme(if q == '\'' then String else Word, |Quoted(body, q)|)
  {
    var s, n := Quoted(body, q) + post, |Quoted(body, q)|;
    assert s[..n] == Quoted(body, q) && s[n..] == post;
    QuotedLexeme(s, q, n);
  }

  /** Nothing but comments is read: two texts with the same comments on the
      same lines suppress the same. */
  lemma SameComments(src: string, src': string)
    requires Comments(src) == Comments(src')
    ensures Read(src) == Read(src') && Directives(src) == Directives(src')
  {
  }

  lemma SwapLexeme(pre: string, x: string, y: string, post: string)
    requires x != [] && y != [] && x[0] == y[0] && Newlines(x) == Newlines(y)
    requires Reaches(pre + x + post, 0, |pre|)
    requires Lex(x + post).len == |x| && Lex(x + post).kind != Comment
    requires Lex(y + post).len == |y| && Lex(y + post).kind != Comment
    ensures Read(pre + x + post) == Read(pre + y + post)
  {
    hide Lex, Reaches, Newlines, Comments, Read, Agree;
    var src, src', i := pre + x + post, pre + y + post, |pre|;
    Pieces(pre, x, post);
    Pieces(pre, y, post);
    AgreeThrough(pre, x + post, y + post);
    InertReplacement(src, src', i, |x|, |y|);
    SameComments(src, src');
  }

  lemma Pieces(pre: string, x: string, post: string)
    ensures var src, i := pre + x + post, |pre|;
            && src == pre + (x + post)
            && src[i..] == x + post
            && src[i..i + |x|] == x
            && src[i + |x|..] == post
  {
  }

  lemma AgreeThrough(pre: string, s: string, t: string)
    requires s != [] && t != [] && s[0] == t[0]
    ensures Agree(pre + s, pre + t, |pre| + 1)
  {
  }

  /** The contents of a string literal or of a double-quoted name never affect
      suppression: wherever the scan reaches its opening quote, any other body
      with as many newlines leaves every scope of the file unchanged. */
  lemma QuotedBodyIsInert(pre: string, body: string, body': string, q: char, post: string)
    requires (q == '\'' || q == '"') && NotQuoted(post, q)
    requires Reaches(pre + Quoted(body, q) + post, 0, |pre|)
    requires Newlines(body) == Newlines(body')
    ensures Read(pre + Quoted(body', q) + post) == Read(pre + Quoted(body, q) + post)
  {
    hide Lex, Reaches, Newlines, Read, Doubled;
    QuotedIsOneLexeme(body, q, post);
    QuotedIsOneLexeme(body', q, post);
    QuotedNewlines(body, q);
    QuotedNewlines(body', q);
    SwapLexeme(pre, Quoted(body, q), Quoted(body', q), post);
  }

  function Bracketed(body: string): string { "[" + body + "]" }

  lemma BracketedIsOneLexeme(body: string, post: string)
    requires ']' !in body
    ensures Lex(Bracketed(body) + post) == Lexeme(Word, |body| + 2)
  {
    var t := (Bracketed(body) + post)[1..];
    var n := Span(t, NotCloseBracket);
    SpanIsLongest(t, NotCloseBracket);
    assert t == body + "]" + post;
    assert t[|body|] == ']';
    assert forall k :: 0 <= k < |body| ==> t[k] == body[k];
  }

  lemma BracketedNewlines(body: string)
    ensures Newlines(Bracketed(body)) == Newlines(body)
  {
    PositionsConcat("[" + body, "]");
    PositionsConcat("[", body);
    NoNewlines("[");
    NoNewlines("]");
  }

  /** Nor do the contents of a bracketed name. */
  lemma BracketedBodyIsInert(pre: string, body: string, body': string, post: string)
    requires ']' !in body && ']' !in body'
    requires Reaches(pre + Bracketed(body) + post, 0, |pre|)
    requires Newlines(body) == Newlines(body')
    ensures Read(pre + Bracketed(body') + post) == Read(pre + Bracketed(body) + post)
  {
    hide Lex, Reaches, Newlines, Read;
    BracketedIsOneLexeme(body, post);
    BracketedIsOneLexeme(body', post);
    BracketedNewlines(body);
    BracketedNewlines(body');
    SwapLexeme(pre, Bracketed(body), Bracketed(body'), post);
  }

  // ---- keywords fail closed ------------------------------------------------------

  /** The three keywords exclude one another, so the order in which they are
      tried does not matter: no directive is taken for a shorter one. */
  lemma KeywordsExclusive(rest: string)
    ensures DirectiveArgs(rest, IGNORE_FILE).Some? ==>
              DirectiveArgs(rest, IGNORE_NEXT_LINE) == None && DirectiveArgs(rest, IGNORE) == None
    ensures DirectiveArgs(rest, IGNORE_NEXT_LINE).Some? ==>
              DirectiveArgs(rest, IGNORE_FILE) == None && DirectiveArgs(rest, IGNORE) == None
  {
    KeywordChar(rest, IGNORE_FILE, 12);
    KeywordChar(rest, IGNORE_FILE, 13);
    KeywordChar(rest, IGNORE_NEXT_LINE, 12);
    KeywordChar(rest, IGNORE_NEXT_LINE, 13);
    NoHyphenAfter(rest, IGNORE);
  }

  lemma KeywordChar(rest: string, keyword: string, k: nat)
    requires k < |keyword|
    ensures DirectiveArgs(rest, keyword).Some? ==> k < |rest| && LowerChar(rest[k]) == LowerChar(keyword[k])
  {
    hide StripCommentTail;
    if DirectiveArgs(rest, keyword).Some? {
      assert Lower(rest[..|keyword|])[k] == Lower(keyword)[k];
    }
  }

  lemma NoHyphenAfter(rest: string, keyword: string)
    ensures DirectiveArgs(rest, keyword).Some? && |keyword| < |rest| ==> rest[|keyword|] != '-'
  {
    hide StripCommentTail;
    if |keyword| < |rest| {
      assert rest[|keyword|..][0] == rest[|keyword|];
    }
  }

  // ---- specs are segment lists ---------------------------------------------------

  /** The dotted segments of a rule id or family. */
  function Segments(s: string): seq<string> { Split(Lower(s), IsDot) }

  lemma {:induction false} PrefixIsSegmentPrefix(q: string, r: string)
    ensures q == r || q + "." <= r <==> Split(q, IsDot) <= Split(r, IsDot)
    decreases |q| + |r|
  {
    if r == [] {
      if q != [] {
        SplitOfEmpty(q);
      }
    } else if q == [] {
      EmptySegment(r);
    } else {
      PrefixIsSegmentPrefix(q[1..], r[1..]);
      assert q[0] == r[0] ==> (q == r <==> q[1..] == r[1..]) by {
        assert q == [q[0]] + q[1..] && r == [r[0]] + r[1..];
      }
      assert (q + ".")[1..] == q[1..] + ".";
      assert q + "." <= r <==> q[0] == r[0] && q[1..] + "." <= r[1..] by {
        PrefixByHead(q + ".", r);
      }
      SegmentHeads(q, r);
    }
  }

  lemma PrefixByHead(p: string, r: string)
    requires p != [] && r != []
    ensures p <= r <==> p[0] == r[0] && p[1..] <= r[1..]
  {
    assert p == [p[0]] + p[1..] && r == [r[0]] + r[1..];
  }

  lemma SplitOfEmpty(q: string)
    requires q != []
    ensures !(Split(q, IsDot) <= [""])
  {
    var s := Split(q, IsDot);
    if IsDot(q[0]) {
      assert |s| >= 2;
    } else {
      assert s[0] != "";
    }
  }

  lemma EmptySegment(r: string)
    requires r != []
    ensures "." <= r <==> [""] <= Split(r, IsDot)
  {
    if !IsDot(r[0]) {
      assert Split(r, IsDot)[0] != "";
    }
  }

  lemma SegmentHeads(q: string, r: string)
    requires q != [] && r != []
    ensures Split(q, IsDot) <= Split(r, IsDot) <==>
            q[0] == r[0] && Split(q[1..], IsDot) <= Split(r[1..], IsDot)
  {
    var a, b := Split(q[1..], IsDot), Split(r[1..], IsDot);
    if IsDot(q[0]) && IsDot(r[0]) {
      assert [""] + a <= [""] + b <==> a <= b by {
        ConsPrefix("", a, "", b);
      }
    } else if !IsDot(q[0]) && !IsDot(r[0]) {
      ConsPrefix([q[0]] + a[0], a[1..], [r[0]] + b[0], b[1..]);
      ConsPrefix(a[0], a[1..], b[0], b[1..]);
      assert a == [a[0]] + a[1..] && b == [b[0]] + b[1..];
      assert [q[0]] + a[0] == [r[0]] + b[0] <==> q[0] == r[0] && a[0] == b[0] by {
        assert ([q[0]] + a[0])[1..] == a[0] && ([r[0]] + b[0])[1..] == b[0];
      }
    } else {
      var s, t := Split(q, IsDot), Split(r, IsDot);
      assert s[0] != t[0];
    }
  }

  lemma ConsPrefix(x: string, xs: seq<string>, y: string, ys: seq<string>)
    ensures [x] + xs <= [y] + ys <==> x == y && xs <= ys
  {
    if [x] + xs <= [y] + ys {
      assert ([x] + xs)[0] == x && ([y] + ys)[0] == y;
      assert forall k :: 0 <= k < |xs| ==> xs[k] == ([x] + xs)[k + 1] == ([y] + ys)[k + 1] == ys[k];
    }
  }

  /** What a spec stands for, as a list of whole segments. */
  datatype SpecMeaning = Every | Exactly(segments: seq<string>) | Under(segments: seq<string>)

  function Meaning(spec: string): SpecMeaning {
    if IsWildcard(spec) then Every
    else if EndsWith(spec, ".*") then Under(Segments(spec[..|spec| - 2]))
    else if '.' in spec then Exactly(Segments(spec))
    else Under(Segments(spec))
  }

  predicate Matches(m: SpecMeaning, rule: string) {
    match m
    case Every => true
    case Exactly(segments) => segments == Segments(rule)
    case Under(segments) => segments <= Segments(rule)
  }

  lemma SegmentsInjective(a: string, b: string)
    ensures Segments(a) == Segments(b) <==> EqIgnoreCase(a, b)
  {
    PrefixIsSegmentPrefix(Lower(a), Lower(b));
    PrefixIsSegmentPrefix(Lower(b), Lower(a));
    assert Lower(a) + "." <= Lower(b) ==> |a| < |b|;
    assert Lower(b) + "." <= Lower(a) ==> |b| < |a|;
  }

  /** A spec matches whole dotted segments, whatever their case: a family or a
      glob covers the rules whose leading segments it spells, an id with a dot
      only itself. A partial segment is never enough. */
  lemma SpecMatchesSegments(spec: string, rule: string)
    requires Trim(spec) == spec && spec != ""
    ensures SpecMatches(spec, rule) <==> Matches(Meaning(spec), rule)
  {
    hide Trim, Split;
    SegmentsInjective(spec, rule);
    PrefixIsSegmentPrefix(Lower(spec), Lower(rule));
    if EndsWith(spec, ".*") {
      PrefixIsSegmentPrefix(Lower(spec[..|spec| - 2]), Lower(rule));
    }
  }
}

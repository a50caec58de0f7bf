/**
 Rule suppression: which `dbopt-ignore` directives a file carries, and which
 rules they silence where. Directives are read from comment tokens only.

 Text is UTF-8 shown byte by byte, as in Tokens; the white space that `trim`
 removes is therefore spelled out in its UTF-8 form.
 */
module Suppress {
  import opened Wrappers
  import opened Strings
  import opened Tokens
  import opened TokenLocality

  // ---- white space in UTF-8 ----------------------------------------------------

  predicate IsAsciiWhite(c: char) { c == ' ' || '\t' <= c <= '\r' }

  /** U+0085 and U+00A0. */
  predicate IsWhite2(a: char, b: char) { a == '\U{C2}' && (b == '\U{85}' || b == '\U{A0}') }

  /** U+1680, U+2000 to U+200A, U+2028, U+2029, U+202F, U+205F and U+3000. */
  predicate IsWhite3(a: char, b: char, c: char) {
    || (a == '\U{E1}' && b == '\U{9A}' && c == '\U{80}')
    || (a == '\U{E2}' && b == '\U{80}' &&
        ('\U{80}' <= c <= '\U{8A}' || c == '\U{A8}' || c == '\U{A9}' || c == '\U{AF}'))
    || (a == '\U{E2}' && b == '\U{81}' && c == '\U{9F}')
    || (a == '\U{E3}' && b == '\U{80}' && c == '\U{80}')
  }

  /** Bytes of the white-space character `s` starts with; 0 if it does not. */
  function WhiteHead(s: string): (n: nat)
    ensures n <= |s|
  {
    if s == [] then 0
    else if IsAsciiWhite(s[0]) then 1
    else if |s| >= 2 && IsWhite2(s[0], s[1]) then 2
    else if |s| >= 3 && IsWhite3(s[0], s[1], s[2]) then 3
    else 0
  }

  function WhiteTail(s: string): (n: nat)
    ensures n <= |s|
  {
    var m := |s|;
    if s == [] then 0
    else if IsAsciiWhite(s[m - 1]) then 1
    else if m >= 2 && IsWhite2(s[m - 2], s[m - 1]) then 2
    else if m >= 3 && IsWhite3(s[m - 3], s[m - 2], s[m - 1]) then 3
    else 0
  }

  function TrimStart(s: string): (r: string)
    ensures WhiteHead(r) == 0
  {
    if WhiteHead(s) == 0 then s else TrimStart(s[WhiteHead(s)..])
  }

  function TrimEnd(s: string): (r: string)
    ensures WhiteTail(r) == 0
    ensures r <= s
    decreases |s|
  {
    if WhiteTail(s) == 0 then s else TrimEnd(s[..|s| - WhiteTail(s)])
  }

  function Trim(s: string): string { TrimEnd(TrimStart(s)) }

  lemma TrimIdempotent(s: string)
    ensures Trim(Trim(s)) == Trim(s)
  {
    var t := TrimStart(s);
    assert WhiteHead(TrimEnd(t)) == 0;
  }

  // ---- specs -------------------------------------------------------------------

  predicate IsWildcard(spec: string) { spec == "*" || EqIgnoreCase(spec, "all") }

  predicate SpecMatches(raw: string, rule: string) {
    var spec := Trim(raw);
    if spec == "" then false
    else if IsWildcard(spec) then true
    else if EndsWith(spec, ".*") then
      var prefix := Lower(spec[..|spec| - 2]);
      Lower(rule) == prefix || prefix + "." <= Lower(rule)
    else if EqIgnoreCase(spec, rule) then true
    else '.' !in spec && Lower(spec) + "." <= Lower(rule)
  }

  predicate IsSpecSeparator(c: char) { c == ',' || c == ' ' || c == '\t' }

  function TrimmedNonempty(pieces: seq<string>): seq<string> {
    if pieces == [] then []
    else (if Trim(pieces[0]) == "" then [] else [Trim(pieces[0])]) + TrimmedNonempty(pieces[1..])
  }

  function SplitSpecs(raw: string): seq<string> { TrimmedNonempty(Split(raw, IsSpecSeparator)) }

  // ---- scopes ------------------------------------------------------------------

  datatype Scope = Scope(all: bool, specs: seq<string>) {
    predicate Covers(rule: string) {
      all || exists s :: s in specs && SpecMatches(s, rule)
    }

    function With(s: string): Scope {
      if IsWildcard(s) then this.(all := true) else this.(specs := specs + [s])
    }

    function WithAll(ss: seq<string>): Scope
      decreases |ss|
    {
      if ss == [] then this else With(ss[0]).WithAll(ss[1..])
    }

    /** The scope after one more directive with argument text `raw`. */
    function Added(raw: string): Scope {
      var specs := SplitSpecs(raw);
      if specs == [] then this.(all := true) else WithAll(specs)
    }

    method Add(raw: string) returns (r: Scope)
      ensures r == Added(raw)
    {
      var ss := SplitSpecs(raw);
      r := this;
      if ss == [] {
        r := r.(all := true);
      } else {
        for k := 0 to |ss|
          invariant WithAll(ss) == r.WithAll(ss[k..])
        {
          if ss[k] == "*" || EqIgnoreCase(ss[k], "all") {
            r := r.(all := true);
          } else {
            r := r.(specs := r.specs + [ss[k]]);
          }
        }
      }
    }
  }

  const NO_SCOPE := Scope(false, [])

  // ---- directives --------------------------------------------------------------

  const IGNORE := "dbopt-ignore"
  const IGNORE_FILE := "dbopt-ignore-file"
  const IGNORE_NEXT_LINE := "dbopt-ignore-next-line"

  function UpTo(s: string, pat: string): string {
    match Find(s, pat) case None => s case Some(n) => s[..n]
  }

  function TrimColons(s: string): string {
    if s != [] && s[0] == ':' then TrimColons(s[1..]) else s
  }

  function StripCommentTail(args: string): string { Trim(TrimColons(UpTo(args, "*/"))) }

  /** The argument text of directive `keyword`, if `rest` starts with it and a
      separator, the end of the line or the closer of the comment follows. */
  function DirectiveArgs(rest: string, keyword: string): Option<string> {
    if |rest| < |keyword| || !EqIgnoreCase(rest[..|keyword|], keyword) then None
    else
      var tail := rest[|keyword|..];
      if tail == "" then Some("")
      else if WhiteHead(tail) > 0 || tail[0] == ':' then Some(StripCommentTail(tail))
      else if Closes(tail) then Some("")
      else None
  }

  datatype Target = WholeFile | Line(n: nat)

  datatype Directive = Directive(target: Target, args: string)

  function ToTarget(args: Option<string>, target: Target): Option<Directive> {
    match args case None => None case Some(a) => Some(Directive(target, a))
  }

  /** The directive on one line of comment text. */
  function DirectiveOn(raw: string, line: nat, after: nat): Option<Directive> {
    match Find(Lower(raw), IGNORE)
    case None => None
    case Some(at) =>
      var rest := raw[at..];
      OrElse(ToTarget(DirectiveArgs(rest, IGNORE_FILE), WholeFile),
             OrElse(ToTarget(DirectiveArgs(rest, IGNORE_NEXT_LINE), Line(after)),
                    ToTarget(DirectiveArgs(rest, IGNORE), Line(line))))
  }

  function StripCr(s: string): string {
    if EndsWith(s, "\r") then s[..|s| - 1] else s
  }

  /** Lines end at LF or CR LF; no empty line follows a final LF. */
  function Lines(s: string): seq<string>
    decreases |s|
  {
    if s == [] then []
    else
      var n := Span(s, NotNewline);
      if n == |s| then [s] else [StripCr(s[..n])] + Lines(s[n + 1..])
  }

  function DirectivesOn(lines: seq<string>, line: nat, after: nat): seq<Directive> {
    if lines == [] then []
    else ToSeq(DirectiveOn(lines[0], line, after)) + DirectivesOn(lines[1..], line + 1, after)
  }

  function DirectivesIn(c: CommentText): seq<Directive> {
    DirectivesOn(Lines(c.text), c.line, c.line + Newlines(c.text) + 1)
  }

  function DirectivesOf(cs: seq<CommentText>): seq<Directive> {
    if cs == [] then [] else DirectivesIn(cs[0]) + DirectivesOf(cs[1..])
  }

  /** Every directive of a file, in reading order. */
  function Directives(sql: string): seq<Directive> { DirectivesOf(Comments(sql)) }

  // ---- what a file suppresses ----------------------------------------------------

  datatype Suppressions = Suppressions(file: Scope, lines: map<nat, Scope>) {
    function OnLine(n: nat): Scope { if n in lines then lines[n] else NO_SCOPE }

    function Applied(d: Directive): Suppressions {
      match d.target
      case WholeFile => this.(file := file.Added(d.args))
      case Line(n) => this.(lines := lines[n := OnLine(n).Added(d.args)])
    }

    function AppliedAll(ds: seq<Directive>): Suppressions
      decreases |ds|
    {
      if ds == [] then this else Applied(ds[0]).AppliedAll(ds[1..])
    }

    predicate Covers(rule: string, line: Option<nat>) {
      file.Covers(rule) || (line.Some? && line.value in lines && lines[line.value].Covers(rule))
    }
  }

  const NO_SUPPRESSIONS := Suppressions(NO_SCOPE, map[])

  function Read(sql: string): Suppressions { NO_SUPPRESSIONS.AppliedAll(Directives(sql)) }

  class FileSuppressions {
    var file: Scope
    var lines: map<nat, Scope>

    ghost function Value(): Suppressions
      reads this
    {
      Suppressions(file, lines)
    }

    constructor ()
      ensures Value() == NO_SUPPRESSIONS
    {
      file, lines := NO_SCOPE, map[];
    }

    method AddToLine(n: nat, args: string)
      modifies this
      ensures Value() == old(Value()).Applied(Directive(Line(n), args))
    {
      var scope := if n in lines then lines[n] else NO_SCOPE;
      scope := scope.Add(args);
      lines := lines[n := scope];
    }

    /** One line of comment text. */
    method ReadLine(raw: string, lineno: nat, afterComment: nat)
      modifies this
      ensures Value() == old(Value()).AppliedAll(ToSeq(DirectiveOn(raw, lineno, afterComment)))
    {
      hide DirectiveArgs, SplitSpecs, Find, Lower;
      var at := Find(Lower(raw), IGNORE);
      if at.Some? {
        var rest := raw[at.value..];
        // Longest form first, so that the short keyword does not take the others.
        var fileArgs := DirectiveArgs(rest, IGNORE_FILE);
        if fileArgs.Some? {
          file := file.Add(fileArgs.value);
        } else {
          var nextArgs := DirectiveArgs(rest, IGNORE_NEXT_LINE);
          if nextArgs.Some? {
            AddToLine(afterComment, nextArgs.value);
          } else {
            var args := DirectiveArgs(rest, IGNORE);
            if args.Some? {
              AddToLine(lineno, args.value);
            }
          }
        }
      }
    }

    method ReadComment(c: CommentText)
      modifies this
      ensures Value() == old(Value()).AppliedAll(DirectivesIn(c))
    {
      hide DirectiveOn, DirectivesOn, Lines, Newlines, Suppressions.AppliedAll;
      var afterComment := c.line + Newlines(c.text) + 1;
      var texts := Lines(c.text);
      for offset := 0 to |texts|
        invariant old(Value()).AppliedAll(DirectivesIn(c)) ==
                  Value().AppliedAll(DirectivesOn(texts[offset..], c.line + offset, afterComment))
      {
        LineStep(Value(), texts[offset..], c.line + offset, afterComment);
        ReadLine(texts[offset], c.line + offset, afterComment);
      }
      NoLinesLeft(Value(), c.line + |texts|, afterComment);
    }

    /** Scan the comment tokens of `sql` for directives. */
    static method Parse(sql: string) returns (out: FileSuppressions)
      ensures fresh(out) && out.Value() == Read(sql)
    {
      hide DirectivesIn, DirectivesOf, TokensFrom, CommentTexts, CommentsFrom;
      out := new FileSuppressions();
      var toks := Tokenize(sql);
      CommentsUnfold(sql, 0);
      for k := 0 to |toks|
        invariant fresh(out)
        invariant forall t :: t in toks[k..] ==> t.start <= t.end <= |sql|
        invariant Read(sql) == out.Value().AppliedAll(DirectivesOf(CommentTexts(sql, toks[k..])))
      {
        CommentTextsUnfold(sql, toks[k..]);
        var tok := toks[k];
        assert toks[k..][0] == tok && toks[k..][1..] == toks[k + 1..];
        ReadStep(out.Value(), CommentOf(sql, tok), CommentTexts(sql, toks[k + 1..]));
        if tok.kind == Comment {
          out.ReadComment(CommentText(tok.line, sql[tok.start..tok.end]));
        }
      }
      NothingLeft(sql, out.Value());
    }

    /** Is `rule` silenced on `line`? */
    predicate Covers(rule: string, line: Option<nat>)
      reads this
      ensures Covers(rule, line) <==> Value().Covers(rule, line)
    {
      file.Covers(rule) || (line.Some? && line.value in lines && lines[line.value].Covers(rule))
    }
  }

  lemma CommentTextsUnfold(src: string, ts: seq<Token>)
    requires ts != [] && forall t :: t in ts ==> t.start <= t.end <= |src|
    ensures ts[0].start <= ts[0].end <= |src|
    ensures forall t :: t in ts[1..] ==> t.start <= t.end <= |src|
    ensures CommentTexts(src, ts) ==
            CommentOf(src, ts[0]) + CommentTexts(src, ts[1..])
  {
    assert ts[0] in ts;
  }

  lemma ReadStep(s: Suppressions, head: seq<CommentText>, rest: seq<CommentText>)
    requires |head| <= 1
    ensures s.AppliedAll(DirectivesOf(head + rest)) ==
            (if head == [] then s else s.AppliedAll(DirectivesIn(head[0]))).AppliedAll(DirectivesOf(rest))
  {
    hide DirectivesIn;
    if head == [] {
      assert head + rest == rest;
    } else {
      assert (head + rest)[1..] == rest;
      AppliedAllConcat(s, DirectivesIn(head[0]), DirectivesOf(rest));
    }
  }

  lemma LineStep(s: Suppressions, lines: seq<string>, line: nat, after: nat)
    requires lines != []
    ensures s.AppliedAll(DirectivesOn(lines, line, after)) ==
            s.AppliedAll(ToSeq(DirectiveOn(lines[0], line, after)))
             .AppliedAll(DirectivesOn(lines[1..], line + 1, after))
  {
    hide DirectiveOn;
    AppliedAllConcat(s, ToSeq(DirectiveOn(lines[0], line, after)), DirectivesOn(lines[1..], line + 1, after));
  }

  lemma NoLinesLeft(s: Suppressions, line: nat, after: nat)
    ensures s.AppliedAll(DirectivesOn([], line, after)) == s
  {
  }

  lemma NothingLeft(src: string, s: Suppressions)
    ensures s.AppliedAll(DirectivesOf(CommentTexts(src, []))) == s
  {
  }

  lemma {:induction false} AppliedAllConcat(s: Suppressions, a: seq<Directive>, b: seq<Directive>)
    ensures s.AppliedAll(a + b) == s.AppliedAll(a).AppliedAll(b)
    decreases |a|
  {
    if a == [] {
      assert a + b == b;
    } else {
      assert (a + b)[1..] == a[1..] + b;
      AppliedAllConcat(s.Applied(a[0]), a[1..], b);
    }
  }
}

/**
 Which line a directive concerns: on any line of a comment of any number of lines,
 in any case, with any separator, with or without a rule list.
 */
module SuppressPlaces {
  import opened Wrappers
  import opened Strings
  import opened Tokens
  import opened TokenLocality
  import opened Suppress
  import opened SuppressLaws
  import opened SuppressWritten

  // ---- one line of a comment --------------------------------------------------------------

  predicate IsPad(c: char) { c == ' ' || c == '\t' || c == '\r' }

  predicate AllPad(s: string) { forall k :: 0 <= k < |s| ==> IsPad(s[k]) }

  predicate AllColons(s: string) { forall k :: 0 <= k < |s| ==> s[k] == ':' }

  /** What follows the keyword on its line: colons, blanks, a rule list or none, blanks,
      and possibly the closer of the comment. */
  predicate Consists(rest: string, args: string, colons: string, blanks: string, pad: string, close: string) {
    && rest == colons + (blanks + (args + (pad + close)))
    && AllColons(colons) && AllPad(blanks) && AllPad(pad) && (close == "" || close == "*/")
    && if args == "" then pad == "" else IsArgs(args) && args[0] != ':' && colons + blanks != ""
  }

  ghost predicate IsRest(rest: string, args: string) {
    exists colons: string, blanks: string, pad: string, close: string ::
      Consists(rest, args, colons, blanks, pad, close)
  }

  lemma {:induction false} PadTrimmed(blanks: string, s: string)
    requires AllPad(blanks) && WhiteHead(s) == 0
    ensures TrimStart(blanks + s) == s
    decreases |blanks|
  {
    hide TrimStart;
    if blanks == "" {
      assert blanks + s == s;
      TrimStartStep(s);
    } else {
      assert IsPad(blanks[0]) && WhiteHead(blanks + s) == 1;
      assert (blanks + s)[1..] == blanks[1..] + s;
      TrimStartStep(blanks + s);
      PadTrimmed(blanks[1..], s);
    }
  }

  lemma TrimStartStep(s: string)
    ensures TrimStart(s) == if WhiteHead(s) == 0 then s else TrimStart(s[WhiteHead(s)..])
  {
  }

  lemma TrimEndStep(s: string)
    ensures TrimEnd(s) == if WhiteTail(s) == 0 then s else TrimEnd(s[..|s| - WhiteTail(s)])
  {
  }

  lemma {:induction false} PadDropped(s: string, pad: string)
    requires AllPad(pad) && WhiteTail(s) == 0
    ensures TrimEnd(s + pad) == s
    decreases |pad|
  {
    hide TrimEnd;
    if pad == "" {
      assert s + pad == s;
      TrimEndStep(s);
    } else {
      var n := |pad| - 1;
      assert IsPad(pad[n]) && (s + pad)[|s + pad| - 1] == pad[n];
      assert WhiteTail(s + pad) == 1 && (s + pad)[..|s| + n] == s + pad[..n];
      TrimEndStep(s + pad);
      PadDropped(s, pad[..n]);
    }
  }

  lemma {:induction false} ColonsDropped(colons: string, s: string)
    requires AllColons(colons) && (s == "" || s[0] != ':')
    ensures TrimColons(colons + s) == s
    decreases |colons|
  {
    if colons == "" {
      assert colons + s == s;
    } else {
      assert (colons + s)[1..] == colons[1..] + s;
      ColonsDropped(colons[1..], s);
    }
  }

  lemma ArgsEnds(args: string, pad: string)
    requires IsArgs(args)
    ensures WhiteHead(args + pad) == 0 && WhiteTail(args) == 0 && args[|args| - 1] != '\r'
  {
    assert IsArgByte(args[0]) && IsArgByte(args[|args| - 1]) && (args + pad)[0] == args[0];
  }

  /** Separator and padding come off. */
  lemma ListTrimmed(args: string, colons: string, blanks: string, pad: string)
    requires Consists(colons + (blanks + (args + (pad + ""))), args, colons, blanks, pad, "")
    ensures Trim(TrimColons(colons + (blanks + (args + pad)))) == args
  {
    hide TrimStart, TrimEnd, TrimColons, IsArgs;
    var s := blanks + (args + pad);
    assert blanks != "" ==> IsPad(blanks[0]) && s[0] == blanks[0];
    assert blanks == "" && args != "" ==> s[0] == args[0];
    ColonsDropped(colons, s);
    if args != "" {
      ArgsEnds(args, pad);
    }
    PadTrimmed(blanks, args + pad);
    PadDropped(args, pad);
  }

  lemma ListHasNoSlash(args: string, colons: string, blanks: string, pad: string)
    requires AllColons(colons) && AllPad(blanks) && AllPad(pad) && (args == "" || IsArgs(args))
    ensures var s := colons + (blanks + (args + pad)); '/' !in s && '\n' !in s
  {
    NoneIn(colons);
    assert forall k :: 0 <= k < |blanks| ==> IsPad(blanks[k]);
    assert forall k :: 0 <= k < |pad| ==> IsPad(pad[k]);
    assert forall k :: 0 <= k < |args| ==> IsArgByte(args[k]);
    assert '/' !in blanks && '\n' !in blanks && '/' !in pad && '\n' !in pad && '/' !in args && '\n' !in args;
  }

  lemma NoneIn(colons: string)
    requires AllColons(colons)
    ensures '/' !in colons && '\n' !in colons
  {
  }

  /** The closer, if there is one, is where the list ends. */
  lemma ListRead(rest: string, args: string, colons: string, blanks: string, pad: string, close: string)
    requires Consists(rest, args, colons, blanks, pad, close)
    ensures StripCommentTail(rest) == args && '\n' !in rest
  {
    hide Trim, TrimColons, Find, IsArgs, AllPad, AllColons;
    var s := colons + (blanks + (args + pad));
    assert pad + "" == pad;
    ListHasNoSlash(args, colons, blanks, pad);
    ListTrimmed(args, colons, blanks, pad);
    assert rest == s + close;
    if close == "" {
      assert s + close == s;
      NoCloser(s);
    } else {
      CloserFound(s);
      assert (s + "*/")[..|s|] == s;
    }
  }

  /** The keyword may be written in any case. */
  predicate Spells(kw: string, f: Form) {
    match f
    case EntireFile => Lower(kw) == "dbopt-ignore-file"
    case NextLine => Lower(kw) == "dbopt-ignore-next-line"
    case SameLine => Lower(kw) == "dbopt-ignore"
  }

  lemma SpelledKeyword(kw: string, f: Form)
    ensures Spells(kw, f) <==> Lower(kw) == Keyword(f)
  {
    hide Lower;
  }

  lemma SpelledArgs(kw: string, f: Form, rest: string)
    requires Spells(kw, f)
    requires rest == "" || rest[0] == ' ' || rest[0] == '\t' || rest[0] == '\r' || rest[0] == ':' || rest == "*/"
    ensures DirectiveArgs(kw + rest, Keyword(f)) ==
            Some(if rest == "" || rest == "*/" then "" else StripCommentTail(rest))
  {
    hide StripCommentTail, Keyword, Spells;
    SpelledKeyword(kw, f);
    assert (kw + rest)[..|kw|] == kw && (kw + rest)[|kw|..] == rest;
    KeywordIsLower(f);
  }

  /** Text before the keyword in which it cannot be seen. */
  predicate IsLead(lead: string) { forall k :: 0 <= k < |lead| ==> lead[k] != 'd' && lead[k] != 'D' && lead[k] != '\n' }

  lemma SpelledFound(lead: string, kw: string, f: Form, rest: string)
    requires IsLead(lead) && Spells(kw, f)
    ensures Find(Lower(lead + kw + rest), IGNORE) == Some(|lead|)
  {
    hide Find, Keyword, IGNORE, Spells;
    SpelledKeyword(kw, f);
    KeywordStart(f);
    var s := Lower(lead + kw + rest);
    LowerConcat(lead + kw, rest);
    LowerConcat(lead, kw);
    assert s == Lower(lead) + Keyword(f) + Lower(rest);
    assert s[|lead|..][..|IGNORE|] == IGNORE;
    forall k | 0 <= k < |lead|
      ensures !(IGNORE <= s[k..])
    {
      assert s[k..][0] == LowerChar(lead[k]);
    }
    FindIsFirst(s, IGNORE, |lead|);
  }

  /** What a directive on line `line` concerns if the line after its comment is `after`. */
  function Aim(f: Form, line: nat, after: nat): Target {
    match f case EntireFile => WholeFile case NextLine => Line(after) case SameLine => Line(line)
  }

  /** The directive a line carries. */
  lemma LineRead(lead: string, kw: string, f: Form, rest: string, line: nat, after: nat)
    requires IsLead(lead) && Spells(kw, f)
    requires rest == "" || rest[0] == ' ' || rest[0] == '\t' || rest[0] == '\r' || rest[0] == ':' || rest == "*/"
    ensures DirectiveOn(lead + kw + rest, line, after) ==
            Some(Directive(Aim(f, line, after),
                           if rest == "" || rest == "*/" then "" else StripCommentTail(rest)))
  {
    hide DirectiveArgs, StripCommentTail, Find, Lower, IGNORE, IGNORE_FILE, IGNORE_NEXT_LINE, Spells;
    SpelledFound(lead, kw, f, rest);
    assert (lead + kw + rest)[|lead|..] == kw + rest;
    SpelledArgs(kw, f, rest);
    KeywordsExclusive(kw + rest);
  }

  /** A line with a rule list `args`, "" standing for no list. */
  lemma ListedLineRead(lead: string, kw: string, f: Form, rest: string, args: string, line: nat, after: nat)
    requires IsLead(lead) && Spells(kw, f) && IsRest(rest, args)
    ensures DirectiveOn(lead + kw + rest, line, after) ==
            Some(Directive(Aim(f, line, after), args))
    ensures '\n' !in rest
  {
    hide DirectiveOn, StripCommentTail, Spells, IsLead, Consists;
    var colons: string, blanks: string, pad: string, close: string :|
      Consists(rest, args, colons, blanks, pad, close);
    ListRead(rest, args, colons, blanks, pad, close);
    RestHead(rest, args, colons, blanks, pad, close);
    LineRead(lead, kw, f, rest, line, after);
  }

  lemma RestHead(rest: string, args: string, colons: string, blanks: string, pad: string, close: string)
    requires Consists(rest, args, colons, blanks, pad, close)
    ensures rest == "" || rest[0] == ' ' || rest[0] == '\t' || rest[0] == '\r' || rest[0] == ':' || rest == "*/"
    ensures rest == "" || rest == "*/" ==> args == ""
  {
    hide IsArgs;
    if colons != "" {
      assert rest[0] == colons[0];
    } else if blanks != "" {
      assert rest[0] == blanks[0] && IsPad(blanks[0]);
    } else {
      assert args == "" && rest == close;
    }
  }

  // ---- lines of a comment ----------------------------------------------------------------------

  /** Text that ends with the end of a line, or nothing. */
  predicate Closed(head: string) { head == "" || head[|head| - 1] == '\n' }

  lemma LinesStep(s: string)
    requires s != ""
    ensures var n := Span(s, NotNewline);
            Lines(s) == if n == |s| then [s] else [StripCr(s[..n])] + Lines(s[n + 1..])
  {
    hide Span, StripCr;
  }

  lemma SpanOf(s: string, n: nat)
    requires n < |s| && s[n] == '\n' && forall k :: 0 <= k < n ==> s[k] != '\n'
    ensures Span(s, NotNewline) == n
  {
    hide Span;
    SpanIsLongest(s, NotNewline);
  }

  lemma EndsInNewline(head: string)
    requires Closed(head) && head != ""
    ensures var n := Span(head, NotNewline);
            n < |head| && head[n] == '\n' && (forall k :: 0 <= k < n ==> head[k] != '\n') && Closed(head[n + 1..])
  {
    hide Span;
    SpanIsLongest(head, NotNewline);
    var n := Span(head, NotNewline);
    if head[n + 1..] != "" {
      assert head[n + 1..][|head| - n - 2] == head[|head| - 1];
    }
  }

  /** A text that starts with a closed line, as its first line and the others. */
  lemma ClosedLine(head: string, tail: string)
    requires Closed(head) && head != ""
    ensures var n := Span(head, NotNewline);
            && n < |head| && Closed(head[n + 1..])
            && Newlines(head) == 1 + Newlines(head[n + 1..])
            && Lines(head) == [StripCr(head[..n])] + Lines(head[n + 1..])
            && Lines(head + tail) == [StripCr(head[..n])] + Lines(head[n + 1..] + tail)
  {
    hide Lines, Newlines, Span, StripCr, Closed;
    EndsInNewline(head);
    var n, s := Span(head, NotNewline), head + tail;
    LinesStep(head);
    LineOfBoth(head, tail, n);
    NewlinesOfLine(head, n);
  }

  lemma LineOfBoth(head: string, tail: string, n: nat)
    requires n < |head| && head[n] == '\n' && forall k :: 0 <= k < n ==> head[k] != '\n'
    ensures Lines(head + tail) == [StripCr(head[..n])] + Lines(head[n + 1..] + tail)
  {
    hide Lines, Span, StripCr;
    var s := head + tail;
    assert forall k :: 0 <= k <= n ==> s[k] == head[k];
    SpanOf(s, n);
    LinesStep(s);
    assert s[..n] == head[..n] && s[n + 1..] == head[n + 1..] + tail;
  }

  lemma NewlinesOfLine(head: string, n: nat)
    requires n < |head| && head[n] == '\n' && forall k :: 0 <= k < n ==> head[k] != '\n'
    ensures Newlines(head) == 1 + Newlines(head[n + 1..])
  {
    hide Newlines;
    PositionsConcat(head[..n + 1], head[n + 1..]);
    assert head == head[..n + 1] + head[n + 1..];
    OneNewline(head, n);
  }

  lemma {:induction false} LinesAfter(head: string, tail: string)
    requires Closed(head)
    ensures |Lines(head)| == Newlines(head) && Lines(head + tail) == Lines(head) + Lines(tail)
    decreases |head|
  {
    hide Lines, Newlines, Span, StripCr, Closed;
    if head == "" {
      assert head + tail == tail;
      NoLines(tail);
    } else {
      ClosedLine(head, tail);
      var n := Span(head, NotNewline);
      LinesAfter(head[n + 1..], tail);
      Chained(Lines(head + tail), Lines(head), StripCr(head[..n]), Lines(head[n + 1..]), Lines(tail));
    }
  }

  lemma Chained(whole: seq<string>, first: seq<string>, x: string, a: seq<string>, b: seq<string>)
    requires first == [x] + a && whole == [x] + (a + b)
    ensures whole == first + b && |first| == 1 + |a|
  {
  }

  lemma NoLines(tail: string)
    ensures Lines("") == [] && Newlines("") == 0 && [] + Lines(tail) == Lines(tail)
  {
    hide StripCr;
  }

  lemma OneNewline(head: string, n: nat)
    requires n < |head| && head[n] == '\n' && forall k :: 0 <= k < n ==> head[k] != '\n'
    ensures Newlines(head[..n + 1]) == 1
  {
    NoNewlines(head[..n]);
    assert head[..n + 1][..n] == head[..n];
  }

  lemma {:induction false} DirectivesAfter(a: seq<string>, b: seq<string>, line: nat, after: nat)
    ensures DirectivesOn(a + b, line, after) == DirectivesOn(a, line, after) + DirectivesOn(b, line + |a|, after)
    decreases |a|
  {
    hide DirectiveOn;
    if a == [] {
      assert a + b == b;
    } else {
      assert (a + b)[1..] == a[1..] + b;
      DirectivesAfter(a[1..], b, line + 1, after);
    }
  }

  /** A line as it stands in the comment, a carriage return at its end left out. */
  lemma LineStands(text: string, foot: string)
    requires text != "" && '\n' !in text && (foot == "" || foot[0] == '\n')
    ensures var lines := Lines(text + foot);
            lines != [] && lines[0] == if foot == "" then text else StripCr(text)
  {
    hide Lines, Span, StripCr;
    var s := text + foot;
    assert forall k :: 0 <= k < |text| ==> s[k] == text[k] && text[k] in text;
    LinesStep(s);
    if foot == "" {
      assert s == text;
      SpanIsLongest(s, NotNewline);
    } else {
      assert s[|text|] == '\n';
      SpanOf(s, |text|);
      assert s[..|text|] == text;
    }
  }

  /** The directive on one line of a comment is among those of the comment. */
  lemma LineInComment(line: nat, head: string, text: string, foot: string)
    requires Closed(head) && text != "" && '\n' !in text && (foot == "" || foot[0] == '\n')
    ensures var w := head + text + foot; var raw := if foot == "" then text else StripCr(text);
            forall d :: DirectiveOn(raw, line + Newlines(head), line + Newlines(w) + 1) == Some(d) ==>
              d in DirectivesIn(CommentText(line, w))
  {
    hide DirectiveOn, Lines, Newlines, StripCr;
    var w, after := head + text + foot, line + Newlines(head + text + foot) + 1;
    assert head + text + foot == head + (text + foot);
    LinesAfter(head, text + foot);
    LineStands(text, foot);
    var tail := Lines(text + foot);
    DirectivesAfter(Lines(head), tail, line, after);
    var at := line + Newlines(head);
    assert DirectivesOn(tail, at, after) ==
           ToSeq(DirectiveOn(tail[0], at, after)) + DirectivesOn(tail[1..], at + 1, after);
  }

  /** A carriage return before the end of the line is one more blank. */
  lemma RestWithoutCr(lead: string, kw: string, rest: string, args: string) returns (rest': string)
    requires IsRest(rest, args) && kw != "" && kw[|kw| - 1] != '\r'
    ensures IsRest(rest', args) && StripCr(lead + kw + rest) == lead + kw + rest'
  {
    hide IsRest;
    var text := lead + kw + rest;
    if rest == "" {
      assert text[|text| - 1] == kw[|kw| - 1];
      rest' := rest;
    } else {
      assert text[|text| - 1] == rest[|rest| - 1] && text[|text| - 1..] == [rest[|rest| - 1]];
      if rest[|rest| - 1] == '\r' {
        rest' := rest[..|rest| - 1];
        RestShortened(rest, args);
        assert text[..|text| - 1] == lead + kw + rest';
      } else {
        rest' := rest;
      }
    }
  }

  lemma RestShortened(rest: string, args: string)
    requires IsRest(rest, args) && rest != "" && rest[|rest| - 1] == '\r'
    ensures IsRest(rest[..|rest| - 1], args)
  {
    hide IsArgs, Consists;
    var colons: string, blanks: string, pad: string, close: string :|
      Consists(rest, args, colons, blanks, pad, close);
    if args != "" {
      PadShortened(rest, args, colons, blanks, pad, close);
    } else {
      BlanksShortened(rest, args, colons, blanks, pad, close);
    }
  }

  lemma LastOf(a: string, b: string)
    ensures b != "" ==> (a + b)[|a + b| - 1] == b[|b| - 1]
  {
  }

  lemma PadShortened(rest: string, args: string, colons: string, blanks: string, pad: string, close: string)
    requires Consists(rest, args, colons, blanks, pad, close) && args != "" && rest[|rest| - 1] == '\r'
    ensures pad != "" && Consists(rest[..|rest| - 1], args, colons, blanks, pad[..|pad| - 1], close)
  {
    hide AllColons;
    ArgsEnds(args, pad);
    LastOf(colons + (blanks + (args + pad)), close);
    LastOf(colons + blanks, args);
    hide IsArgs;
    assert rest == colons + (blanks + (args + pad)) + close;
    assert pad == "" && close == "" ==> rest == colons + blanks + args;
    assert rest[..|rest| - 1] == colons + (blanks + (args + (pad[..|pad| - 1] + close)));
  }

  lemma BlanksShortened(rest: string, args: string, colons: string, blanks: string, pad: string, close: string)
    requires Consists(rest, args, colons, blanks, pad, close) && args == "" && rest != "" && rest[|rest| - 1] == '\r'
    ensures blanks != "" && Consists(rest[..|rest| - 1], args, colons, blanks[..|blanks| - 1], pad, close)
  {
    LastOf(colons + blanks, close);
    LastOf("", colons);
    assert rest == colons + blanks + close;
    assert blanks == "" && close == "" ==> rest == "" + colons;
    assert rest[..|rest| - 1] == colons + (blanks[..|blanks| - 1] + (args + (pad + close)));
  }

  lemma SpelledEnd(kw: string, f: Form)
    requires Spells(kw, f)
    ensures kw != "" && '\n' !in kw && kw[|kw| - 1] != '\r'
  {
    hide Keyword, Spells;
    SpelledKeyword(kw, f);
    KeywordLetters(f);
    KeywordEnd(f);
    forall k | 0 <= k < |kw|
      ensures kw[k] != '\n'
    {
      assert Keyword(f)[k] == LowerChar(kw[k]) && Keyword(f)[k] in Keyword(f);
    }
    assert Keyword(f)[|kw| - 1] == LowerChar(kw[|kw| - 1]);
  }

  lemma KeywordEnd(f: Form)
    ensures Keyword(f) != "" && Keyword(f)[|Keyword(f)| - 1] == 'e'
  {
  }

  // ---- in a file ------------------------------------------------------------------------------------

  /** The line as it stands in the comment, with or without its carriage return. */
  lemma RawRead(lead: string, kw: string, f: Form, rest: string, args: string, foot: string, line: nat, after: nat)
    requires IsLead(lead) && Spells(kw, f) && IsRest(rest, args)
    ensures var text := lead + kw + rest; var raw := if foot == "" then text else StripCr(text);
            && text != "" && '\n' !in text
            && DirectiveOn(raw, line, after) ==
               Some(Directive(Aim(f, line, after), args))
  {
    hide DirectiveOn, IsLead, IsRest, Spells, StripCr;
    SpelledEnd(kw, f);
    LeadHasNoNewline(lead);
    ListedLineRead(lead, kw, f, rest, args, line, after);
    if foot != "" {
      var rest' := RestWithoutCr(lead, kw, rest, args);
      ListedLineRead(lead, kw, f, rest', args, line, after);
    }
  }

  /** A directive on any line of any comment the scan comes upon: `head` are the lines of
      the comment before it, `foot` what follows the line. The same-line form concerns
      the line it stands on, the next-line form the line after the one on which the
      comment ends, the file form every line; it names the rules listed. */
  lemma DirectiveIsRead(pre: string, head: string, lead: string, kw: string, f: Form, rest: string, args: string,
                        foot: string, post: string)
    requires IsLead(lead) && Spells(kw, f) && IsRest(rest, args)
    requires Closed(head) && (foot == "" || foot[0] == '\n')
    requires var w := head + (lead + kw + rest) + foot;
             Lex(w + post) == Lexeme(Comment, |w|) && Reaches(pre + w + post, 0, |pre|)
    ensures var w := head + (lead + kw + rest) + foot; var src := pre + w + post;
            Directive(match f
                      case EntireFile => WholeFile
                      case NextLine => Line(LineAt(src, |pre| + |w|) + 1)
                      case SameLine => Line(LineAt(src, |pre| + |head|)),
                      args) in Directives(src)
  {
    hide Reaches, Directives, DirectivesIn, DirectiveOn, DirectivesOf, Lex, LineAt, IsLead, IsRest, Spells, StripCr,
      CommentsFrom, CommentTexts, TokensBetween, Newlines, Closed;
    var text := lead + kw + rest;
    var w := head + text + foot;
    var line := LineAt(pre + w + post, |pre|);
    RawRead(lead, kw, f, rest, args, foot, line + Newlines(head), line + Newlines(w) + 1);
    assert w == head + (text + foot);
    DirectivesAround(pre, w, post);
    LineInComment(line, head, text, foot);
    LinesAt(pre, head, text + foot, post);
  }

  lemma LeadHasNoNewline(lead: string)
    requires IsLead(lead)
    ensures '\n' !in lead
  {
  }

  /** Lines are counted through a comment. */
  lemma LinesAt(pre: string, head: string, tail: string, post: string)
    ensures var src := pre + (head + tail) + post;
            && LineAt(src, |pre| + |head|) == LineAt(src, |pre|) + Newlines(head)
            && LineAt(src, |pre| + |head + tail|) == LineAt(src, |pre|) + Newlines(head + tail)
  {
    hide LineAt, ColAt, Newlines;
    var src := pre + (head + tail) + post;
    Advance(src, |pre|, |pre| + |head|);
    Advance(src, |pre|, |pre| + |head + tail|);
    assert src[|pre|..|pre| + |head|] == head;
    assert src[|pre|..|pre| + |head + tail|] == head + tail;
  }

  /** So a directive without a list silences every rule, and one with a list those it
      names, on the lines said there. */
  lemma DirectiveSilences(pre: string, head: string, lead: string, kw: string, f: Form, rest: string, args: string,
                          foot: string, post: string, rule: string, line: Option<nat>)
    requires IsLead(lead) && Spells(kw, f) && IsRest(rest, args)
    requires Closed(head) && (foot == "" || foot[0] == '\n')
    requires var w := head + (lead + kw + rest) + foot; var src := pre + w + post;
             && Lex(w + post) == Lexeme(Comment, |w|) && Reaches(src, 0, |pre|)
             && (f == NextLine ==> line == Some(LineAt(src, |pre| + |w|) + 1))
             && (f == SameLine ==> line == Some(LineAt(src, |pre| + |head|)))
    requires args == "" || ArgsCover(args, rule)
    ensures Read(pre + (head + (lead + kw + rest) + foot) + post).Covers(rule, line)
  {
    hide Reaches, Directives, Lex, LineAt, IsLead, IsRest, Spells, SplitSpecs;
    var w := head + (lead + kw + rest) + foot;
    var src := pre + w + post;
    DirectiveIsRead(pre, head, lead, kw, f, rest, args, foot, post);
    CoversIffDirective(src, rule, line);
    NoListNamesAll(rule);
    var d := Directive(match f
                       case EntireFile => WholeFile
                       case NextLine => Line(LineAt(src, |pre| + |w|) + 1)
                       case SameLine => Line(LineAt(src, |pre| + |head|)), args);
    assert d in Directives(src) && Concerns(d, line) && ArgsCover(d.args, rule);
  }

  lemma NoListNamesAll(rule: string)
    ensures ArgsCover("", rule)
  {
    assert Split("", IsSpecSeparator) == [""];
    assert Trim("") == "";
    assert [""][1..] == [];
  }

  // ---- rule lists -------------------------------------------------------------------------------------

  lemma SplitStep(s: string, p: char -> bool)
    requires s != ""
    ensures var r := Split(s[1..], p);
            Split(s, p) == if p(s[0]) then [""] + r else [[s[0]] + r[0]] + r[1..]
  {
  }

  lemma {:induction false} SplitBoth(a: string, c: char, b: string, p: char -> bool)
    requires p(c)
    ensures Split(a + [c] + b, p) == Split(a, p) + Split(b, p)
    decreases |a|
  {
    hide Split;
    var s := a + [c] + b;
    SplitStep(s, p);
    if a == "" {
      assert s[1..] == b;
      NoPieces(p);
    } else {
      assert s[0] == a[0] && s[1..] == a[1..] + [c] + b;
      SplitStep(a, p);
      SplitBoth(a[1..], c, b, p);
      HeadAdded(if p(a[0]) then [""] else [], [a[0]], Split(a[1..], p), Split(b, p));
    }
  }

  lemma NoPieces(p: char -> bool)
    ensures Split("", p) == [""]
  {
  }

  lemma HeadAdded(one: seq<string>, h: string, x: seq<string>, y: seq<string>)
    requires x != []
    ensures one + (x + y) == one + x + y
    ensures [h + (x + y)[0]] + (x + y)[1..] == [h + x[0]] + x[1..] + y
  {
  }

  lemma {:induction false} TrimmedBoth(a: seq<string>, b: seq<string>)
    ensures TrimmedNonempty(a + b) == TrimmedNonempty(a) + TrimmedNonempty(b)
    decreases |a|
  {
    hide Trim;
    if a == [] {
      assert a + b == b;
    } else {
      assert (a + b)[1..] == a[1..] + b;
      TrimmedBoth(a[1..], b);
    }
  }

  /** A comma, a blank or a tab ends one spec and begins the next. */
  lemma ListsAdd(a: string, c: char, b: string)
    requires c == ',' || c == ' ' || c == '\t'
    ensures SplitSpecs(a + [c] + b) == SplitSpecs(a) + SplitSpecs(b)
  {
    hide Split, TrimmedNonempty;
    SplitBoth(a, c, b, IsSpecSeparator);
    TrimmedBoth(Split(a, IsSpecSeparator), Split(b, IsSpecSeparator));
  }

  lemma OnePiece(s: string)
    requires Trim(s) == s
    ensures TrimmedNonempty([s]) == if s == "" then [] else [s]
  {
    hide Trim;
    assert [s][1..] == [] && TrimmedNonempty([s][1..]) == [];
  }

  /** Any other printable text is one spec, as it stands. */
  lemma OneSpec(s: string)
    requires s != "" && forall k :: 0 <= k < |s| ==> '!' <= s[k] <= '~' && s[k] != ','
    ensures SplitSpecs(s) == [s]
  {
    hide Split, TrimmedNonempty, Trim;
    SplitNoSeparator(s, IsSpecSeparator);
    SpecsStand(s);
    OnePiece(s);
  }

  /** `*` and `all`, in any case, name every rule; so does no list. */
  lemma Wildcards(rule: string, all: string)
    requires Lower(all) == "all"
    ensures ArgsCover("*", rule) && ArgsCover(all, rule) && ArgsCover("", rule)
  {
    hide SplitSpecs, SpecMatches;
    assert Lower(all)[0] == 'a' && Lower(all)[1] == 'l' && Lower(all)[2] == 'l' && |all| == 3;
    assert forall k :: 0 <= k < |all| ==> Lower(all)[k] == LowerChar(all[k]);
    OneSpec("*");
    OneSpec(all);
    SpecsStand("*");
    SpecsStand(all);
    NoListNamesAll(rule);
    AllIsAll(all);
    MatchesEvery("*", rule);
    MatchesEvery(all, rule);
    assert "*" in SplitSpecs("*") && all in SplitSpecs(all);
  }

  lemma MatchesEvery(s: string, rule: string)
    requires s != "" && Trim(s) == s && IsWildcard(s)
    ensures SpecMatches(s, rule)
  {
    hide Trim;
  }

  lemma AllIsAll(all: string)
    requires Lower(all) == "all"
    ensures IsWildcard(all) && IsWildcard("*")
  {
    assert Lower("all") == "all";
  }

  lemma SpecsStand(s: string)
    requires s != "" && forall k :: 0 <= k < |s| ==> '!' <= s[k] <= '~' && s[k] != ','
    ensures Trim(s) == s
  {
    assert '!' <= s[0] <= '~' && '!' <= s[|s| - 1] <= '~';
    assert TrimStart(s) == s && TrimEnd(s) == s;
  }
}

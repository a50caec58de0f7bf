/**
 A suppression directive, written as a comment, is read: in each of its three
 forms and both comment styles, it silences what it names where it says.
 */
module SuppressWritten {
  import opened Wrappers
  import opened Strings
  import opened Tokens
  import opened TokenLaws
  import opened TokenLocality
  import opened Suppress
  import opened SuppressLaws

  datatype Form = EntireFile | NextLine | SameLine

  function Keyword(f: Form): string {
    match f
    case EntireFile => IGNORE_FILE
    case NextLine => IGNORE_NEXT_LINE
    case SameLine => IGNORE
  }

  function TargetOf(f: Form, line: nat): Target {
    match f
    case EntireFile => WholeFile
    case NextLine => Line(line + 1)
    case SameLine => Line(line)
  }

  function LineComment(f: Form, args: string): string { "-- " + Keyword(f) + " " + args }

  function BlockComment(f: Form, args: string): string { "/* " + Keyword(f) + " " + args + " */" }

  predicate IsArgByte(c: char) { ' ' <= c <= '~' && c != '/' }

  /** A rule list as one writes it, without blanks around it. */
  predicate IsArgs(args: string) {
    && args != ""
    && args[0] != ' ' && args[|args| - 1] != ' '
    && forall k :: 0 <= k < |args| ==> IsArgByte(args[k])
  }

  // ---- the arguments ------------------------------------------------------------------------

  lemma PaddedArgs(args: string, pad: string)
    requires IsArgs(args) && (pad == "" || pad == " ")
    ensures Trim(TrimColons(" " + args + pad)) == args
  {
    var s, t := " " + args + pad, args + pad;
    assert IsArgByte(args[0]) && IsArgByte(args[|args| - 1]);
    assert TrimColons(s) == s;
    assert WhiteHead(s) == 1 && s[1..] == t;
    assert WhiteHead(t) == 0;
    assert TrimStart(s) == TrimStart(t) == t;
    assert WhiteTail(args) == 0 && TrimEnd(args) == args;
    if pad == "" {
      assert t == args;
    } else {
      assert WhiteTail(t) == 1 && t[..|t| - 1] == args;
      assert TrimEnd(t) == TrimEnd(t[..|t| - 1]);
    }
  }

  lemma NoSlash(args: string)
    requires IsArgs(args)
    ensures '/' !in " " + args && '\n' !in args
  {
    forall k | 0 <= k < |args|
      ensures args[k] != '/' && args[k] != '\n'
    {
      assert IsArgByte(args[k]);
    }
  }

  lemma {:induction false} NoCloser(s: string)
    requires '/' !in s
    ensures Find(s, "*/") == None
  {
    if s != [] {
      assert forall c :: c in s[1..] ==> c in s;
      NoCloser(s[1..]);
      assert |s| >= 2 ==> s[1] in s;
    }
  }

  lemma CloserFound(s: string)
    requires '/' !in s
    ensures Find(s + "*/", "*/") == Some(|s|)
  {
    var t := s + "*/";
    assert t[|s|..] == "*/";
    forall k | 0 <= k < |s|
      ensures !("*/" <= t[k..])
    {
      SlashAt(s, k);
    }
    FindIsFirst(t, "*/", |s|);
  }

  lemma SlashAt(s: string, k: nat)
    requires k < |s| && '/' !in s
    ensures !("*/" <= (s + "*/")[k..])
  {
    var t := s + "*/";
    assert t[k..][1] == t[k + 1];
    if k + 1 < |s| {
      assert t[k + 1] == s[k + 1] && s[k + 1] in s;
    }
  }

  lemma ArgsRead(args: string)
    requires IsArgs(args)
    ensures StripCommentTail(" " + args) == args
    ensures StripCommentTail(" " + args + " */") == args
  {
    hide Trim, TrimColons, Find;
    NoSlash(args);
    NoCloser(" " + args);
    PaddedArgs(args, "");
    assert " " + args + "" == " " + args;
    var s := " " + args + " ";
    CloserFound(s);
    assert " " + args + " */" == s + "*/" && (s + "*/")[..|s|] == s;
    PaddedArgs(args, " ");
  }

  // ---- the directive -------------------------------------------------------------------------

  lemma KeywordIsLower(f: Form)
    ensures Lower(Keyword(f)) == Keyword(f)
  {
  }

  lemma KeywordStart(f: Form)
    ensures |Keyword(f)| >= |IGNORE| > 0 && Keyword(f)[..|IGNORE|] == IGNORE && IGNORE[0] == 'd'
  {
  }

  lemma KeywordLetters(f: Form)
    ensures '\n' !in Keyword(f) && '/' !in Keyword(f)
  {
  }

  lemma KeywordFound(head: string, f: Form, tail: string)
    requires head == "-- " || head == "/* "
    ensures Find(Lower(head + Keyword(f) + tail), IGNORE) == Some(3)
  {
    hide Find, Keyword, IGNORE;
    KeywordIsLower(f);
    KeywordStart(f);
    var s := Lower(head + Keyword(f) + tail);
    LowerConcat(head + Keyword(f), tail);
    LowerConcat(head, Keyword(f));
    assert Lower(head) == head && |head| == 3;
    assert s == head + Keyword(f) + Lower(tail);
    assert s[3..][..|IGNORE|] == IGNORE;
    forall k | 0 <= k < 3
      ensures !(IGNORE <= s[k..])
    {
      assert s[k..][0] == head[k] && head[k] != 'd';
    }
    FindIsFirst(s, IGNORE, 3);
  }

  lemma OwnKeyword(f: Form, tail: string)
    requires tail != "" && tail[0] == ' '
    ensures DirectiveArgs(Keyword(f) + tail, Keyword(f)) == Some(StripCommentTail(tail))
  {
    hide StripCommentTail, Keyword;
    assert (Keyword(f) + tail)[..|Keyword(f)|] == Keyword(f);
    assert (Keyword(f) + tail)[|Keyword(f)|..] == tail;
  }

  lemma DirectiveRead(head: string, f: Form, tail: string, line: nat)
    requires head == "-- " || head == "/* "
    requires tail != "" && tail[0] == ' '
    ensures DirectiveOn(head + Keyword(f) + tail, line, line + 1) ==
            Some(Directive(TargetOf(f, line), StripCommentTail(tail)))
  {
    hide DirectiveArgs, StripCommentTail, Find, Lower, IGNORE, IGNORE_FILE, IGNORE_NEXT_LINE;
    var raw, rest := head + Keyword(f) + tail, Keyword(f) + tail;
    KeywordFound(head, f, tail);
    assert raw[3..] == rest;
    OwnKeyword(f, tail);
    KeywordsExclusive(rest);
  }

  /** A comment on one line. */
  lemma OneLine(w: string, line: nat)
    requires w != "" && '\n' !in w
    ensures Lines(w) == [w]
    ensures DirectivesIn(CommentText(line, w)) == ToSeq(DirectiveOn(w, line, line + 1))
  {
    hide DirectiveOn;
    SpanIsLongest(w, NotNewline);
    assert forall k :: 0 <= k < |w| ==> w[k] in w;
    NoNewlines(w);
    assert [w][1..] == [];
    assert DirectivesOn([w], line, line + 1) ==
           ToSeq(DirectiveOn(w, line, line + 1)) + DirectivesOn([w][1..], line + 1, line + 1);
  }

  // ---- the comment ------------------------------------------------------------------------------

  lemma LineCommentLexeme(w: string, post: string)
    requires Dashes(w) && '\n' !in w && (post == "" || post[0] == '\n')
    ensures Lex(w + post) == Lexeme(Comment, |w|)
  {
    hide BlockTail, QuoteTail;
    var s := w + post;
    assert Dashes(s);
    SpanIsLongest(s, NotNewline);
    assert forall k :: 0 <= k < |w| ==> s[k] == w[k] && w[k] in w;
    assert post != "" ==> s[|w|] == post[0];
  }

  lemma {:induction false} BlockEnds(x: string, post: string)
    requires '/' !in x
    ensures BlockTail(x + "*/" + post, 1) == Some(|x| + 2)
  {
    hide BlockTail;
    var s := x + "*/" + post;
    BlockUnfold(s, 1);
    if x == [] {
      assert s[0] == '*' && s[1] == '/';
    } else {
      assert x[0] in x && forall c :: c in x[1..] ==> c in x;
      assert s[1..] == x[1..] + "*/" + post;
      if |x| > 1 {
        assert s[1] == x[1] && x[1] in x;
      }
      BlockEnds(x[1..], post);
    }
  }

  lemma BlockCommentIsLexeme(x: string, post: string)
    requires '/' !in x
    ensures Lex("/*" + x + "*/" + post) == Lexeme(Comment, |x| + 4)
  {
    hide BlockTail, Lex;
    var s := "/*" + x + "*/" + post;
    LexOpens(s);
    assert s[2..] == x + "*/" + post;
    BlockEnds(x, post);
  }

  // ---- in a file -----------------------------------------------------------------------------------

  lemma {:induction false} DirectivesConcat(a: seq<CommentText>, b: seq<CommentText>)
    ensures DirectivesOf(a + b) == DirectivesOf(a) + DirectivesOf(b)
  {
    hide DirectivesIn;
    if a == [] {
      assert a + b == b;
    } else {
      assert (a + b)[1..] == a[1..] + b;
      DirectivesConcat(a[1..], b);
    }
  }

  /** The directives of a file around a comment the scan comes upon: those of the
      comments before it, its own, and those of the comments after it. */
  lemma DirectivesAround(pre: string, w: string, post: string)
    requires w != "" && Lex(w + post) == Lexeme(Comment, |w|)
    requires Reaches(pre + w + post, 0, |pre|)
    ensures var src := pre + w + post;
            && (forall t :: t in TokensBetween(src, 0, |pre|) ==> t.start <= t.end <= |pre|)
            && Directives(src) ==
               DirectivesOf(CommentTexts(src, TokensBetween(src, 0, |pre|))) +
               (DirectivesIn(CommentText(LineAt(src, |pre|), w)) + DirectivesOf(CommentsFrom(src, |pre| + |w|)))
  {
    hide Lex, DirectivesIn, CommentsFrom, Comments, CommentTexts, TokensBetween, Reaches, LineAt;
    var src, i := pre + w + post, |pre|;
    Pieces(pre, w, post);
    CommentsBefore(src, i);
    CommentsStep(src, i);
    var a, b := CommentTexts(src, TokensBetween(src, 0, i)), CommentsFrom(src, i + |w|);
    var c := CommentText(LineAt(src, i), w);
    assert Comments(src) == a + ([c] + b);
    DirectivesConcat(a, [c] + b);
    assert ([c] + b)[1..] == b;
  }

  lemma LineIsRead(pre: string, f: Form, args: string, post: string)
    requires IsArgs(args) && (post == "" || post[0] == '\n')
    requires Reaches(pre + LineComment(f, args) + post, 0, |pre|)
    ensures Directive(TargetOf(f, LineAt(pre + LineComment(f, args) + post, |pre|)), args)
            in Directives(pre + LineComment(f, args) + post)
  {
    hide Reaches, Directives, DirectivesIn, DirectiveOn, StripCommentTail, Keyword, Lex, LineAt, IsArgs;
    var w, tail := LineComment(f, args), " " + args;
    var line := LineAt(pre + w + post, |pre|);
    KeywordLetters(f);
    NoSlash(args);
    ArgsRead(args);
    assert w == "-- " + Keyword(f) + tail;
    LineCommentLexeme(w, post);
    DirectiveRead("-- ", f, tail, line);
    OneLine(w, line);
    DirectivesAround(pre, w, post);
  }

  lemma BlockIsRead(pre: string, f: Form, args: string, post: string)
    requires IsArgs(args)
    requires Reaches(pre + BlockComment(f, args) + post, 0, |pre|)
    ensures Directive(TargetOf(f, LineAt(pre + BlockComment(f, args) + post, |pre|)), args)
            in Directives(pre + BlockComment(f, args) + post)
  {
    hide Reaches, Directives, DirectivesIn, DirectiveOn, StripCommentTail, Keyword, Lex, LineAt, IsArgs;
    var w, tail := BlockComment(f, args), " " + args + " */";
    var line := LineAt(pre + w + post, |pre|);
    KeywordLetters(f);
    NoSlash(args);
    ArgsRead(args);
    BlockText(f, args, post);
    BlockCommentIsLexeme(" " + Keyword(f) + " " + args + " ", post);
    assert w == "/* " + Keyword(f) + tail;
    DirectiveRead("/* ", f, tail, line);
    OneLine(w, line);
    DirectivesAround(pre, w, post);
  }

  lemma BlockText(f: Form, args: string, post: string)
    ensures var x := " " + Keyword(f) + " " + args + " ";
            BlockComment(f, args) + post == "/*" + x + "*/" + post && |BlockComment(f, args)| == |x| + 4
  {
    hide Keyword;
  }

  function Written(f: Form, args: string, block: bool): string {
    if block then BlockComment(f, args) else LineComment(f, args)
  }

  /** Wherever the scan can start a comment, a written directive is read, with
      the target its form says and exactly the rule list written. */
  lemma WrittenIsRead(pre: string, f: Form, args: string, post: string, block: bool)
    requires IsArgs(args) && (block || post == "" || post[0] == '\n')
    requires Reaches(pre + Written(f, args, block) + post, 0, |pre|)
    ensures Directive(TargetOf(f, LineAt(pre + Written(f, args, block) + post, |pre|)), args)
            in Directives(pre + Written(f, args, block) + post)
  {
    hide Reaches, Directives, LineAt, LineComment, BlockComment, IsArgs;
    if block {
      BlockIsRead(pre, f, args, post);
    } else {
      LineIsRead(pre, f, args, post);
    }
  }

  /** So it silences every rule it names where it says: in the whole file, on its
      own line, or on the line after it. */
  lemma WrittenSilences(pre: string, f: Form, args: string, post: string, block: bool, rule: string, line: Option<nat>)
    requires IsArgs(args) && (block || post == "" || post[0] == '\n') && ArgsCover(args, rule)
    requires Reaches(pre + Written(f, args, block) + post, 0, |pre|)
    requires f == EntireFile
             || (line.Some? && TargetOf(f, LineAt(pre + Written(f, args, block) + post, |pre|)) == Line(line.value))
    ensures Read(pre + Written(f, args, block) + post).Covers(rule, line)
  {
    hide Reaches, Directives, LineAt, Written, ArgsCover, IsArgs;
    var src := pre + Written(f, args, block) + post;
    var d := Directive(TargetOf(f, LineAt(src, |pre|)), args);
    WrittenIsRead(pre, f, args, post, block);
    CoversIffDirective(src, rule, line);
    assert d in Directives(src) && Concerns(d, line) && ArgsCover(d.args, rule);
  }

  // ---- keywords that run on ------------------------------------------------------------------------

  /** A keyword must be followed by white space, a colon or the end of the comment;
      a hyphen may make it another keyword. Text that begins otherwise runs on. */
  predicate RunsOn(tail: string) { tail != "" && WhiteHead(tail) == 0 && tail[0] != ':' && tail[0] != '-' }

  lemma RunOnKeyword(f: Form, tail: string)
    requires RunsOn(tail) && !Closes(tail)
    ensures DirectiveArgs(Keyword(f) + tail, Keyword(f)) == None
  {
    hide StripCommentTail, Keyword;
    assert (Keyword(f) + tail)[|Keyword(f)|..] == tail;
  }

  /** No keyword is read where one runs on. */
  lemma RunOnIsNone(f: Form, tail: string)
    requires RunsOn(tail) && !Closes(tail)
    ensures var rest := Keyword(f) + tail;
            && DirectiveArgs(rest, IGNORE_FILE) == None
            && DirectiveArgs(rest, IGNORE_NEXT_LINE) == None
            && DirectiveArgs(rest, IGNORE) == None
  {
    hide DirectiveArgs;
    var rest := Keyword(f) + tail;
    RunOnKeyword(f, tail);
    assert rest[|Keyword(f)|] == tail[0];
    KeywordChar(rest, IGNORE_FILE, 12);
    KeywordChar(rest, IGNORE_FILE, 13);
    KeywordChar(rest, IGNORE_NEXT_LINE, 12);
    KeywordChar(rest, IGNORE_NEXT_LINE, 13);
    NoHyphenAfter(rest, IGNORE);
  }

  lemma NothingRead(head: string, f: Form, tail: string, line: nat)
    requires head == "-- " || head == "/* "
    requires RunsOn(tail) && !Closes(tail)
    ensures DirectiveOn(head + Keyword(f) + tail, line, line + 1) == None
  {
    hide DirectiveArgs, Find, Lower, IGNORE, IGNORE_FILE, IGNORE_NEXT_LINE, RunsOn;
    KeywordFound(head, f, tail);
    assert (head + Keyword(f) + tail)[3..] == Keyword(f) + tail;
    RunOnIsNone(f, tail);
  }

  /** A one-line comment in which the keyword runs on. */
  function Misspelt(f: Form, tail: string, block: bool): string {
    if block then "/* " + Keyword(f) + (tail + "*/") else "-- " + Keyword(f) + tail
  }

  lemma MisspeltLexeme(f: Form, tail: string, post: string, block: bool)
    requires '/' !in tail && '\n' !in tail && (block || post == "" || post[0] == '\n')
    ensures var w := Misspelt(f, tail, block); w != "" && '\n' !in w && Lex(w + post) == Lexeme(Comment, |w|)
  {
    hide Keyword, Lex;
    KeywordLetters(f);
    if block {
      var x := " " + Keyword(f) + tail;
      assert Misspelt(f, tail, true) + post == "/*" + x + "*/" + post;
      BlockCommentIsLexeme(x, post);
    } else {
      LineCommentLexeme(Misspelt(f, tail, false), post);
    }
  }

  lemma MisspeltReadsNothing(f: Form, tail: string, block: bool, line: nat)
    requires RunsOn(tail) && '/' !in tail
    ensures DirectiveOn(Misspelt(f, tail, block), line, line + 1) == None
  {
    hide Keyword, DirectiveOn;
    var t := tail + "*/";
    assert t[0] == tail[0] && t[1] == (if |tail| > 1 then tail[1] else '*');
    assert |tail| > 1 ==> tail[1] in tail;
    NothingRead(if block then "/* " else "-- ", f, if block then t else tail, line);
  }

  /** Misspelt directives fail closed: wherever the scan can start a comment, one
      whose keyword runs on adds nothing to the directives of the file, which are
      those of the comments before it and of the comments after it. */
  lemma MisspeltIsIgnored(pre: string, f: Form, tail: string, post: string, block: bool)
    requires RunsOn(tail) && '/' !in tail && '\n' !in tail && (block || post == "" || post[0] == '\n')
    requires Reaches(pre + Misspelt(f, tail, block) + post, 0, |pre|)
    ensures var w := Misspelt(f, tail, block); var src := pre + w + post;
            && (forall t :: t in TokensBetween(src, 0, |pre|) ==> t.start <= t.end <= |pre|)
            && Directives(src) ==
               DirectivesOf(CommentTexts(src, TokensBetween(src, 0, |pre|))) +
               DirectivesOf(CommentsFrom(src, |pre| + |w|))
  {
    hide Lex, Directives, DirectivesIn, DirectivesOf, DirectiveOn, CommentsFrom, CommentTexts, TokensBetween, Reaches,
      Misspelt, LineAt;
    var w := Misspelt(f, tail, block);
    var line := LineAt(pre + w + post, |pre|);
    MisspeltLexeme(f, tail, post, block);
    DirectivesAround(pre, w, post);
    OneLine(w, line);
    MisspeltReadsNothing(f, tail, block, line);
    var b := DirectivesOf(CommentsFrom(pre + w + post, |pre| + |w|));
    assert [] + b == b;
  }
}

/**
 The CREATE INDEX statements the advisor and the plan lint print, and the reader
 that takes name, table and key out of such text again.
 */
module CreateIndexText {
  import opened Wrappers
  import opened Strings
  import opened Identifiers
  import opened Consolidate
  import opened Advise
  import PlanXml

  // ---- reading -----------------------------------------------------------------------

  datatype ParsedCreateIndex = ParsedCreateIndex(name: string, table: string, leadingKey: string, keys: seq<string>)

  const HEADER := "CREATE NONCLUSTERED INDEX"

  predicate IsComma(c: char) { c == ',' }

  /** The identifiers of a key list; blank ones do not count. */
  function KeysIn(pieces: seq<string>): seq<string> {
    if pieces == [] then []
    else
      var k := Unbr(Trim(pieces[0]));
      (if k == "" then [] else [k]) + KeysIn(pieces[1..])
  }

  function TableIn(text: string): string {
    var pieces := Split(Trim(text), IsDot);
    Unbr(pieces[|pieces| - 1])
  }

  /** After the header: `name ON table (keys) …`. */
  function ParseTail(rest: string): Option<ParsedCreateIndex> {
    match Find(Upper(rest), " ON ")
    case None => None
    case Some(n) =>
      var name := Unbr(Trim(rest[..n]));
      var afterOn := DropWhile(rest[n + 4..], IsWhite);
      match Find(afterOn, "(")
      case None => None
      case Some(paren) =>
        var table, inside := TableIn(afterOn[..paren]), afterOn[paren + 1..];
        match Find(inside, ")")
        case None => None
        case Some(close) =>
          var keys := KeysIn(Split(inside[..close], IsComma));
          if keys == [] || name == "" || table == "" then None
          else Some(ParsedCreateIndex(name, table, keys[0], keys))
  }

  function ParseCreateIndex(text: string): Option<ParsedCreateIndex> {
    match Find(Upper(text), HEADER)
    case None => None
    case Some(start) => ParseTail(text[start + |HEADER|..])
  }

  lemma {:induction false} KeysInAreNamed(pieces: seq<string>)
    ensures "" !in KeysIn(pieces)
  {
    hide Unbr, Trim;
    if pieces != [] {
      KeysInAreNamed(pieces[1..]);
    }
  }

  /** Whatever text is given, what is read has a name, a table and keys, none of them
      empty, and the first key leads. */
  lemma ParsedIsComplete(text: string)
    ensures var r := ParseCreateIndex(text);
            r.Some? ==>
              && r.value.name != "" && r.value.table != "" && r.value.keys != [] && "" !in r.value.keys
              && r.value.leadingKey == r.value.keys[0]
  {
    hide Unbr, Trim, TableIn, Split, Find, HEADER, DropWhile, KeysIn;
    var r := ParseCreateIndex(text);
    if r.Some? {
      var rest := text[Find(Upper(text), HEADER).value + |HEADER|..];
      var afterOn := DropWhile(rest[Find(Upper(rest), " ON ").value + 4..], IsWhite);
      var inside := afterOn[Find(afterOn, "(").value + 1..];
      KeysInAreNamed(Split(inside[..Find(inside, ")").value], IsComma));
    }
  }

  // ---- printing ----------------------------------------------------------------------

  function Br(s: string): string { "[" + Unbr(s) + "]" }

  function Brs(cols: seq<string>): seq<string> {
    seq(|cols|, k requires 0 <= k < |cols| => Br(cols[k]))
  }

  function IndexDdl(name: string, on: string, keys: string, end: string): string {
    HEADER + " [" + name + "]\n  ON " + on + " (" + keys + ")" + end
  }

  const EXISTS_WORDS := ["already", "exists", "on", "("]

  const REBUILDS_WORDS := [
    ");", "this", "rebuilds", "it", "in", "place", "with", "the", "extra", "INCLUDE", "columns."]

  /** What the advisor prints above a statement that widens an index. */
  function WideningNote(ix: IndexMeta): string {
    "-- " + ix.name + " " + Join(EXISTS_WORDS, " ") + Join(ix.keys, ", ") + Join(REBUILDS_WORDS, " ") + "\n"
  }

  /** The advisor's text for one recommendation. */
  function AdvisorDdl(r: CreateIndex): string {
    var inc := if r.included == [] then "" else "\n  INCLUDE (" + Join(Brs(r.included), ", ") + ")";
    var table, keys := Br(r.schema) + "." + Br(r.table), Join(Brs(r.keys), ", ");
    match r.widens
    case Some(ix) => WideningNote(ix) + IndexDdl(r.name, table, keys, inc + "\n  WITH (DROP_EXISTING = ON);")
    case None => IndexDdl(r.name, table, keys, inc + ";")
  }

  /** The plan lint's quoting: an empty identifier stays empty. */
  function Bracketed(s: string): string {
    var inner := PlanXml.Unbracket(s);
    if inner == "" then "" else "[" + inner + "]"
  }

  function AllBracketed(cols: seq<string>): seq<string> {
    seq(|cols|, k requires 0 <= k < |cols| => Bracketed(cols[k]))
  }

  function AllUnbracketed(cols: seq<string>): seq<string> {
    seq(|cols|, k requires 0 <= k < |cols| => PlanXml.Unbracket(cols[k]))
  }

  function Sanitized(u: Unicode, s: string): string {
    var name := PlanXml.Unbracket(s);
    seq(|name|, k requires 0 <= k < |name| => if u.alphanumeric(name[k]) || name[k] == '_' then name[k] else '_')
  }

  function LintTable(mi: PlanXml.MissingIndexInfo): string { if mi.table == "" then "<table>" else mi.table }

  function LintName(u: Unicode, mi: PlanXml.MissingIndexInfo): string {
    var columns := Sanitized(u, Join(AllUnbracketed(mi.equality + mi.inequality), "_"));
    "IX_" + Sanitized(u, LintTable(mi)) + if columns == "" then "" else "_" + columns
  }

  /** The prose above the plan lint's statement, word by word. */
  const CREATE_WORDS := ["Create", "the", "index", "the", "optimizer", "asked", "for,"]
  const CHECK_WORDS := ["then", "re-check", "the", "plan", "(verify", "it", "is", "actually", "picked"]
  const COST_WORDS := ["and", "the", "write", "cost", "is", "acceptable", "before", "shipping):"]

  const LINT_NOTE := Join(CREATE_WORDS, " ") + " " + Join(CHECK_WORDS, " ") + " " + Join(COST_WORDS, " ") + "\n"

  /** The plan lint's recommendation; without key columns it prints no statement. */
  function LintText(u: Unicode, mi: PlanXml.MissingIndexInfo): Option<string> {
    var schema := if mi.schema == "" then "dbo" else mi.schema;
    var keys := AllBracketed(mi.equality + mi.inequality);
    var inc := if mi.included == [] then ""
                   else "\n  INCLUDE (" + Join(AllBracketed(mi.included), ", ") + ")";
    if keys == [] then None
    else Some(LINT_NOTE + IndexDdl(LintName(u, mi), "[" + schema + "].[" + LintTable(mi) + "]",
                                    Join(keys, ", "), inc + ";"))
  }

  // ---- clean identifiers ------------------------------------------------------------

  predicate IsSpecial(c: char) {
    IsWhite(c) || IsBracket(c) || c == '(' || c == ')' || c == ',' || c == '.'
  }

  /** Free of white space, brackets, parentheses, commas and dots. */
  predicate Clean(s: string) {
    s != "" && forall k :: 0 <= k < |s| ==> !IsSpecial(s[k])
  }

  /** A quoted clean identifier, whatever white space stands around it. */
  lemma QuotedRead(a: string, s: string, b: string)
    requires Clean(s) && (forall c :: c in a ==> IsWhite(c)) && (forall c :: c in b ==> IsWhite(c))
    ensures Trim(a + "[" + s + "]" + b) == "[" + s + "]"
    ensures Unbr(a + "[" + s + "]" + b) == s
  {
    hide TrimBoth;
    var q := "[" + s + "]";
    assert a + "[" + s + "]" + b == a + q + b;
    TrimBothOfPadded(a, q, b, IsWhite);
    assert !IsSpecial(s[0]) && !IsSpecial(s[|s| - 1]);
    assert q == "[" + s + "]";
    TrimBothOfPadded("[", s, "]", IsBracket);
  }

  // ---- reading back -------------------------------------------------------------------

  predicate AllClean(cols: seq<string>) { forall k :: 0 <= k < |cols| ==> Clean(cols[k]) }

  function Quoted(cols: seq<string>): seq<string> {
    seq(|cols|, k requires 0 <= k < |cols| => "[" + cols[k] + "]")
  }

  function KeyList(keys: seq<string>): string { Join(Quoted(keys), ", ") }

  lemma KeyListStep(keys: seq<string>)
    requires |keys| > 1
    ensures KeyList(keys) == "[" + keys[0] + "]" + ", " + KeyList(keys[1..])
  {
    assert Quoted(keys)[1..] == Quoted(keys[1..]);
  }

  /** A printed key list is read back, in order. */
  lemma {:induction false} KeysRead(lead: string, keys: seq<string>)
    requires keys != [] && AllClean(keys) && (forall c :: c in lead ==> c == ' ')
    ensures KeysIn(Split(lead + KeyList(keys), IsComma)) == keys
    decreases |keys|
  {
    hide KeyList, Unbr, Trim, Split, IsWhite;
    var a := lead + "[" + keys[0] + "]";
    assert Clean(keys[0]);
    SpacesAreWhite(lead);
    QuotedRead(lead, keys[0], "");
    assert a == lead + "[" + keys[0] + "]" + "";
    UnbrTrim(a, keys[0]);
    NoComma(lead, keys[0]);
    if |keys| == 1 {
      OneKey(keys);
      assert lead + KeyList(keys) == a;
      SplitNoSeparator(a, IsComma);
      OneIdentifier(a, keys[0]);
    } else {
      var b := " " + KeyList(keys[1..]);
      KeyListStep(keys);
      assert lead + KeyList(keys) == a + [','] + b;
      SplitAtSeparator(a, ',', b, IsComma);
      KeysRead(" ", keys[1..]);
      FirstIdentifier(a, keys[0], Split(b, IsComma));
      assert keys == [keys[0]] + keys[1..];
    }
  }

  lemma SpacesAreWhite(lead: string)
    requires forall c :: c in lead ==> c == ' '
    ensures forall c :: c in lead ==> IsWhite(c)
  {
  }

  lemma UnbrTrim(a: string, s: string)
    requires Clean(s) && Trim(a) == "[" + s + "]"
    ensures Unbr(Trim(a)) == s
  {
    hide TrimBoth;
    QuotedRead("", s, "");
    assert "" + "[" + s + "]" + "" == "[" + s + "]";
  }

  lemma NoComma(lead: string, s: string)
    requires Clean(s) && forall c :: c in lead ==> c == ' '
    ensures var a := lead + "[" + s + "]"; forall k :: 0 <= k < |a| ==> !IsComma(a[k])
  {
    hide IsWhite;
    var a := lead + "[" + s + "]";
    forall k | 0 <= k < |a|
      ensures !IsComma(a[k])
    {
      if k < |lead| {
        assert a[k] == lead[k] && lead[k] in lead;
      } else if |lead| < k < |a| - 1 {
        assert a[k] == s[k - |lead| - 1];
        assert !IsSpecial(s[k - |lead| - 1]);
      }
    }
  }

  lemma OneKey(keys: seq<string>)
    requires |keys| == 1
    ensures KeyList(keys) == "[" + keys[0] + "]"
  {
  }

  lemma OneIdentifier(a: string, k: string)
    requires Unbr(Trim(a)) == k && k != ""
    ensures KeysIn([a]) == [k]
  {
    hide Unbr, Trim;
    assert [a][1..] == [];
  }

  lemma FirstIdentifier(a: string, k: string, more: seq<string>)
    requires Unbr(Trim(a)) == k && k != ""
    ensures KeysIn([a] + more) == [k] + KeysIn(more)
  {
    hide Unbr, Trim;
    assert ([a] + more)[1..] == more;
  }

  lemma {:induction false} KeyListPlain(keys: seq<string>)
    requires AllClean(keys)
    ensures ')' !in KeyList(keys)
    decreases |keys|
  {
    hide IsWhite;
    if |keys| == 1 {
      OneKey(keys);
      assert Clean(keys[0]);
    } else if |keys| > 1 {
      KeyListStep(keys);
      assert Clean(keys[0]);
      KeyListPlain(keys[1..]);
    }
  }

  /** The table is what follows the last dot, whatever the schema holds. */
  lemma TableRead(schema: string, table: string)
    requires Clean(table)
    ensures TableIn("[" + schema + "].[" + table + "] ") == table
  {
    hide TrimBoth, Split, IsWhite;
    var t, q := "[" + schema + "].[" + table + "]", "[" + table + "]";
    assert "" + t + " " == "[" + schema + "].[" + table + "] ";
    WhiteSpace();
    TrimBothOfPadded("", t, " ", IsWhite);
    assert t == ("[" + schema + "]") + ['.'] + q;
    LastPiece("[" + schema + "]", '.', q, IsDot);
    QuotedRead("", table, "");
    assert "" + "[" + table + "]" + "" == q;
  }

  lemma WhiteSpace()
    ensures IsWhite(' ') && IsWhite('\n') && !IsWhite('[') && !IsWhite(']')
  {
  }

  lemma OnFound(name: string, more: string)
    requires Clean(name)
    ensures Find(Upper(" [" + name + "]\n  ON " + more), " ON ") == Some(|name| + 5)
  {
    hide Find;
    var rest := " [" + name + "]\n  ON " + more;
    var up := Upper(rest);
    var n := |name| + 5;
    assert rest[n] == ' ' && rest[n + 1] == 'O' && rest[n + 2] == 'N' && rest[n + 3] == ' ';
    assert up[n..][..4] == " ON ";
    forall k | 0 <= k < n
      ensures !(" ON " <= up[k..])
    {
      NoOnAt(name, more, k);
      assert up[k..][0] == up[k] && up[k..][1] == up[k + 1];
    }
    FindIsFirst(up, " ON ", n);
  }

  /** Before ON no blank is followed by a letter. */
  lemma NoOnAt(name: string, more: string, k: nat)
    requires Clean(name) && k < |name| + 5
    ensures var rest := " [" + name + "]\n  ON " + more;
            rest[k] == ' ' ==> rest[k + 1] == '[' || rest[k + 1] == ' '
  {
    if 2 <= k < |name| + 2 {
      assert (" [" + name + "]\n  ON " + more)[k] == name[k - 2];
      assert !IsSpecial(name[k - 2]);
    }
  }

  /** Everything after the header is read back. */
  lemma TailRead(name: string, schema: string, table: string, keys: seq<string>, end: string)
    requires Clean(name) && '(' !in schema && Clean(table) && keys != [] && AllClean(keys)
    ensures ParseTail(" [" + name + "]\n  ON [" + schema + "].[" + table + "] (" + KeyList(keys) + ")" + end) ==
            Some(ParsedCreateIndex(name, table, keys[0], keys))
  {
    hide KeyList, Find, Upper, Unbr, TableIn, KeysIn, Split, IsWhite, IsSpecial, DropWhile, Trim;
    var on := "[" + schema + "].[" + table + "] ";
    var more := on + "(" + KeyList(keys) + ")" + end;
    var rest := " [" + name + "]\n  ON [" + schema + "].[" + table + "] (" + KeyList(keys) + ")" + end;
    assert rest == " [" + name + "]\n  ON " + more;
    OnFound(name, more);
    var n := |name| + 5;
    assert rest[..n] == " " + "[" + name + "]" + "\n ";
    assert rest[n + 4..] == more;
    NameRead(name);
    StartsAtOnce(more);
    NoParen(schema, table);
    FindByte(on, '(', KeyList(keys) + ")" + end);
    assert on + ['('] + (KeyList(keys) + ")" + end) == more;
    assert more[..|on|] == on && more[|on| + 1..] == KeyList(keys) + [')'] + end;
    TableRead(schema, table);
    KeyListPlain(keys);
    FindByte(KeyList(keys), ')', end);
    assert (KeyList(keys) + [')'] + end)[..|KeyList(keys)|] == KeyList(keys);
    assert "" + KeyList(keys) == KeyList(keys);
    KeysRead("", keys);
    assert name != "" && table != "";
  }

  lemma NameRead(name: string)
    requires Clean(name)
    ensures Unbr(Trim(" " + "[" + name + "]" + "\n ")) == name
  {
    hide Trim, Unbr;
    WhiteSpace();
    QuotedRead(" ", name, "\n ");
    UnbrTrim(" " + "[" + name + "]" + "\n ", name);
  }

  lemma StartsAtOnce(more: string)
    requires more != "" && more[0] == '['
    ensures DropWhile(more, IsWhite) == more
  {
  }

  lemma NoParen(schema: string, table: string)
    requires '(' !in schema && Clean(table)
    ensures '(' !in "[" + schema + "].[" + table + "] "
  {
    hide IsWhite;
    forall k | 0 <= k < |table|
      ensures table[k] != '('
    {
      assert !IsSpecial(table[k]);
    }
  }

  /** Text before the statement does not hide it if it ends its line and does
      not itself mention the header. */
  predicate Introduces(intro: string) {
    Find(Upper(intro), HEADER) == None && (intro == "" || intro[|intro| - 1] == '\n')
  }

  lemma HeaderLetters()
    ensures Upper(HEADER) == HEADER && '\n' !in HEADER
  {
  }

  lemma HeaderFound(intro: string, more: string)
    requires Introduces(intro)
    ensures Find(Upper(intro + HEADER + more), HEADER) == Some(|intro|)
  {
    hide Find, HEADER, Upper;
    HeaderLetters();
    var before, up := Upper(intro), Upper(intro + HEADER + more);
    UpperConcat(intro + HEADER, more);
    UpperConcat(intro, HEADER);
    UpperLines(intro);
    assert up == before + HEADER + Upper(more);
    assert up[|intro|..] == HEADER + Upper(more);
    forall k | 0 <= k < |intro|
      ensures !(HEADER <= up[k..])
    {
      FindMisses(before, HEADER, k);
      if k + |HEADER| <= |intro| {
        assert up[k..][..|HEADER|] == before[k..][..|HEADER|];
      } else {
        assert up[k..][|intro| - 1 - k] == before[|intro| - 1] == '\n';
        assert up[k..][..|HEADER|][|intro| - 1 - k] == '\n';
      }
    }
    FindIsFirst(up, HEADER, |intro|);
  }

  lemma UpperLines(s: string)
    ensures |Upper(s)| == |s| && (s != "" && s[|s| - 1] == '\n' ==> Upper(s)[|s| - 1] == '\n')
  {
  }

  /** A statement on clean identifiers is read back exactly, after any
      introduction and before any ending. */
  lemma StatementReadsBack(intro: string, name: string, schema: string, table: string, keys: seq<string>, end: string)
    requires Introduces(intro)
    requires Clean(name) && '(' !in schema && Clean(table) && keys != [] && AllClean(keys)
    ensures ParseCreateIndex(intro + IndexDdl(name, "[" + schema + "].[" + table + "]", KeyList(keys), end)) ==
            Some(ParsedCreateIndex(name, table, keys[0], keys))
  {
    hide ParseTail, KeyList, Find, Upper, Clean, Introduces;
    var more := " [" + name + "]\n  ON [" + schema + "].[" + table + "] (" + KeyList(keys) + ")" + end;
    var text := intro + IndexDdl(name, "[" + schema + "].[" + table + "]", KeyList(keys), end);
    assert text == intro + HEADER + more;
    HeaderFound(intro, more);
    assert text[|intro| + |HEADER|..] == more;
    TailRead(name, schema, table, keys, end);
  }

  // ---- introductions that do not mention the header ---------------------------------------

  predicate IsE(c: char) { c == 'e' || c == 'E' }

  predicate IsN(c: char) { c == 'n' || c == 'N' }

  /** No word ending in e is followed, after one blank, by a word starting with n. */
  predicate Unspaced(s: string) {
    forall k :: 0 < k < |s| - 1 && s[k] == ' ' ==> !(IsE(s[k - 1]) && IsN(s[k + 1]))
  }

  lemma {:induction false} FindHits(s: string, pat: string)
    requires Find(s, pat).Some?
    ensures pat <= s[Find(s, pat).value..]
  {
    if !(pat <= s) {
      FindHits(s[1..], pat);
      assert s[1..][Find(s[1..], pat).value..] == s[Find(s, pat).value..];
    } else {
      assert s[0..] == s;
    }
  }

  lemma UnspacedHasNoHeader(s: string)
    requires Unspaced(s)
    ensures Find(Upper(s), HEADER) == None
  {
    hide Find, HEADER, Unspaced;
    HeaderBlank();
    var up := Upper(s);
    if Find(up, HEADER).Some? {
      var n := Find(up, HEADER).value;
      FindHits(up, HEADER);
      BlankInHeader(s, n);
    }
  }

  lemma BlankInHeader(s: string, n: nat)
    requires n + |HEADER| <= |s| && HEADER <= Upper(s)[n..]
    ensures !Unspaced(s)
  {
    hide HEADER;
    HeaderBlank();
    var up := Upper(s);
    assert up[n..][5] == up[n + 5] && up[n..][6] == up[n + 6] && up[n..][7] == up[n + 7];
    assert IsE(s[n + 5]) && s[n + 6] == ' ' && IsN(s[n + 7]);
  }

  lemma HeaderBlank()
    ensures |HEADER| > 7 && HEADER[5] == 'E' && HEADER[6] == ' ' && HEADER[7] == 'N'
  {
  }

  lemma UnspacedConcat(a: string, b: string)
    requires Unspaced(a) && Unspaced(b)
    requires a == "" || b == "" || (a[|a| - 1] != ' ' && (!IsE(a[|a| - 1]) || b[0] != ' ' || (|b| > 1 && !IsN(b[1]))))
    ensures Unspaced(a + b)
  {
    var s := a + b;
    forall k | 0 < k < |s| - 1 && s[k] == ' '
      ensures !(IsE(s[k - 1]) && IsN(s[k + 1]))
    {
      if k < |a| - 1 {
        assert a[k - 1] == s[k - 1] && a[k] == s[k] && a[k + 1] == s[k + 1];
      } else if k > |a| {
        var j := k - |a|;
        assert b[j - 1] == s[k - 1] && b[j] == s[k] && b[j + 1] == s[k + 1];
      }
    }
  }

  lemma CleanUnspaced(s: string)
    requires Clean(s)
    ensures s != "" && Unspaced(s) && Unspaced(" " + s) && s[0] != ' ' && s[|s| - 1] != ' '
  {
    assert !IsSpecial(s[0]) && !IsSpecial(s[|s| - 1]);
    forall k | 0 <= k < |s|
      ensures s[k] != ' '
    {
      assert !IsSpecial(s[k]);
    }
  }

  lemma {:induction false} KeysUnspaced(keys: seq<string>)
    requires keys != [] && AllClean(keys)
    ensures var s := Join(keys, ", "); s != "" && Unspaced(s) && Unspaced(" " + s) && s[0] != ' ' && s[|s| - 1] != ' '
    decreases |keys|
  {
    hide Unspaced, Clean;
    assert Clean(keys[0]);
    CleanUnspaced(keys[0]);
    if |keys| > 1 {
      var more := Join(keys[1..], ", ");
      KeysUnspaced(keys[1..]);
      Comma();
      UnspacedConcat(",", " " + more);
      UnspacedConcat(keys[0], "," + (" " + more));
      UnspacedConcat(" " + keys[0], "," + (" " + more));
      assert Join(keys, ", ") == keys[0] + ("," + (" " + more));
      assert " " + Join(keys, ", ") == (" " + keys[0]) + ("," + (" " + more));
    }
  }

  lemma Comma()
    ensures Unspaced(",") && Unspaced("--") && Unspaced("\n")
  {
  }

  /** A word that may follow any other. */
  predicate PlainWord(w: string) { w != "" && ' ' !in w && !IsN(w[0]) }

  predicate PlainWords(words: seq<string>) { words != [] && forall w :: w in words ==> PlainWord(w) }

  lemma WordUnspaced(w: string)
    requires ' ' !in w
    ensures Unspaced(w) && Unspaced(" " + w)
  {
    assert forall k :: 0 < k < |" " + w| ==> (" " + w)[k] == w[k - 1];
  }

  lemma {:induction false} ProseUnspaced(words: seq<string>)
    requires PlainWords(words)
    ensures var s := Join(words, " ");
            s != "" && Unspaced(s) && Unspaced(" " + s) && !IsN(s[0]) && s[0] != ' ' && s[|s| - 1] != ' '
    decreases |words|
  {
    hide Unspaced, IsN;
    assert words[0] in words && PlainWord(words[0]);
    var w := words[0];
    WordUnspaced(w);
    assert w[0] in w && w[|w| - 1] in w;
    if |words| > 1 {
      assert forall x :: x in words[1..] ==> x in words;
      ProseUnspaced(words[1..]);
      var more := " " + Join(words[1..], " ");
      UnspacedConcat(w, more);
      UnspacedConcat(" " + w, more);
      assert Join(words, " ") == w + more && " " + Join(words, " ") == (" " + w) + more;
    }
  }

  lemma ExistsWordsArePlain()
    ensures PlainWords(EXISTS_WORDS)
  {
  }

  lemma RebuildsWordsArePlain()
    ensures PlainWords(REBUILDS_WORDS)
  {
  }

  lemma CreateWordsArePlain()
    ensures PlainWords(CREATE_WORDS)
  {
  }

  lemma CheckWordsArePlain()
    ensures PlainWords(CHECK_WORDS)
  {
  }

  lemma CostWordsArePlain()
    ensures PlainWords(COST_WORDS)
  {
  }

  lemma WideningNoteIntroduces(ix: IndexMeta)
    requires Clean(ix.name) && ix.keys != [] && AllClean(ix.keys)
    ensures Introduces(WideningNote(ix))
  {
    hide Unspaced, Clean, Find, EXISTS_WORDS, REBUILDS_WORDS, PlainWords, Join;
    var keys, exists_, rebuilds := Join(ix.keys, ", "), " " + Join(EXISTS_WORDS, " "), Join(REBUILDS_WORDS, " ");
    ExistsWordsArePlain();
    RebuildsWordsArePlain();
    ProseUnspaced(EXISTS_WORDS);
    ProseUnspaced(REBUILDS_WORDS);
    Comma();
    CleanUnspaced(ix.name);
    KeysUnspaced(ix.keys);
    var a := "--" + (" " + ix.name);
    UnspacedConcat("--", " " + ix.name);
    UnspacedConcat(a, exists_);
    UnspacedConcat(a + exists_, keys);
    UnspacedConcat(a + exists_ + keys, rebuilds);
    UnspacedConcat(a + exists_ + keys + rebuilds, "\n");
    assert WideningNote(ix) == a + exists_ + keys + rebuilds + "\n";
    UnspacedHasNoHeader(WideningNote(ix));
  }

  lemma LintNoteIntroduces()
    ensures Introduces(LINT_NOTE)
  {
    hide Find, Unspaced, CREATE_WORDS, CHECK_WORDS, COST_WORDS, PlainWords, Join;
    var create, check, cost := Join(CREATE_WORDS, " "), " " + Join(CHECK_WORDS, " "), " " + Join(COST_WORDS, " ");
    CreateWordsArePlain();
    CheckWordsArePlain();
    CostWordsArePlain();
    ProseUnspaced(CREATE_WORDS);
    ProseUnspaced(CHECK_WORDS);
    ProseUnspaced(COST_WORDS);
    Comma();
    UnspacedConcat(create, check);
    UnspacedConcat(create + check, cost);
    UnspacedConcat(create + check + cost, "\n");
    assert LINT_NOTE == create + check + cost + "\n";
    UnspacedHasNoHeader(LINT_NOTE);
  }

  // ---- generated names ---------------------------------------------------------------------

  /** Letters and digits are not white space or punctuation. */
  ghost predicate Plain(u: Unicode) {
    forall c {:trigger u.alphanumeric(c)} :: u.alphanumeric(c) ==> !IsSpecial(c)
  }

  predicate NoSpecial(s: string) { forall k :: 0 <= k < |s| ==> !IsSpecial(s[k]) }

  lemma NoSpecialConcat(a: string, b: string)
    requires NoSpecial(a) && NoSpecial(b)
    ensures NoSpecial(a + b)
  {
    hide IsSpecial;
  }

  lemma NamePieces()
    ensures NoSpecial("IX_") && NoSpecial("_") && NoSpecial("") && !IsSpecial('_')
  {
  }

  lemma {:induction false} KeptPlain(s: string, p: char -> bool)
    requires forall c :: p(c) ==> !IsSpecial(c)
    ensures NoSpecial(Keep(s, p))
  {
    hide IsSpecial;
    if s != [] {
      KeptPlain(s[1..], p);
      NoSpecialConcat(if p(s[0]) then [s[0]] else [], Keep(s[1..], p));
    }
  }

  lemma FragPlain(u: Unicode, s: string)
    requires Plain(u)
    ensures NoSpecial(IdFrag(u, s))
  {
    hide IsSpecial, Keep, NoSpecial;
    NamePieces();
    KeptPlain(Unbr(s), c => u.alphanumeric(c) || c == '_');
  }

  lemma {:induction false} JoinPlain(parts: seq<string>)
    requires forall k :: 0 <= k < |parts| ==> NoSpecial(parts[k])
    ensures NoSpecial(Join(parts, "_"))
    decreases |parts|
  {
    hide NoSpecial;
    NamePieces();
    if |parts| > 1 {
      JoinPlain(parts[1..]);
      NoSpecialConcat(parts[0], "_");
      NoSpecialConcat(parts[0] + "_", Join(parts[1..], "_"));
    }
  }

  lemma {:induction false} DecimalPlain(n: nat)
    ensures NoSpecial(Decimal(n))
  {
    hide NoSpecial;
    DigitPlain(n % 10);
    if n >= 10 {
      DecimalPlain(n / 10);
      NoSpecialConcat(Decimal(n / 10), [Digit(n % 10)]);
    }
  }

  lemma DigitPlain(d: nat)
    requires d < 10
    ensures NoSpecial([Digit(d)])
  {
    assert '0' <= Digit(d) <= '9';
  }

  lemma BasePlain(u: Unicode, m: MissingIndex)
    requires Plain(u)
    ensures NoSpecial(BaseName(u, m)) && BaseName(u, m) != ""
  {
    hide NoSpecial, IdFrag, Join;
    NamePieces();
    FragPlain(u, m.table);
    var cols := Frags(u, m.Key());
    forall k | 0 <= k < |cols|
      ensures NoSpecial(cols[k])
    {
      FragPlain(u, m.Key()[k]);
    }
    JoinPlain(cols);
    var a, b := "IX_" + IdFrag(u, m.table), Join(cols, "_");
    NoSpecialConcat("IX_", IdFrag(u, m.table));
    NoSpecialConcat(a, "_");
    NoSpecialConcat(a + "_", b);
    PrefixPlain(a + "_" + b, MAX_NAME);
  }

  lemma PrefixPlain(s: string, n: nat)
    requires NoSpecial(s)
    ensures |s| > n ==> NoSpecial(s[..n])
  {
    hide IsSpecial;
  }

  lemma NthPlain(base: string, n: nat)
    requires NoSpecial(base) && base != ""
    ensures Clean(NthName(base, n))
  {
    hide IsSpecial, Decimal;
    NamePieces();
    DecimalPlain(n);
    NoSpecialConcat(base, "_");
    NoSpecialConcat(base + "_", Decimal(n));
  }

  /** The names the advisor makes up are clean, whatever the identifiers. */
  lemma FreshNameIsClean(u: Unicode, taken: Names, t: string, m: MissingIndex)
    requires Plain(u)
    ensures Clean(FirstFree(taken, t, BaseName(u, m), 1))
  {
    hide NoSpecial, BaseName, FirstFree, Clean, NthName;
    BasePlain(u, m);
    var k := FirstFreeIsLeast(taken, t, BaseName(u, m), 1);
    NthPlain(BaseName(u, m), k);
  }

  // ---- the advisor's statements ----------------------------------------------------------------

  /** Every statement of the batch answers a suggestion that was not skipped. */
  lemma {:induction false} BatchFrom(u: Unicode, indexes: seq<IndexMeta>, rows: map<string, nat>, taken: Names,
                                     entries: seq<Entry>, r: CreateIndex)
    returns (m: MissingIndex, taken': Names)
    requires r in Batch(u, indexes, rows, taken, entries)
    ensures !IsSkipped(indexes, rows, m) && r == Statement(u, indexes, taken', m)
    decreases |entries|
  {
    hide IsSkipped, Statement, Batch;
    BatchEnd(u, indexes, rows, taken);
    BatchStep(u, indexes, rows, taken, entries);
    var first := Statement(u, indexes, taken, entries[0].m);
    if IsSkipped(indexes, rows, entries[0].m) {
      m, taken' := BatchFrom(u, indexes, rows, taken, entries[1..], r);
    } else if r == first {
      m, taken' := entries[0].m, taken;
    } else {
      m, taken' := BatchFrom(u, indexes, rows, taken + {NameOf(first)}, entries[1..], r);
    }
  }

  function Unbrs(cols: seq<string>): seq<string> {
    seq(|cols|, k requires 0 <= k < |cols| => Unbr(cols[k]))
  }

  lemma BrsQuoted(cols: seq<string>)
    ensures Join(Brs(cols), ", ") == KeyList(Unbrs(cols))
  {
    hide Unbr;
    assert Brs(cols) == Quoted(Unbrs(cols));
  }

  /** Every statement of the batch reads back: its name, its table, and its key
      columns in order, the first one leading. */
  lemma AdviceReadsBack(u: Unicode, missing: seq<MissingIndex>, indexes: seq<IndexMeta>, rows: map<string, nat>,
                        r: CreateIndex)
    requires Plain(u) && r in Advice(u, missing, indexes, rows)
    requires '(' !in Unbr(r.schema) && Clean(Unbr(r.table)) && AllClean(Unbrs(r.keys))
    requires r.widens.Some? ==> Clean(r.name) && r.widens.value.keys != [] && AllClean(r.widens.value.keys)
    ensures r.keys != []
    ensures ParseCreateIndex(AdvisorDdl(r)) ==
            Some(ParsedCreateIndex(r.name, Unbr(r.table), Unbr(r.keys[0]), Unbrs(r.keys)))
  {
    hide Clean, ParseCreateIndex, IndexDdl, KeyList, Introduces, WideningNote, Batch, Consolidated, Unbr, FirstFree,
         BaseName, ExistingSameKey, IsSmall, IsCovered, AdvisorDdl, Brs, Plain;
    var m, taken := BatchFrom(u, indexes, rows, CatalogNames(indexes), Consolidated(u.lower, missing), r);
    assert r.keys == m.Key() != [];
    if r.widens.Some? {
      assert r.widens.value.name == r.name;
      WideningReadsBack(r, r.widens.value);
    } else {
      FreshNameIsClean(u, taken, TableLc(m.schema, m.table), m);
      FreshReadsBack(r);
    }
  }

  lemma WideningReadsBack(r: CreateIndex, ix: IndexMeta)
    requires r.widens == Some(ix) && Clean(ix.name) && ix.keys != [] && AllClean(ix.keys)
    requires Clean(r.name) && '(' !in Unbr(r.schema) && Clean(Unbr(r.table)) && r.keys != [] && AllClean(Unbrs(r.keys))
    ensures ParseCreateIndex(AdvisorDdl(r)) ==
            Some(ParsedCreateIndex(r.name, Unbr(r.table), Unbr(r.keys[0]), Unbrs(r.keys)))
  {
    hide Clean, AllClean, ParseCreateIndex, IndexDdl, KeyList, Introduces, WideningNote, Unbr, Brs, Join;
    var inc := if r.included == [] then "" else "\n  INCLUDE (" + Join(Brs(r.included), ", ") + ")";
    WideningNoteIntroduces(ix);
    BrsQuoted(r.keys);
    OnTableText(r);
    StatementReadsBack(WideningNote(ix), r.name, Unbr(r.schema), Unbr(r.table), Unbrs(r.keys),
                       inc + "\n  WITH (DROP_EXISTING = ON);");
  }

  lemma FreshReadsBack(r: CreateIndex)
    requires r.widens == None
    requires Clean(r.name) && '(' !in Unbr(r.schema) && Clean(Unbr(r.table)) && r.keys != [] && AllClean(Unbrs(r.keys))
    ensures ParseCreateIndex(AdvisorDdl(r)) ==
            Some(ParsedCreateIndex(r.name, Unbr(r.table), Unbr(r.keys[0]), Unbrs(r.keys)))
  {
    hide Clean, AllClean, ParseCreateIndex, IndexDdl, KeyList, Introduces, Unbr, Brs, Join;
    var inc := if r.included == [] then "" else "\n  INCLUDE (" + Join(Brs(r.included), ", ") + ")";
    BrsQuoted(r.keys);
    OnTableText(r);
    NoIntroduction();
    StatementReadsBack("", r.name, Unbr(r.schema), Unbr(r.table), Unbrs(r.keys), inc + ";");
    var text := IndexDdl(r.name, Br(r.schema) + "." + Br(r.table), Join(Brs(r.keys), ", "), inc + ";");
    assert "" + text == text;
  }

  lemma OnTableText(r: CreateIndex)
    ensures Br(r.schema) + "." + Br(r.table) == "[" + Unbr(r.schema) + "].[" + Unbr(r.table) + "]"
  {
    hide Unbr;
  }

  lemma NoIntroduction()
    ensures Introduces("")
  {
    hide Find;
    UnspacedHasNoHeader("");
  }

  // ---- the plan lint's statements ------------------------------------------------------------------

  lemma SanitizedPlain(u: Unicode, s: string)
    requires Plain(u)
    ensures NoSpecial(Sanitized(u, s))
  {
    hide IsSpecial, PlanXml.Unbracket;
    NamePieces();
  }

  lemma LintNameIsClean(u: Unicode, mi: PlanXml.MissingIndexInfo)
    requires Plain(u)
    ensures Clean(LintName(u, mi))
  {
    hide IsSpecial, Sanitized, Plain;
    var table, columns := LintTable(mi), Join(AllUnbracketed(mi.equality + mi.inequality), "_");
    NamePieces();
    SanitizedPlain(u, table);
    SanitizedPlain(u, columns);
    NoSpecialConcat("IX_", Sanitized(u, table));
    NoSpecialConcat("_", Sanitized(u, columns));
    NoSpecialConcat("IX_" + Sanitized(u, table), "");
    NoSpecialConcat("IX_" + Sanitized(u, table), "_" + Sanitized(u, columns));
  }

  lemma LintKeysQuoted(cols: seq<string>)
    requires AllClean(AllUnbracketed(cols))
    ensures Join(AllBracketed(cols), ", ") == KeyList(AllUnbracketed(cols))
  {
    hide PlanXml.Unbracket, IsSpecial;
    forall k | 0 <= k < |cols|
      ensures AllBracketed(cols)[k] == "[" + PlanXml.Unbracket(cols[k]) + "]"
    {
      assert Clean(AllUnbracketed(cols)[k]);
    }
    assert AllBracketed(cols) == Quoted(AllUnbracketed(cols));
  }

  lemma PlaceholderIsClean()
    ensures Clean("<table>")
  {
  }

  /** The plan lint's recommendation reads back; a suggestion without key
      columns gets no statement. */
  lemma LintReadsBack(u: Unicode, mi: PlanXml.MissingIndexInfo)
    requires Plain(u)
    requires '(' !in mi.schema && (mi.table == "" || Clean(mi.table))
    requires AllClean(AllUnbracketed(mi.equality + mi.inequality))
    ensures var keys := AllUnbracketed(mi.equality + mi.inequality); var text := LintText(u, mi);
            if keys == [] then text == None
            else text.Some? && ParseCreateIndex(text.value) ==
                               Some(ParsedCreateIndex(LintName(u, mi), LintTable(mi), keys[0], keys))
  {
    hide Clean, AllClean, ParseCreateIndex, IndexDdl, KeyList, Introduces, PlanXml.Unbracket, Join, LintName, LINT_NOTE,
         Plain, AllBracketed;
    var cols := mi.equality + mi.inequality;
    var keys := AllUnbracketed(cols);
    LintKeyCount(cols);
    if keys != [] {
      var schema := if mi.schema == "" then "dbo" else mi.schema;
      var inc := if mi.included == [] then "" else "\n  INCLUDE (" + Join(AllBracketed(mi.included), ", ") + ")";
      PlaceholderIsClean();
      LintNoteIntroduces();
      LintNameIsClean(u, mi);
      LintKeysQuoted(cols);
      StatementReadsBack(LINT_NOTE, LintName(u, mi), schema, LintTable(mi), keys, inc + ";");
    }
  }

  lemma LintKeyCount(cols: seq<string>)
    ensures |AllBracketed(cols)| == |AllUnbracketed(cols)| == |cols|
  {
  }
}

/**
 What the parser leaves out of a printed CREATE INDEX statement: the schema, the
 INCLUDE list, and whether the statement rebuilds an index that exists.
 */
module CreateIndexRest {
  import opened Wrappers
  import opened Strings
  import opened Identifiers
  import opened Consolidate
  import opened Advise
  import opened AdviseMeaning
  import opened CreateIndexText

  datatype Rest = Rest(schema: string, included: seq<string>, rebuilds: bool)

  /** After the key list: `INCLUDE (columns) WITH (options);`, each part optional. */
  function EndIn(schema: string, text: string): Option<Rest> {
    match Find(text, "INCLUDE (")
    case None => Some(Rest(schema, [], Find(text, "DROP_EXISTING = ON").Some?))
    case Some(n) =>
      var inside := text[n + 9..];
      match Find(inside, ")")
      case None => None
      case Some(close) =>
        Some(Rest(schema, KeysIn(Split(inside[..close], IsComma)),
                  Find(inside[close..], "DROP_EXISTING = ON").Some?))
  }

  function TailIn(rest: string): Option<Rest> {
    match Find(Upper(rest), " ON ")
    case None => None
    case Some(n) =>
      var afterOn := rest[n + 4..];
      match Find(afterOn, "(")
      case None => None
      case Some(paren) =>
        var schema, keys := Unbr(Split(afterOn[..paren], IsDot)[0]), afterOn[paren + 1..];
        match Find(keys, ")")
        case None => None
        case Some(close) => EndIn(schema, keys[close + 1..])
  }

  function RestIn(text: string): Option<Rest> {
    match Find(Upper(text), HEADER)
    case None => None
    case Some(start) => TailIn(text[start + |HEADER|..])
  }

  // ---- the end of a statement ------------------------------------------------------------

  function Ending(rebuilds: bool): string { if rebuilds then "\n  WITH (DROP_EXISTING = ON);" else ";" }

  function IncludeText(included: seq<string>): string {
    if included == [] then "" else "\n  INCLUDE (" + KeyList(included) + ")"
  }

  lemma FindsSomewhere(a: string, pat: string, b: string)
    ensures Find(a + pat + b, pat).Some?
  {
    hide Find;
    var s := a + pat + b;
    assert s[|a|..] == pat + b;
    if Find(s, pat) == None {
      FindMisses(s, pat, |a|);
    }
  }

  lemma LettersFound(s: string, pat: string, k: nat)
    requires k < |pat| && Find(s, pat).Some?
    ensures pat[k] in s
  {
    hide Find;
    var n := Find(s, pat).value;
    FindHits(s, pat);
    assert s[n..][k] == s[n + k];
  }

  /** A text without a letter of the pattern does not have the pattern. */
  lemma LetterMissing(s: string, pat: string, k: nat)
    requires k < |pat| && pat[k] !in s
    ensures Find(s, pat) == None
  {
    if Find(s, pat).Some? {
      LettersFound(s, pat, k);
    }
  }

  lemma EndingParts()
    ensures Ending(true) == "\n  WITH (" + "DROP_EXISTING = ON" + ");"
  {
  }

  lemma EndingLetters()
    ensures 'C' !in Ending(true)
  {
    hide Ending;
    EndingParts();
  }

  lemma PlainEndingLetters()
    ensures 'C' !in Ending(false) && 'D' !in ")" + Ending(false) && 'D' !in Ending(false)
  {
  }

  lemma NoIncludeInEnding(rebuilds: bool)
    ensures Find(Ending(rebuilds), "INCLUDE (") == None
  {
    hide Find, Ending;
    EndingLetters();
    PlainEndingLetters();
    LetterMissing(Ending(rebuilds), "INCLUDE (", 2);
  }

  lemma EndingRead(a: string, rebuilds: bool)
    requires a == "" || a == ")"
    ensures Find(a + Ending(rebuilds), "DROP_EXISTING = ON").Some? <==> rebuilds
  {
    hide Find, Ending;
    EndingParts();
    PlainEndingLetters();
    if rebuilds {
      FindsSomewhere(a + "\n  WITH (", "DROP_EXISTING = ON", ");");
      assert a + "\n  WITH (" + "DROP_EXISTING = ON" + ");" == a + ("\n  WITH (" + "DROP_EXISTING = ON" + ");");
    } else {
      assert "" + Ending(false) == Ending(false);
      LetterMissing(a + Ending(false), "DROP_EXISTING = ON", 0);
    }
  }

  lemma IncludeFound(more: string)
    ensures Find("\n  INCLUDE (" + more, "INCLUDE (") == Some(3)
  {
    hide Find;
    var s := "\n  INCLUDE (" + more;
    assert s[3..][..9] == "INCLUDE (";
    forall k | 0 <= k < 3
      ensures !("INCLUDE (" <= s[k..])
    {
      assert s[k..][0] == s[k];
    }
    FindIsFirst(s, "INCLUDE (", 3);
  }

  lemma EndRead(schema: string, included: seq<string>, rebuilds: bool)
    requires AllClean(included)
    ensures EndIn(schema, IncludeText(included) + Ending(rebuilds)) == Some(Rest(schema, included, rebuilds))
  {
    hide Find, KeyList, KeysIn, Split, Clean, Ending;
    if included == [] {
      assert "" + Ending(rebuilds) == Ending(rebuilds);
      NoIncludeInEnding(rebuilds);
      EndingRead("", rebuilds);
    } else {
      var list := KeyList(included);
      var inside := list + ")" + Ending(rebuilds);
      var text := IncludeText(included) + Ending(rebuilds);
      assert text == "\n  INCLUDE (" + inside;
      IncludeFound(inside);
      assert text[12..] == inside;
      KeyListPlain(included);
      FindByte(list, ')', Ending(rebuilds));
      assert list + [')'] + Ending(rebuilds) == inside;
      assert inside[..|list|] == list && inside[|list|..] == ")" + Ending(rebuilds);
      assert "" + list == list;
      KeysRead("", included);
      EndingRead(")", rebuilds);
    }
  }

  // ---- the schema --------------------------------------------------------------------------

  lemma SchemaRead(schema: string, table: string)
    requires Clean(schema)
    ensures Unbr(Split("[" + schema + "].[" + table + "] ", IsDot)[0]) == schema
  {
    hide TrimBoth, Split, IsWhite;
    var a, b := "[" + schema + "]", "[" + table + "] ";
    assert "[" + schema + "].[" + table + "] " == a + ['.'] + b;
    forall k | 0 <= k < |a|
      ensures !IsDot(a[k])
    {
      assert 0 < k < |a| - 1 ==> a[k] == schema[k - 1] && !IsSpecial(schema[k - 1]);
    }
    SplitAtSeparator(a, '.', b, IsDot);
    QuotedRead("", schema, "");
    assert "" + "[" + schema + "]" + "" == a;
  }

  lemma CleanHasNoParen(s: string)
    requires Clean(s)
    ensures '(' !in s
  {
    hide IsWhite;
    forall k | 0 <= k < |s|
      ensures s[k] != '('
    {
      assert !IsSpecial(s[k]);
    }
  }

  lemma TailRestRead(name: string, schema: string, table: string, keys: seq<string>, included: seq<string>,
                     rebuilds: bool)
    requires Clean(name) && Clean(schema) && Clean(table) && AllClean(keys) && AllClean(included)
    ensures TailIn(" [" + name + "]\n  ON [" + schema + "].[" + table + "] (" + KeyList(keys) + ")" +
                   (IncludeText(included) + Ending(rebuilds))) ==
            Some(Rest(schema, included, rebuilds))
  {
    hide KeyList, Find, Upper, Unbr, Split, Clean, IncludeText, Ending, EndIn;
    var on, end := "[" + schema + "].[" + table + "] ", IncludeText(included) + Ending(rebuilds);
    var more := on + "(" + KeyList(keys) + ")" + end;
    var rest := " [" + name + "]\n  ON [" + schema + "].[" + table + "] (" + KeyList(keys) + ")" + end;
    assert rest == " [" + name + "]\n  ON " + more;
    OnFound(name, more);
    assert rest[|name| + 9..] == more;
    CleanHasNoParen(schema);
    NoParen(schema, table);
    FindByte(on, '(', KeyList(keys) + ")" + end);
    assert on + ['('] + (KeyList(keys) + ")" + end) == more;
    assert more[..|on|] == on && more[|on| + 1..] == KeyList(keys) + [')'] + end;
    SchemaRead(schema, table);
    KeyListPlain(keys);
    FindByte(KeyList(keys), ')', end);
    assert (KeyList(keys) + [')'] + end)[|KeyList(keys)| + 1..] == end;
    EndRead(schema, included, rebuilds);
  }

  /** A statement on clean identifiers shows its schema, its INCLUDE list and
      whether it rebuilds, after any introduction. */
  lemma StatementRestRead(intro: string, name: string, schema: string, table: string, keys: seq<string>,
                          included: seq<string>, rebuilds: bool)
    requires Introduces(intro)
    requires Clean(name) && Clean(schema) && Clean(table) && AllClean(keys) && AllClean(included)
    ensures RestIn(intro + IndexDdl(name, "[" + schema + "].[" + table + "]", KeyList(keys),
                                    IncludeText(included) + Ending(rebuilds))) ==
            Some(Rest(schema, included, rebuilds))
  {
    hide TailIn, KeyList, Find, Upper, Clean, Introduces, IncludeText, Ending;
    var end := IncludeText(included) + Ending(rebuilds);
    var more := " [" + name + "]\n  ON [" + schema + "].[" + table + "] (" + KeyList(keys) + ")" + end;
    var text := intro + IndexDdl(name, "[" + schema + "].[" + table + "]", KeyList(keys), end);
    assert text == intro + HEADER + more;
    HeaderFound(intro, more);
    assert text[|intro| + |HEADER|..] == more;
    TailRestRead(name, schema, table, keys, included, rebuilds);
  }

  // ---- the advisor and the plan lint --------------------------------------------------------

  lemma AdvisorEnd(r: CreateIndex)
    ensures var inc := if r.included == [] then "" else "\n  INCLUDE (" + Join(Brs(r.included), ", ") + ")";
            inc == IncludeText(Unbrs(r.included))
  {
    hide Unbr, Join;
    BrsQuoted(r.included);
  }

  /** Every statement of the batch shows the schema and the INCLUDE columns of its
      recommendation, in order, and it drops the index that exists if and only if
      the recommendation widens one. */
  lemma AdviceShowsTheRest(u: Unicode, missing: seq<MissingIndex>, indexes: seq<IndexMeta>, rows: map<string, nat>,
                           r: CreateIndex)
    requires Plain(u) && r in Advice(u, missing, indexes, rows)
    requires Clean(Unbr(r.schema)) && Clean(Unbr(r.table)) && AllClean(Unbrs(r.keys)) && AllClean(Unbrs(r.included))
    requires r.widens.Some? ==> Clean(r.name) && r.widens.value.keys != [] && AllClean(r.widens.value.keys)
    ensures RestIn(AdvisorDdl(r)) == Some(Rest(Unbr(r.schema), Unbrs(r.included), r.widens.Some?))
  {
    hide Clean, IndexDdl, KeyList, Introduces, WideningNote, Batch, Consolidated, Unbr, FirstFree, BaseName,
         ExistingSameKey, IsSmall, IsCovered, Brs, Plain, Join, RestIn, IncludeText;
    var m, taken := BatchFrom(u, indexes, rows, CatalogNames(indexes), Consolidated(u.lower, missing), r);
    BrsQuoted(r.keys);
    AdvisorEnd(r);
    OnTableText(r);
    var schema, table, keys, included := Unbr(r.schema), Unbr(r.table), Unbrs(r.keys), Unbrs(r.included);
    if r.widens.Some? {
      var ix := r.widens.value;
      assert ix.name == r.name;
      WideningNoteIntroduces(ix);
      StatementRestRead(WideningNote(ix), r.name, schema, table, keys, included, true);
    } else {
      FreshNameIsClean(u, taken, TableLc(m.schema, m.table), m);
      NoIntroduction();
      StatementRestRead("", r.name, schema, table, keys, included, false);
      var text := IndexDdl(r.name, "[" + schema + "].[" + table + "]", KeyList(keys), IncludeText(included) + ";");
      assert "" + text == text;
    }
  }

  lemma LintEnd(cols: seq<string>)
    requires AllClean(AllUnbracketed(cols))
    ensures (if cols == [] then "" else "\n  INCLUDE (" + Join(AllBracketed(cols), ", ") + ")") ==
            IncludeText(AllUnbracketed(cols))
  {
    hide Join, Clean, PlanXml.Unbracket, AllBracketed;
    LintKeysQuoted(cols);
  }

  lemma DefaultIsClean()
    ensures Clean("dbo")
  {
  }

  /** The plan lint's statement shows the schema, `dbo` when the plan names none,
      and the INCLUDE columns; it never drops an index. */
  lemma LintShowsTheRest(u: Unicode, mi: PlanXml.MissingIndexInfo)
    requires Plain(u) && (mi.schema == "" || Clean(mi.schema)) && (mi.table == "" || Clean(mi.table))
    requires AllClean(AllUnbracketed(mi.equality + mi.inequality)) && AllClean(AllUnbracketed(mi.included))
    ensures var text := LintText(u, mi);
            text.Some? ==>
              RestIn(text.value) == Some(Rest(if mi.schema == "" then "dbo" else mi.schema,
                                              AllUnbracketed(mi.included), false))
  {
    hide Clean, IndexDdl, KeyList, Introduces, PlanXml.Unbracket, Join, LintName, LINT_NOTE, Plain, AllBracketed,
         RestIn, IncludeText;
    var cols, text := mi.equality + mi.inequality, LintText(u, mi);
    if text.Some? {
      var schema := if mi.schema == "" then "dbo" else mi.schema;
      PlaceholderIsClean();
      DefaultIsClean();
      LintNoteIntroduces();
      LintNameIsClean(u, mi);
      LintKeysQuoted(cols);
      LintEnd(mi.included);
      StatementRestRead(LINT_NOTE, LintName(u, mi), schema, LintTable(mi), AllUnbracketed(cols),
                        AllUnbracketed(mi.included), false);
    }
  }

  // ---- the plan lint's names -----------------------------------------------------------------

  lemma UnbracketPlain(s: string)
    requires s != "" ==> !IsWhite(s[0]) && !IsWhite(s[|s| - 1]) && !IsBracket(s[0]) && !IsBracket(s[|s| - 1])
    ensures PlanXml.Unbracket(s) == s
  {
    TrimBothOfTrimmed(s, IsWhite);
  }

  lemma {:induction false} JoinedWords(u: Unicode, cols: seq<string>)
    requires !IsWhite('_') && cols != [] && forall c :: c in cols ==> IsWord(u, c)
    ensures IsWord(u, Join(cols, "_"))
  {
    hide IsWhite;
    if |cols| > 1 {
      assert cols[0] in cols;
      JoinedWords(u, cols[1..]);
    } else {
      assert cols[0] in cols;
    }
  }

  lemma SanitizedWord(u: Unicode, s: string)
    requires IsWord(u, s)
    ensures PlanXml.Unbracket(s) == s && Sanitized(u, s) == s
  {
    hide PlanXml.Unbracket, IsWhite;
    UnbracketPlain(s);
  }

  /** The plan lint names an index after its table and its key columns in order;
      a character of the table's name that is no letter, digit or underscore
      becomes an underscore. */
  lemma LintNameMeans(u: Unicode, mi: PlanXml.MissingIndexInfo, a: string, c: char, b: string)
    requires IsWord(u, a) && IsWord(u, b) && !u.alphanumeric(c) && c != '_' && mi.table == a + [c] + b
    requires mi.equality + mi.inequality != [] && forall k :: k in mi.equality + mi.inequality ==> IsWord(u, k)
    ensures LintName(u, mi) == "IX_" + a + "_" + b + Tail(mi.equality + mi.inequality)
  {
    hide PlanXml.Unbracket, Join, IsWord, Tail;
    var cols := mi.equality + mi.inequality;
    forall k | 0 <= k < |cols|
      ensures PlanXml.Unbracket(cols[k]) == cols[k]
    {
      assert cols[k] in cols;
      SanitizedWord(u, cols[k]);
    }
    assert AllUnbracketed(cols) == cols;
    Underscore();
    JoinedWords(u, cols);
    SanitizedWord(u, Join(cols, "_"));
    JoinIsTail(cols);
    TableName(u, a, c, b);
    assert Join(cols, "_") != "" by { WordNotEmpty(u, Join(cols, "_")); }
    assert "IX_" + (a + "_" + b) + ("_" + Join(cols, "_")) == "IX_" + a + "_" + b + ("_" + Join(cols, "_"));
  }

  lemma WordNotEmpty(u: Unicode, s: string)
    requires IsWord(u, s)
    ensures s != ""
  {
  }

  lemma Underscore()
    ensures !IsWhite('_')
  {
  }

  lemma TableName(u: Unicode, a: string, c: char, b: string)
    requires IsWord(u, a) && IsWord(u, b) && !u.alphanumeric(c) && c != '_'
    ensures Sanitized(u, a + [c] + b) == a + "_" + b && a + [c] + b != ""
  {
    hide PlanXml.Unbracket, IsWhite;
    var s := a + [c] + b;
    assert s[0] == a[0] && s[|s| - 1] == b[|b| - 1];
    UnbracketPlain(s);
  }
}

# dbopt: verified models of its cores

dbopt is a T-SQL analyzer with a command-line linter, an index advisor fed by
SQL Server's dynamic management views, a showplan reader and a monitoring
daemon. This project models its algorithmic cores in Dafny and proves what they
promise. `dafny verify dfyconfig.toml` checks all of it.

| files | what they model |
|---|---|
| `Tokens`, `TokenLaws`, `TokenShapes`, `TokenLocality` | the T-SQL scanner: loops with running counters, against a next-lexeme specification; block comments as a grammar; the escape law; each kind of lexeme in its own characters; what a lexeme depends on |
| `Suppress`, `SuppressLaws`, `SuppressWhite`, `SuppressWritten`, `SuppressPlaces` | in-source suppression directives, read from comment tokens into a mutable object; which line a directive on any line of a comment concerns |
| `StripComments`, `Utf8`, `Decode` | the comment stripper against the scanner; reading file bytes as text |
| `Identifiers`, `Consolidate`, `ConsolidateLaws`, `ConsolidateRun`, `ConsolidateIncludes`, `ConsolidateRepeats`, `ConsolidateOrder`, `TableOrder` | the greedy merge of missing-index suggestions, which INCLUDE columns it never loses or repeats, and the order of what is left |
| `Advise`, `AdviseLaws`, `AdviseMeaning` | the CREATE INDEX batch: row counts, skipping, widening, fresh names |
| `Redundancy`, `RedundancyLaws`, `RedundancyExact`, `RedundancyColumns` | exact duplicates, prefix-redundant indexes and the optional overlap merge, exactly when all of them together leave every key served, and which drops keep the INCLUDE columns |
| `PlanXml`, `PlanLaws`, `PlanTree`, `PlanOperators`, `PlanEvents`, `PlanColumns`, `PlanMissing`, `PlanMemory` | the showplan event machine, against a denotation of XML documents, a recursive descent over them, and the positions of elements in them |
| `CreateIndexText`, `CreateIndexRest`, `Commas` | the DDL the advisor and the plan lint print, the parser that reads it back, and what the parser leaves out; printed counts |
| `Monitor`, `MonitorSteps`, `MonitorRuns`, `MonitorReload` | the daemon's life cycle: whole handlers on an object, and interleaved steps |
| `Lint`, `Report` | the cap per rule and the SARIF log; treemap and timeline |
| `Strings`, `Wrappers` | string operations and Option |

Loops and objects of the program are methods and classes here. Each is proved
equal to a specification function, or meets its property outright, and the laws
are lemmas about those functions. Text the scanner works on is a sequence of
characters standing for bytes, so its laws hold for any byte values. Two Unicode
tables, `to_lowercase` and `is_alphanumeric`, are parameters; a lemma that needs
a fact about them says so in its `requires` (`RespectsAscii`, `Plain`).

## Where the code and its comments part

- `same_column_set` (crates/analyzer-core/src/dmv.rs:649-652) calls itself set
  equality. For a first list it is that, against every list as long, if and only
  if the first list has no repeats (`SameColumnSetIsSetEquality`); for each list
  with repeats there is one for which the answer depends on the order of the
  arguments (`RepeatsMakeItLopsided`).
- `union_includes` (dmv.rs:1668-1675) promises a union, and consolidation that a
  survivor keeps the INCLUDEs of what it absorbed. A column survives every
  consolidation of every report that includes it if and only if something is
  left of its name without white space and brackets (`NeverLostIffNamed`); for
  every other column, blank or not, there is a report that loses it
  (`NamelessCanBeLost`).
- The overlap merge says it never retires the index doing the work
  (dmv.rs:1153-1156). On its own it does not (`MostReadIsKept`), but together
  with the exact-duplicate drops it can name every index of a key.
  `AllServedIffEveryTopStands` says exactly for which catalogs and usage counts
  every key stays served, `AllPassesSafeIffUnmixed` for which catalogs whatever
  the counts.
- Self-closing and paired elements are not treated alike by the showplan reader
  (crates/analyzer-core/src/plan_xml.rs:333-579). `RewritableIffSafe` says for
  which elements the form never matters in a well-nested stream, and for each of
  the others there is a well-nested stream that tells the two forms apart
  (`UnsafePairsDiffer`).
- `set_alert_config` reads and writes its file outside the lock. In
  `AlertsRaceLosesInstances` every step succeeds and the daemon ends up with no
  instance; in `AlertsRaceAfterWrite` the read was of the daemon that ran and a
  stop and a start still slip in before the lock; in `AlertsRaceUndoesStop` the
  next boot brings back a daemon that was stopped. When a change takes the lock
  of a running daemon, in any reachable state, and no other change writes before
  it returns, the daemon keeps its instances and is on record if and only if the
  file at that moment holds exactly the configuration to be started, with
  autostart, and these instances (`ReloadIsSafeIffFileAgrees`). With other changes
  in flight it is safe on every run if and only if, besides, each of them can only
  write the same (`AlwaysSafeIffAllAgree`). After a stop, autostart stays off if
  and only if what the change read had it off (`StopOutlastsChangeIffReadOff`).
- `strip_comments` knows no literals. What it keeps is what lies outside the
  scanner's comment tokens if and only if no string literal and no name the
  scanner finds contains `--` or `/*` (`KeepsOutsideIffNoneMisleads`);
  `LiteralsAreNotSpared` is a text on which they differ.

## Model

| member | source | states |
|---|---|---|
| Tokens.SpanLines | crates/analyzer-core/src/tokens.rs:31-43 | the loop returns the newlines of a lexeme and the bytes after the last one |
| Tokens.ScanSpace | crates/analyzer-core/src/tokens.rs:61-73 | stops at the first byte that is not white space, with exact counters for what it passed |
| Tokens.ScanRun | crates/analyzer-core/src/tokens.rs:157-172 | stops after the longest run of bytes of its class |
| Tokens.ScanQuoted | crates/analyzer-core/src/tokens.rs:111-147 | stops after the first quote that is not doubled, or at the end of input |
| Tokens.ScanBlock | crates/analyzer-core/src/tokens.rs:79-110 | stops where nesting returns to zero, or at the end; its counters are exact whenever input is left after it |
| Tokens.ScanLexeme | crates/analyzer-core/src/tokens.rs:60-174 | one step yields the lexeme the specification finds in the bytes from here on, and exact counters whenever input is left |
| Tokens.Tokenize | crates/analyzer-core/src/tokens.rs:45-196 | the counting loop yields the specified tokens, whose line is 1 plus the newlines before them and whose column is 1 plus the bytes since the last newline |
| TokenLaws.TokensTile | crates/analyzer-core/src/tokens.rs:54-195 | tokens are nonempty, increasing and disjoint, carry exact positions, and every byte outside them is space, tab, CR or LF |
| TokenLaws.CountersFit | crates/analyzer-core/src/tokens.rs:48-52 | on input below 2^32 - 1 bytes no offset, line or column leaves 32 bits |
| TokenLaws.BlockCommentIsNested | crates/analyzer-core/src/tokens.rs:79-110 | the depth counter stops after n bytes exactly if those bytes derive one well-nested comment, and never exactly if none derives |
| TokenLaws.BlockCommentLexeme | crates/analyzer-core/src/tokens.rs:79-110 | a block-comment token is the whole nested comment, or the rest of the input if none is balanced |
| TokenLaws.QuotedLexeme | crates/analyzer-core/src/tokens.rs:111-147 | a literal or quoted name closes after n bytes exactly if those bytes are some body with its quotes doubled, not followed by a quote; otherwise it runs to the end |
| TokenShapes.WordLexeme | crates/analyzer-core/src/tokens.rs:157-163 | after a letter, underscore, at or number sign the lexeme is a word of exactly the letters, digits, underscores, dollars and number signs that follow |
| TokenShapes.NumberLexeme | crates/analyzer-core/src/tokens.rs:164-168 | after a digit it is a number of exactly the digits and dots that follow |
| TokenShapes.BracketLexeme | crates/analyzer-core/src/tokens.rs:148-156 | a bracketed name is a word through its first closing bracket, or to the end |
| TokenShapes.QuotedKinds | crates/analyzer-core/src/tokens.rs:111-147 | a quote opens a string literal, a double quote a word |
| TokenShapes.LineCommentLexeme | crates/analyzer-core/src/tokens.rs:74-78 | two dashes open a comment up to the next newline |
| TokenShapes.SpaceLexeme | crates/analyzer-core/src/tokens.rs:60-73 | space, tab, CR and LF make white space, all of it in one lexeme |
| TokenShapes.PunctLexeme | crates/analyzer-core/src/tokens.rs:169-172 | every other byte that opens no comment and no quoted lexeme stands alone |
| TokenShapes.LineIsCounted | crates/analyzer-core/src/tokens.rs:176-190 | the line of an offset is one more than the number of newlines before it |
| TokenShapes.ColumnIsDistance | crates/analyzer-core/src/tokens.rs:176-190 | the column of an offset is its distance from the last newline before it, or from the start |
| TokenLocality.LexLookahead | crates/analyzer-core/src/tokens.rs:60-174 | a lexeme that ends before the input does depends only on its own bytes and the next one |
| TokenLocality.PrefixLocality | crates/analyzer-core/src/tokens.rs:54-195 | texts that agree through a boundary and one byte more have the same tokens before it |
| TokenLocality.SuffixLocality | crates/analyzer-core/src/tokens.rs:54-195 | equal text on an equal line yields the same comments wherever it stands |
| TokenLocality.InertReplacement | crates/analyzer-core/src/tokens.rs:54-195 | exchanging one non-comment lexeme for another with the same first byte and as many newlines changes no comment and no comment's line |
| Suppress.Scope.Add | crates/analyzer-cli/src/suppress.rs:68-81 | a bare directive silences everything, a list adds its wildcards and specs one by one |
| Suppress.FileSuppressions.constructor | crates/analyzer-cli/src/suppress.rs:94-102 | a new object silences nothing |
| Suppress.FileSuppressions.AddToLine | crates/analyzer-cli/src/suppress.rs:118-121 | one line's scope grows and no other scope changes |
| Suppress.FileSuppressions.ReadLine | crates/analyzer-cli/src/suppress.rs:108-122 | one line of a comment applies at most one directive, longest keyword first |
| Suppress.FileSuppressions.ReadComment | crates/analyzer-cli/src/suppress.rs:104-123 | the lines of a comment apply in order; next-line means the line after the comment closes |
| Suppress.FileSuppressions.Parse | crates/analyzer-cli/src/suppress.rs:101-125 | the object built from the comment tokens equals the file's directives applied in order |
| SuppressLaws.CoversIffDirective | crates/analyzer-cli/src/suppress.rs:101-135 | a rule is silenced on a line if and only if some directive of the file concerns that line and names the rule |
| SuppressLaws.AddedCovers | crates/analyzer-cli/src/suppress.rs:68-85 | a scope grows by exactly what the new argument text names |
| SuppressLaws.QuotedBodyIsInert | crates/analyzer-cli/src/suppress.rs:101-125 | wherever the scan reaches an opening quote, any other body with as many newlines leaves every scope of the file unchanged |
| SuppressLaws.BracketedBodyIsInert | crates/analyzer-cli/src/suppress.rs:101-125 | the same for the contents of a bracketed name |
| SuppressLaws.KeywordsExclusive | crates/analyzer-cli/src/suppress.rs:113-122 | no directive text is taken for two keywords, so the order in which they are tried is immaterial |
| SuppressLaws.SpecMatchesSegments | crates/analyzer-cli/src/suppress.rs:30-49 | a spec covers a rule if and only if it is a wildcard, spells all its dotted segments, or as a family or glob spells its leading ones, in any case |
| SuppressWritten.WrittenIsRead | crates/analyzer-cli/src/suppress.rs:104-171 | wherever the scan can start a comment, a written file, next-line or same-line directive, in either comment style, is read with that target and exactly the rule list written |
| SuppressWritten.WrittenSilences | crates/analyzer-cli/src/suppress.rs:101-135 | so it silences every rule it names in the file, on its line, or on the line after |
| SuppressWritten.MisspeltIsIgnored | crates/analyzer-cli/src/suppress.rs:104-171 | wherever the scan can start a comment, one whose keyword runs on into other text adds no directive: those of the file are those of the comments before it and of the comments after it |
| SuppressPlaces.DirectiveIsRead | crates/analyzer-cli/src/suppress.rs:104-122 | a directive on any line of any comment the scan comes upon, in any case, with or without a rule list, is read: same-line for the line it stands on, next-line for the line after the one on which the comment ends |
| SuppressPlaces.DirectiveSilences | crates/analyzer-cli/src/suppress.rs:101-135 | so it silences the rules it names, or every rule if it names none, on those lines |
| SuppressWhite.TrimOfEncoding | crates/analyzer-cli/src/suppress.rs:51-58 | trimming the bytes of a text is trimming its characters of Unicode white space |
| SuppressPlaces.ListsAdd | crates/analyzer-cli/src/suppress.rs:51-58 | a comma, a blank or a tab ends one spec of a list and begins the next |
| SuppressPlaces.OneSpec | crates/analyzer-cli/src/suppress.rs:51-58 | any other printable text is one spec, as it stands |
| SuppressPlaces.Wildcards | crates/analyzer-cli/src/suppress.rs:30-49 | a star and `all` in any case name every rule |
| StripComments.Strip | crates/analyzer-cli/src/source.rs:211-246 | the loop with its depth counter computes the recursive stripping |
| StripComments.StripOfEncoding | crates/analyzer-cli/src/source.rs:211-246 | stripping characters and encoding commutes with stripping the encoded bytes |
| StripComments.StripIsKept | crates/analyzer-cli/src/source.rs:211-246 | what is stripped is the text at the offsets that are kept, from any offset and depth |
| StripComments.KeepsOutsideIffNoneMisleads | crates/analyzer-cli/src/source.rs:209-246 | the stripper keeps exactly the bytes outside the scanner's comment tokens if and only if no literal and no quoted or bracketed name the scanner finds has a comment mark in it |
| StripComments.StripRemovesComments | crates/analyzer-cli/src/source.rs:211-246 | so on such text the result is the source minus the bytes of the comment tokens, nested and unterminated ones included |
| StripComments.UnquotedIsStripped | crates/analyzer-cli/src/source.rs:211-246 | text without quotes and brackets is always such text |
| StripComments.LiteralsAreNotSpared | crates/analyzer-cli/src/source.rs:209-246 | dashes inside a literal are stripped although the scanner sees no comment |
| Decode.Utf8Inverse | crates/analyzer-cli/src/source.rs:72-77 | UTF-8 reading succeeds with a text if and only if the bytes are its encoding |
| Decode.Utf16Inverse | crates/analyzer-cli/src/source.rs:110-125 | UTF-16 reading succeeds with a text if and only if the bytes are its encoding, surrogate pairs included, in both byte orders |
| Decode.SniffBomlessUtf16 | crates/analyzer-cli/src/source.rs:130-153 | the loop over at most 1024 bytes decides by exact NUL counts at even and odd offsets |
| Decode.NulFreeNotSniffed | crates/analyzer-cli/src/source.rs:130-153 | bytes without a NUL are never taken for UTF-16 |
| Decode.SniffedByCount | crates/analyzer-cli/src/source.rs:127-153 | bytes are taken for UTF-16 of a byte order if and only if there are at least four, evenly many, and among the first 1024 four in five pairs have a NUL high byte and none a NUL low byte |
| Decode.MarkedUtf16RoundTrips | crates/analyzer-cli/src/source.rs:35-46 | a file with a UTF-16 mark reads as a text if and only if the rest encodes it |
| Decode.MarkedUtf8RoundTrips | crates/analyzer-cli/src/source.rs:48-57 | a file with a UTF-8 mark reads as a text if and only if the rest encodes it |
| Decode.UnmarkedUtf16RoundTrips | crates/analyzer-cli/src/source.rs:58-71 | unmarked UTF-16 of two or more characters from U+0001 to U+00FF is recognised, byte order and all, and read back |
| Decode.Utf8RoundTrips | crates/analyzer-cli/src/source.rs:33-77 | unmarked UTF-8 is read back exactly if it does not start with U+FEFF and is not sniffed as UTF-16 |
| Decode.NulFreeUtf8RoundTrips | crates/analyzer-cli/src/source.rs:33-77 | so every text without NUL and without a leading U+FEFF is read back |
| Decode.UnmarkedNeverFails | crates/analyzer-cli/src/source.rs:58-87 | a file with no mark and no look of UTF-16 is always read; the reading is a disclosed guess exactly if the bytes are not UTF-8 |
| Decode.Windows1252LosesNothing | crates/analyzer-cli/src/source.rs:94-108 | the Windows-1252 map gives one character a byte and is injective |
| Decode.Windows1252ByCodePage | crates/analyzer-cli/src/source.rs:94-108 | each byte from 0x80 to 0x9F is the character the code page lists there, every other byte the character with its code |
| Identifiers.KeyPrefixIsPrefix | crates/analyzer-core/src/dmv.rs:1656-1666 | the key-prefix test is the prefix order on normalised names, except that an empty key precedes nothing |
| Strings.AsciiCase | crates/analyzer-core/src/dmv.rs:778-781 | lower and upper case pair the 26 ASCII letters and leave every other character alone |
| Identifiers.NormOfWritten | crates/analyzer-core/src/dmv.rs:748-750 | a name is compared without white space and brackets around it, in lower case |
| Identifiers.SameColumnIffSameLetters | crates/analyzer-core/src/dmv.rs:1656-1658 | two bare names are one column if and only if they agree letter by letter up to ASCII case |
| Consolidate.UnionIncludesInto | crates/analyzer-core/src/dmv.rs:1669-1675 | the loop computes the specified union, first spelling kept |
| Consolidate.MergePass | crates/analyzer-core/src/dmv.rs:1720-1758 | one pass folds the first mergeable pair in row order, with all its evidence, and reports whether there was one |
| Consolidate.MergeGroup | crates/analyzer-core/src/dmv.rs:1718-1759 | the while loop terminates in the fixpoint of that merge |
| Consolidate.GroupRows | crates/analyzer-core/src/dmv.rs:1709-1717 | rows with a key are grouped by case-folded schema and table, in input order, tables in order |
| Consolidate.ConsolidateMissingIndexesTraced | crates/analyzer-core/src/dmv.rs:1702-1763 | the whole procedure equals the specification the laws below are about |
| ConsolidateLaws.UnionKeeps | crates/analyzer-core/src/dmv.rs:1669-1675 | a union keeps what it had in front, holds every column it was given that is not blank, and nothing foreign |
| ConsolidateLaws.FirstFromIsFirst | crates/analyzer-core/src/dmv.rs:1727-1738 | the pair folded next is the first one, row by row, in which the second key is a strict prefix of the first or equals it further down |
| ConsolidateRepeats.UnionUnrepeated | crates/analyzer-core/src/dmv.rs:1669-1675 | a union repeats a column if and only if what it started from does |
| ConsolidateRepeats.SurvivorsUnrepeated | crates/analyzer-core/src/dmv.rs:1702-1763 | when no row of the report repeats an INCLUDE column, no survivor does |
| ConsolidateRepeats.StatementsUnrepeated | crates/analyzer-core/src/dmv.rs:841-863 | when no index of the catalog does either, no statement of the batch lists an INCLUDE column twice |
| ConsolidateIncludes.NeverLostIffNamed | crates/analyzer-core/src/dmv.rs:1679-1752 | a column survives every consolidation of every report that includes it if and only if its name, unbracketed and trimmed, is not empty |
| ConsolidateIncludes.NamelessCanBeLost | crates/analyzer-core/src/dmv.rs:1679-1752 | for each column without such a name, the report whose consolidation loses it |
| ConsolidateLaws.MergedIsAntichain | crates/analyzer-core/src/dmv.rs:1720-1758 | within a table no survivor's key is a prefix of another's |
| ConsolidateLaws.AntichainIsFixed | crates/analyzer-core/src/dmv.rs:1720-1758 | merging a merged list changes nothing |
| ConsolidateLaws.MergedAccounts | crates/analyzer-core/src/dmv.rs:1737-1752 | merging repartitions the rows behind the entries, loses none, and keeps each survivor's account: seeks capped sum, impact and cost maxima, INCLUDEs a union |
| ConsolidateRun.RowsPartitioned | crates/analyzer-core/src/dmv.rs:1709-1717 | grouping by table loses no keyed row and duplicates none |
| ConsolidateRun.ConsolidationConserves | crates/analyzer-core/src/dmv.rs:1702-1763 | over all tables the keyed input rows are partitioned among survivors that account for their part, and survivors of one table are unrelated |
| ConsolidateRun.TracesPartitionSeeks | crates/analyzer-core/src/dmv.rs:1697-1701 | the trace lists together are the multiset of input seek counts |
| ConsolidateRun.EveryRowServed | crates/analyzer-core/src/dmv.rs:1679-1692 | each keyed row has a survivor with the same folded schema and table whose columns extend its equality and inequality columns and whose INCLUDEs hold its named columns |
| ConsolidateRun.EverySurvivorGenuine | crates/analyzer-core/src/dmv.rs:1679-1692 | each survivor has the schema, table, equality and inequality columns of some input row |
| ConsolidateRun.SurvivorsAreMaximal | crates/analyzer-core/src/dmv.rs:1679-1692 | a table's surviving keys are exactly the maximal input keys under the normalised prefix order |
| ConsolidateOrder.SurvivorsInOrder | crates/analyzer-core/src/dmv.rs:1702-1763 | every survivor has schema, table and columns of the first row of its table with its key; survivors come table by table in dictionary order and within a table in the order of those rows |
| ConsolidateRun.RowOrderIrrelevant | crates/analyzer-core/src/dmv.rs:1702-1763 | any permutation of the rows leaves the surviving keys the same |
| ConsolidateRun.ConsolidationIdempotent | crates/analyzer-core/src/dmv.rs:1702-1763 | consolidating the consolidated suggestions returns them unchanged, in order |
| Advise.TableRowCounts | crates/analyzer-core/src/dmv.rs:297-314 | a table's count is the sum over its heap and clustered partitions when any is listed, else the largest count of any of its indexes |
| AdviseMeaning.RowCountMeans | crates/analyzer-core/src/dmv.rs:291-314 | in the fields of the partitions: heap and clustered partitions add up, without any the largest count stands, and an unlisted table has none |
| Advise.FirstFreeIsLeast | crates/analyzer-core/src/dmv.rs:853-860 | the name taken is the first free one in the sequence of suffixes, none skipped |
| Advise.FreshName | crates/analyzer-core/src/dmv.rs:850-862 | the suffix loop terminates in that name |
| AdviseMeaning.FreshNameMeans | crates/analyzer-core/src/dmv.rs:850-862 | a free base name is kept; otherwise the least number from 2 on whose decimal numeral makes the name free is put behind it |
| AdviseMeaning.BaseNameMeans | crates/analyzer-core/src/dmv.rs:850-852 | for plain names the base name is IX, the table and the key columns in order, joined by underscores and cut after 120 characters |
| AdviseMeaning.FragmentOfWords | crates/analyzer-core/src/dmv.rs:754-756 | white space, brackets and whatever is no letter, digit or underscore are left out of a name |
| Advise.FindSameKey | crates/analyzer-core/src/dmv.rs:793-798 | the first ordinary index of the table with exactly the suggested key |
| Advise.CollectNames | crates/analyzer-core/src/dmv.rs:778-781 | the taken names are those of the catalog, per table, in lower case |
| Advise.IndexFor | crates/analyzer-core/src/dmv.rs:783-863 | a suggestion is skipped for a missing key, a small table or a covering index, and otherwise widens the same-key index or gets a fresh name |
| AdviseMeaning.SkippedMeans | crates/analyzer-core/src/dmv.rs:783-805 | no statement if and only if there is no key column, the table is known to have fewer than 1000 rows, or the first ordinary index with the same key on the table has every INCLUDE column |
| AdviseMeaning.StatementMeans | crates/analyzer-core/src/dmv.rs:841-863 | a statement keeps table and key, rebuilds the first ordinary index with that key under its own name, its INCLUDEs first, and otherwise is new with the suggestion's INCLUDEs |
| Advise.CreateIndexes | crates/analyzer-core/src/dmv.rs:772-864 | the batch loop with its growing set of taken names computes the specified batch |
| AdviseLaws.BatchIsClashFree | crates/analyzer-core/src/dmv.rs:778-864 | on one table no two statements share an index name, a new index never takes a catalog name, and no existing index is rebuilt twice |
| AdviseLaws.WidenedOnce | crates/analyzer-core/src/dmv.rs:791-798 | two survivors of one table never widen the same index, because their keys would be related |
| AdviseLaws.StatementServes | crates/analyzer-core/src/dmv.rs:841-863 | a statement serves every row its suggestion serves and keeps all INCLUDEs of the index it rebuilds |
| AdviseLaws.CoveredServes | crates/analyzer-core/src/dmv.rs:799-805 | a suggestion dropped as covered has a catalog index that serves every row it stands for |
| AdviseLaws.EveryRowAnswered | crates/analyzer-core/src/dmv.rs:772-864 | each keyed row of the report has a survivor that serves it and ends with a measured small table, a catalog index that serves the row, or a statement that does |
| Redundancy.GroupByTable | crates/analyzer-core/src/dmv.rs:1100-1103 | every index is listed once, under its table, in catalog order |
| Redundancy.MergeOfPair | crates/analyzer-core/src/dmv.rs:1113-1164 | the verdict on a pair: which of two duplicates goes, or which of two overlapping indexes has fewer reads |
| Redundancy.MergesOfTable | crates/analyzer-core/src/dmv.rs:1111-1113 | the two loops give each pair of a table's list, in order, its verdict |
| Redundancy.MergePass | crates/analyzer-core/src/dmv.rs:1099-1207 | the nested loops recommend exactly: of two indexes on one key with the same INCLUDEs the ordinary one, the later if both are, and with other INCLUDEs, both ordinary, the one with fewer reads, the later on a tie; never a primary key or unique index; tables in dictionary order, pairs in catalog order |
| Redundancy.DuplicateDropMeans | crates/analyzer-core/src/dmv.rs:1115-1127 | the exact-duplicate drops in the fields of the two indexes |
| Redundancy.OverlapDropMeans | crates/analyzer-core/src/dmv.rs:1153-1164 | the overlap drops in the fields and read counts of the two indexes |
| Redundancy.RedundantOnTable | crates/analyzer-core/src/dmv.rs:1798-1823 | on one table exactly the prefix-redundant indexes are reported, in catalog order, each with the first index that supersedes it |
| Redundancy.RedundantExistingIndexes | crates/analyzer-core/src/dmv.rs:1788-1826 | the pass reports, once each and in the order of tables and catalog, exactly the indexes that are neither primary key nor unique and whose key is a strict prefix of another's on the table, with the first such index |
| RedundancyLaws.ConstraintsRemain | crates/analyzer-core/src/dmv.rs:1774-1784 | neither pass ever drops a primary key or unique index |
| RedundancyLaws.EveryKeyStillServed | crates/analyzer-core/src/dmv.rs:1110-1151 | after all duplicate and prefix drops at once each original index still has one on its table whose key extends its key |
| RedundancyLaws.MostReadIsKept | crates/analyzer-core/src/dmv.rs:1153-1164 | alone, the overlap merge never retires the first index with the most reads of its key |
| RedundancyLaws.SameColumnSetMeans | crates/analyzer-core/src/dmv.rs:649-652 | with a first list without repeats the test is equality of length and of column sets |
| RedundancyLaws.SameColumnSetIsSetEquality | crates/analyzer-core/src/dmv.rs:649-652 | for a first list the test is set equality against every list as long, if and only if the first list has no repeats |
| RedundancyLaws.RepeatsMakeItLopsided | crates/analyzer-core/src/dmv.rs:649-652 | for every list with repeats there is one it passes for, that does not pass for it |
| RedundancyExact.RemainsIffStands | crates/analyzer-core/src/dmv.rs:1099-1203 | on a topmost key without a constraint an index remains after the three passes if and only if it is the first of its duplicates and outreads every index that is not one |
| RedundancyExact.AllServedIffEveryTopStands | crates/analyzer-core/src/dmv.rs:1099-1203 | for a given catalog and usage counts the three passes together leave every key served if and only if each such key has such an index |
| RedundancyExact.MixedClassCanVanish | crates/analyzer-core/src/dmv.rs:1099-1203 | for every key class that mixes duplicates with a third index there are usage counts under which the three passes leave some key unserved |
| RedundancyExact.AllPassesSafeIffUnmixed | crates/analyzer-core/src/dmv.rs:1099-1203 | the three passes leave every key served under all usage counts if and only if the catalog has no such class |
| RedundancyColumns.ColumnsKeptIffPrefixPassKeepsThem | crates/analyzer-core/src/dmv.rs:1110-1151 | where the kept one of two duplicates has the INCLUDE columns of the other, both passes together leave every index an index on its table that extends its key and holds its INCLUDE columns, if and only if the prefix pass alone does |
| RedundancyColumns.UnrepeatedTwinsHold | crates/analyzer-core/src/dmv.rs:1118-1126 | that is so in every catalog whose INCLUDE lists have no repeats |
| RedundancyColumns.TwoKeepColumnsIffNoRepeats | crates/analyzer-core/src/dmv.rs:1118-1126 | two indexes on one key keep their columns whatever the second includes if and only if the INCLUDE list of the first has no repeats |
| PlanXml.Parse | crates/analyzer-core/src/plan_xml.rs:289-636 | the event loop over stack, depths, modes and pending facts computes the run of the step function and attaches the pending facts to the root |
| PlanLaws.DocTold | crates/analyzer-core/src/plan_xml.rs:330-616 | reading any element inside an operator leaves the operators below it on the stack untouched, restores the depth, and adds to the innermost one exactly what the element states |
| PlanLaws.DocStated | crates/analyzer-core/src/plan_xml.rs:330-616 | reading any element outside all operators adds exactly its query-level warnings, and its last operator becomes the root |
| PlanLaws.ParsingInvertsPrinting | crates/analyzer-core/src/plan_xml.rs:289-636 | for every well-formed document the reader fails exactly if no operator is there, and else returns the last top-level one: attributes, the object it reads, residual and seek predicates by ownership and nesting, summed counters, warnings, conversions, and its operators in order, recursively |
| PlanTree.MachineDescends | crates/analyzer-core/src/plan_xml.rs:330-616 | from any state inside an operator, reading any element does to the innermost operator, the modes and the query-level facts, field by field, what a recursive descent over the element does, and nothing else changes |
| PlanTree.ParsedIsDescribed | crates/analyzer-core/src/plan_xml.rs:289-636 | for every well-formed document the plan the event machine returns, all fields included, is the one the recursive descent describes |
| PlanTree.QuietStaysQuiet | crates/analyzer-core/src/plan_xml.rs:305-323 | well-formed elements inside an operator, however nested, turn off every mode they turn on |
| PlanOperators.OperatorTreeIsNesting | crates/analyzer-core/src/plan_xml.rs:330-636 | in the positions of the document alone: the tree is the nesting of RelOps; an operator has a residual if and only if a paired Predicate is a child of its element or of a child, or a self-closing one stands one or two elements deep in it, and seek predicates likewise; counters are sums over the RunTimeCounters of the operator itself; warnings are those named in it |
| PlanOperators.RootWarnings | crates/analyzer-core/src/plan_xml.rs:620-634 | the root has its own warnings, and behind them those of the query, each once |
| PlanOperators.CapturersByName | crates/analyzer-core/src/plan_xml.rs:179-190 | exactly lookups, index seeks, index scans and table scans, in any case, capture an object and seek columns |
| PlanOperators.ListenersByName | crates/analyzer-core/src/plan_xml.rs:169-190 | each column-bearing element is heard by the operators it concerns, told by name in any case, and by no others |
| PlanOperators.UnbracketStrips | crates/analyzer-core/src/plan_xml.rs:140-142 | identifiers lose the white space and the brackets around them |
| PlanEvents.StacksMirrorOpenElements | crates/analyzer-core/src/plan_xml.rs:336-342 | a well-nested stream keeps the operator stack at one entry for each open RelOp, and each depth at the number of other elements open directly in it |
| PlanEvents.StacksMirrorFromStart | crates/analyzer-core/src/plan_xml.rs:336-342 | so that holds after every well-nested stream from the start of input |
| PlanEvents.SegmentsCutAtOperators | crates/analyzer-core/src/plan_xml.rs:305-308 | the segments used there are the open tags between consecutive RelOps |
| PlanEvents.RunPaired | crates/analyzer-core/src/plan_xml.rs:335-340 | on any stream, nested or not, the two stacks stay equally long |
| PlanEvents.SafePairsAgree | crates/analyzer-core/src/plan_xml.rs:333-579 | writing a RelOp, Column, Object, MemoryGrantInfo, PlanAffectingConvert or other safe element as a start/end pair anywhere leaves the parsed plan unchanged |
| PlanEvents.UnsafePairsDiffer | crates/analyzer-core/src/plan_xml.rs:333-616 | for each other element there is a well-nested stream whose plan changes |
| PlanEvents.RewritableIffSafe | crates/analyzer-core/src/plan_xml.rs:333-616 | the two forms are interchangeable in every well-nested stream if and only if the element is of a safe kind |
| PlanEvents.PairsNestAlike | crates/analyzer-core/src/plan_xml.rs:333-616 | the two forms make the same streams well-nested |
| PlanEvents.WellNestedIffDocument | crates/analyzer-core/src/plan_xml.rs:330-636 | a stream is well-nested if and only if it is that of a document: elements in either form, and text |
| PlanEvents.WellNestedIsDescribed | crates/analyzer-core/src/plan_xml.rs:289-636 | so every well-nested stream, text included, is read as the plan its document describes |
| PlanColumns.ColumnsRead | crates/analyzer-core/src/plan_xml.rs:202-262 | inside any operator and under any combination of modes, columns nested in any way among text and unknown elements go, in document order, to exactly the lists of the innermost operator that listen (each name once except for statistics, comparands of other tables left out of seeks) and to the suggestion being read; nothing else in the reader changes |
| PlanColumns.ListenerRead | crates/analyzer-core/src/plan_xml.rs:333-430 | an OrderBy, DefinedValues, SeekPredicates or ColumnsWithNoStatistics element, whatever modes were on, is its tag, those columns under the mode it turns on for an operator of the right kind, and the end of that mode |
| PlanColumns.ColumnsReadBack | crates/analyzer-core/src/plan_xml.rs:202-262 | columns written under such an element come back as written in the list of an operator that listens, after those already there |
| PlanColumns.DistinctArrive | crates/analyzer-core/src/plan_xml.rs:639-648 | columns of distinct names all arrive, in order |
| PlanColumns.ExtendedMeans | crates/analyzer-core/src/plan_xml.rs:217-243 | of any written columns exactly those with a name the list does not have yet are added, in order, each name where it is written first |
| PlanColumns.FirstObjectWins | crates/analyzer-core/src/plan_xml.rs:429-443 | whatever elements are read inside an operator, one of a kind that captures keeps its object or takes the first with a table that stands in it and in no nested operator; no other kind takes one |
| PlanMissing.MissingIndexesRead | crates/analyzer-core/src/plan_xml.rs:376-392 | missing-index blocks at query level or in an operator, under any modes but not inside another suggestion, with columns and text nested in any way and in either form: the suggestions their elements describe are found in document order, without columns exactly if a sort or statistics mode takes them, and nothing changes but lists that listen |
| PlanMissing.MissingIndexesReadBack | crates/analyzer-core/src/plan_xml.rs:376-392 | unless such a mode is on, suggestions written as blocks come back as written, in order, with impact, names and the three column lists |
| PlanMemory.RootHasLastFigures | crates/analyzer-core/src/plan_xml.rs:344-354 | for any stream the root's grant, request and use are the last ones stated anywhere, grants and requests only if positive |
| CreateIndexText.StatementReadsBack | crates/backend/src/scan.rs:81-102 | from any statement on clean identifiers, after any introduction that ends its line without naming the header and before any ending, the parser takes exactly the name, the table, the keys in order and the leading key |
| CreateIndexText.ParsedIsComplete | crates/backend/src/scan.rs:81-102 | whatever the text, what the parser returns has a name, a table and keys, none empty, and the first key leads |
| CreateIndexText.FreshNameIsClean | crates/analyzer-core/src/dmv.rs:754-756 | the names the advisor makes up are always clean, whatever the identifiers |
| CreateIndexText.AdviceReadsBack | crates/analyzer-core/src/dmv.rs:867-876 | every statement of the advisor's batch, new or widening with its note, is read back to its own name, table and keys |
| CreateIndexRest.AdviceShowsTheRest | crates/analyzer-core/src/dmv.rs:865-876 | every statement of the batch shows its own schema and INCLUDE columns, in order, and drops the existing index if and only if it widens one |
| CreateIndexText.LintReadsBack | crates/analyzer-core/src/plan_xml.rs:1139-1207 | the plan lint prints a statement exactly if there are key columns, and it is read back to its name, table and keys, equality columns first |
| CreateIndexRest.LintShowsTheRest | crates/analyzer-core/src/plan_xml.rs:1139-1207 | the plan lint's statement shows the schema, dbo when there is none, and the INCLUDE columns, and never drops an index |
| CreateIndexRest.LintNameMeans | crates/analyzer-core/src/plan_xml.rs:1149-1157 | its index is named after the table and the key columns in order; a character that is no letter, digit or underscore becomes an underscore |
| Commas.WithCommas | crates/analyzer-core/src/dmv.rs:734-745 | commas stand exactly before every third digit from the end, never first, and removing them gives the number back |
| Monitor.Backend.constructor | crates/backend/src/sentinel_api.rs:27-35 | a new process runs nothing |
| Monitor.Backend.Start | crates/backend/src/sentinel_api.rs:213-259 | when a daemon runs or does not come up, nothing changes; else the given instances run with the alerting on file, or the default, and are recorded with it and autostart |
| Monitor.Backend.Stop | crates/backend/src/sentinel_api.rs:261-276 | ends the daemon that runs and clears autostart on file, with the instances and the alerting kept |
| Monitor.Backend.SetAlertConfig | crates/backend/src/sentinel_api.rs:653-689 | records the new alerting and nothing else, leaves an idle daemon idle, and replaces a running one by one on the recorded instances |
| Monitor.Backend.AutostartFromDisk | crates/backend/src/sentinel_api.rs:133-170 | starts a daemon if and only if nothing runs, it comes up, and the file has autostart and an instance; it is the one on file |
| Monitor.RunsKeepRecord | crates/backend/src/sentinel_api.rs:213-276 | in every run of whole handlers and reboots whose writes succeed, the running daemon is the one on file with autostart set, and the only one alive |
| Monitor.RebootRestores | crates/backend/src/sentinel_api.rs:133-170 | after such a run a crash and reboot restore the configuration if and only if it has an instance and the daemon comes up |
| Monitor.AlertingSurvives | crates/backend/src/sentinel_api.rs:233-276 | starts, stops and reboots, failing or not, never change the alerting configuration on file |
| Monitor.RestartUsesLastAlerting | crates/backend/src/sentinel_api.rs:233-276 | so a stop and a start run with the last alerting configuration saved, whatever happened in between |
| MonitorSteps.AtMostOneDaemon | crates/backend/src/sentinel_api.rs:27-35 | in every interleaving of any number of handlers, with any failures and crashes, at most one daemon is alive, in the slot or with the lock holder, and none is leaked |
| MonitorSteps.AloneIsWhole | crates/backend/src/sentinel_api.rs:133-276 | a handler that finds the lock free and is left alone returns within its steps and does what the whole handler does |
| MonitorRuns.StartsAndStopsSerialize | crates/backend/src/sentinel_api.rs:213-276 | however starts, stops and crashes interleave, if writes succeed then whenever the lock is free a running daemon is on file and a reboot restores it |
| MonitorReload.AlertsRaceLosesInstances | crates/backend/src/sentinel_api.rs:653-683 | a run in which a start between the lock-free read and write ends in a daemon without instances that is off record |
| MonitorReload.AlertsRaceAfterWrite | crates/backend/src/sentinel_api.rs:653-683 | a run in which the read is still current at the write and a stop and a start before the lock end in a daemon that is off record |
| MonitorReload.AlertsRaceUndoesStop | crates/backend/src/sentinel_api.rs:653-683 | a run in which a stop between the read and the write leaves nothing running and a file that the next boot relaunches |
| MonitorReload.ReloadEnds | crates/backend/src/sentinel_api.rs:665-683 | whatever the other handlers do, a reload that is not cut short ends with its daemon in the slot and the lock free, and with the file as it was if no other change writes |
| MonitorReload.ReloadIsSafeIffFileAgrees | crates/backend/src/sentinel_api.rs:653-683 | from any reachable state in which a change takes the lock of a running daemon, without crash or failed launch, whatever other handlers do until it returns, short of another change writing the file, the daemon keeps its instances and is on record if and only if the file, when the lock is taken, holds the configuration to be started, with autostart, and these instances |
| MonitorReload.AlwaysSafeIffAllAgree | crates/backend/src/sentinel_api.rs:653-683 | with other changes in flight, every run until its return, on which no further change arrives, is safe if and only if at the lock the file agrees and so does every change still to read or write |
| MonitorReload.StopOutlastsChangeIffReadOff | crates/backend/src/sentinel_api.rs:653-683 | after a stop, a change left alone from its write on keeps autostart off, and the next boot idle, if and only if what it read had it off or, for the boot, named no instance |
| MonitorReload.ChangeIsSafeIffFileIsCurrent | crates/backend/src/sentinel_api.rs:653-683 | at the lock, in any state, a change then left alone does so if and only if the file already says that |
| MonitorReload.ChangeIsSafeIffReadIsCurrent | crates/backend/src/sentinel_api.rs:653-683 | at its write, left alone from there, a change does so if and only if what it read has autostart and the running instances |
| Lint.CapPerRule | crates/analyzer-cli/src/lint.rs:502-520 | kept plus hidden is the count for each rule, and no rule is listed as hidden with zero |
| Lint.KeptAreFirst | crates/analyzer-cli/src/lint.rs:497-520 | of each rule exactly the first min(count, cap) findings are kept, in order; zero means no cap |
| Lint.KeptInOrder | crates/analyzer-cli/src/lint.rs:500-501 | across rules, too, what is kept is a subsequence of the input |
| Lint.RuleIdsDistinct | crates/analyzer-cli/src/lint.rs:744-762 | the catalog's ids are distinct and are the rules of the findings |
| Lint.BuildCatalog | crates/analyzer-cli/src/lint.rs:744-779 | one descriptor for each rule in order of appearance, its level error if and only if a finding of it is an error or critical, note if and only if all are infos, and an index that finds each one |
| Lint.BuildSarif | crates/analyzer-cli/src/lint.rs:730-847 | one result for each kept finding in order, whose ruleIndex resolves to its ruleId (section 3.27.6 of SARIF 2.1.0), its level by the severity, positions at least 1; the catalog covers capped rules too |
| Report.PlanTreemap | crates/analyzer-core/src/report.rs:64-82 | the recursion with its running subtraction shows every operator with its names, id and rows and, in order, those below it; its value is its cost without theirs, at least 0.0001 |
| Report.AreaCoversCost | crates/analyzer-core/src/report.rs:68-82 | whatever the costs, the values sum to at least the root's subtree cost |
| Report.AreaIsBounded | crates/analyzer-core/src/report.rs:68-82 | with nonnegative costs that cover the costs below, the sum exceeds the root's cost by at most 0.0001 an operator |
| Report.AreaIsExact | crates/analyzer-core/src/report.rs:68-82 | when every own share reaches 0.0001 the values divide the root's cost exactly |
| Report.SeverityTimeline | crates/analyzer-core/src/report.rs:84-101 | one bucket a line, each counting, severity by severity, the findings that stand on its line; those without a place stand on the first |
| Report.TimelineConserves | crates/analyzer-core/src/report.rs:84-101 | the buckets count each finding on one of the lines once and no other |

## Left out

- Tokens.Tokenize: the token text of a single punctuation byte of a multi-byte character (the program substitutes the empty string) is not modelled; tokens carry offsets.
- Advise.FreshName: the base name is cut after 120 characters, where the program cuts after 120 bytes and would panic inside a multi-byte character.
- Advise.TableRowCounts: sums of row counts are unbounded, where the program adds 64-bit numbers.
- RedundancyLaws.EveryKeyStillServed: speaks of keys (columns are in RedundancyColumns) and leaves out the overlap merge, which can break it; RedundancyExact.AllServedIffEveryTopStands is the exact condition for all three passes.
- Redundancy.MergePass: usage counts arrive already joined to the indexes, so the join by lower-cased name is not modelled; nor is the later sort by priority.
- PlanLaws.DocTold: states what an operator is told in the view of ParsingInvertsPrinting; PlanTree.MachineDescends is the statement on whole operators.
- PlanLaws.ParsingInvertsPrinting: its view of an operator has no column lists, missing indexes and memory figures, which depend on modes that cross operators; PlanTree.ParsedIsDescribed covers every field, and PlanColumns, PlanMissing and PlanMemory say what those fields mean.
- PlanMissing.MissingIndexesReadBack: written identifiers are names the reader takes unchanged; MissingIndexesRead has no such condition. Suggestions inside suggestions are left to the descent of PlanTree.
- MonitorRuns.StartsAndStopsSerialize: alert changes and autostart are not among the interleaved handlers; an alert change can break the claim (MonitorReload.AlwaysSafeIffAllAgree is the exact condition for its reload), and autostart has finished before the server accepts requests.
- Monitor.Backend.SetAlertConfig: a write either replaces the file or leaves it as it was; torn writes and handlers dropped by a disconnecting client are not modelled.
- Report.AreaIsBounded: costs are real numbers, without rounding and NaN; the same holds for impact and cost in consolidation.
- Lint.BuildSarif: rule descriptions, tags, messages, help links and URI escaping are not part of the log here.
- XML lexing and attribute parsing: the showplan machine starts from events whose attributes are parsed.
- Findings derived from plans (`walk`, memory-grant findings, covering DDL for lookups) and their thresholds: they would add many one-branch facts.
- Ranking, priorities, rationale prose, evidence chips, columnstore, physical and statistics recommendations of the advisor.
- The catalog check of suggestions in crates/backend/src/scan.rs:125-164: three membership conditions.
- The rule bodies, storage, scheduler, alert cooldown and health modules are not part of this model.
- HTTP routing, the database connection, file walking and the web interface.

/**
 Which INCLUDE columns consolidation never loses: exactly those with a name.
 */
module ConsolidateIncludes {
  import opened Wrappers
  import opened Identifiers
  import opened Consolidate
  import opened ConsolidateLaws
  import opened ConsolidateRun

  /** A survivor that stands for row `m` still includes column `c`. */
  ghost predicate Survives(fold: string -> string, missing: seq<MissingIndex>, m: MissingIndex, c: string) {
    var out := Consolidated(fold, missing);
    exists k :: 0 <= k < |out| && TableOf(fold, m) == TableOf(fold, out[k].m)
                && IsKeyPrefix(m.Key(), out[k].m.Key()) && HasColumn(out[k].m.included, c)
  }

  /** Whatever report includes `c` in a keyed row, `c` survives. */
  ghost predicate NeverLost(fold: string -> string, c: string) {
    forall missing: seq<MissingIndex>, m ::
      m in missing && m.Key() != [] && c in m.included ==> Survives(fold, missing, m, c)
  }

  function Row(key: seq<string>, included: seq<string>): MissingIndex {
    MissingIndex("dbo", "t", key, [], included, 0.0, 0, 0.0)
  }

  /** A row that wants `c` between one that includes a blank and a wider one. */
  function LosingReport(c: string): seq<MissingIndex> {
    [Row(["a", "b"], [" "]), Row(["a"], [c]), Row(["a", "b", "d"], [])]
  }

  lemma RowKey(key: seq<string>, included: seq<string>)
    ensures Row(key, included).Key() == key
  {
    assert key + [] == key;
  }

  lemma PrefixesOfOneKey()
    ensures IsKeyPrefix(["a"], ["a", "b"]) && IsKeyPrefix(["a", "b"], ["a", "b", "d"])
    ensures !IsKeyPrefix(["a", "b", "d"], ["a", "b"])
  {
    hide Norm;
  }

  lemma BlankIsNameless()
    ensures Trim(" ") == "" && Norm(" ") == ""
  {
    BlankNorm(" ");
  }

  lemma NamelessNotAdded(c: string)
    requires Norm(c) == ""
    ensures UnionIncludes([" "], [c]) == [" "] && UnionIncludes([], [" "]) == []
  {
    hide Norm, Trim;
    BlankIsNameless();
    assert " " in [" "] && ColEq(" ", c);
    assert WithInclude([" "], c) == [" "] && WithInclude([], " ") == [];
    assert [c][1..] == [] && [" "][1..] == [];
    assert UnionIncludes([" "], []) == [" "] && UnionIncludes([], []) == [];
  }

  lemma LongerIsNoPrefix(a: seq<string>, b: seq<string>)
    requires |b| < |a|
    ensures !IsKeyPrefix(a, b)
  {
    hide Norm;
  }

  /** Two adjacent entries, the second of them wider. */
  lemma SecondAbsorbsFirst(x: Entry, y: Entry)
    requires IsKeyPrefix(x.m.Key(), y.m.Key()) && |x.m.Key()| < |y.m.Key()|
    ensures Merged([x, y]) == [Absorb(y, x)]
  {
    hide IsKeyPrefix, Absorb;
    var list := [x, y];
    LongerIsNoPrefix(y.m.Key(), x.m.Key());
    assert FirstFrom(list, 0, 1) == FirstFrom(list, 0, 2) == FirstFrom(list, 1, 0) == Some((1, 0));
    assert FirstFrom(list, 0, 0) == Some((1, 0));
    assert Without(list, 0) == [y];
    assert MergeAt(list, 1, 0) == [Absorb(y, x)];
    OneStays(Absorb(y, x));
  }

  lemma OneStays(e: Entry)
    ensures Merged([e]) == [e]
  {
    hide IsKeyPrefix;
    AntichainIsFixed([e]);
  }

  lemma FirstAbsorbsSecond(x: Entry, y: Entry, z: Entry)
    requires IsKeyPrefix(y.m.Key(), x.m.Key()) && |y.m.Key()| < |x.m.Key()|
    ensures Merged([x, y, z]) == Merged([Absorb(x, y), z])
  {
    hide IsKeyPrefix, Absorb, Merged;
    var list := [x, y, z];
    assert FirstFrom(list, 0, 1) == Some((0, 1));
    assert FirstFrom(list, 0, 0) == Some((0, 1));
    assert Without(list, 1) == [x, z];
    assert MergeAt(list, 0, 1) == [Absorb(x, y), z];
    MergedStep(list, 0, 1);
  }

  lemma MergedStep(list: seq<Entry>, i: nat, j: nat)
    requires FirstFrom(list, 0, 0) == Some((i, j))
    ensures Merged(list) == Merged(MergeAt(list, i, j))
  {
    hide FirstFrom, MergeAt;
  }

  lemma LosingMerge(c: string)
    requires Norm(c) == ""
    ensures var rows := LosingReport(c);
            var out := Merged([Fresh(rows[0]), Fresh(rows[1]), Fresh(rows[2])]);
            |out| == 1 && out[0].m.included == []
  {
    hide IsKeyPrefix, Merged, Norm, UnionIncludes;
    var rows := LosingReport(c);
    var x, y, z := Fresh(rows[0]), Fresh(rows[1]), Fresh(rows[2]);
    RowKey(["a", "b"], [" "]);
    RowKey(["a"], [c]);
    RowKey(["a", "b", "d"], []);
    PrefixesOfOneKey();
    NamelessNotAdded(c);
    FirstAbsorbsSecond(x, y, z);
    var w := Absorb(x, y);
    assert w.m.Key() == x.m.Key() && w.m.included == [" "];
    SecondAbsorbsFirst(w, z);
    assert Absorb(z, w).m.included == [];
  }

  lemma OneTable(fold: string -> string, c: string)
    ensures var rows := LosingReport(c);
            Consolidated(fold, rows) == Merged([Fresh(rows[0]), Fresh(rows[1]), Fresh(rows[2])])
  {
    hide Merged;
    var rows := LosingReport(c);
    var t := TableOf(fold, rows[0]);
    RowKey(["a", "b"], [" "]);
    RowKey(["a"], [c]);
    RowKey(["a", "b", "d"], []);
    assert rows[..3] == rows;
    GroupsAfter(fold, rows, 0, t);
    GroupsAfter(fold, rows, 1, t);
    GroupsAfter(fold, rows, 2, t);
    NothingGrouped(fold, rows);
    assert rows[..0] == [];
    assert GroupOf(fold, rows, t) == [Fresh(rows[0]), Fresh(rows[1]), Fresh(rows[2])];
    assert Tables(fold, rows) == [t];
    assert [t][1..] == [];
    var m := Merged(GroupOf(fold, rows, t));
    assert ConsolidateTables(fold, rows, [t]) == m + ConsolidateTables(fold, rows, [t][1..]);
    assert m + [] == m;
  }

  /** A column with an empty name, blank or not, can be lost. */
  lemma NamelessCanBeLost(fold: string -> string, c: string)
    requires Norm(c) == ""
    ensures var missing := LosingReport(c); var m := missing[1];
            m.Key() != [] && c in m.included && !Survives(fold, missing, m, c)
  {
    hide Merged, Consolidated, Norm, IsKeyPrefix, TableOf;
    OneTable(fold, c);
    LosingMerge(c);
    RowKey(["a"], [c]);
  }

  /** Consolidation never loses a column if and only if the column has a name:
      something is left of it without white space and brackets. */
  lemma NeverLostIffNamed(fold: string -> string, c: string)
    ensures NeverLost(fold, c) <==> Norm(c) != ""
  {
    hide Consolidated, Norm, IsKeyPrefix, TableOf, LosingReport, HasColumn;
    if Norm(c) == "" {
      NamelessCanBeLost(fold, c);
      assert LosingReport(c)[1] in LosingReport(c) by {
        ReportLength(c);
      }
    } else {
      forall missing: seq<MissingIndex>, m | m in missing && m.Key() != [] && c in m.included
        ensures Survives(fold, missing, m, c)
      {
        var k := EveryRowServed(fold, missing, m);
      }
    }
  }

  lemma ReportLength(c: string)
    ensures |LosingReport(c)| == 3
  {
  }
}

/** SQL Server identifiers as the advisor compares them. */
module Identifiers {
  import opened Strings

  /** The Unicode White_Space characters. */
  predicate IsWhite(c: char) {
    || '\t' <= c <= '\r' || c == ' ' || c == '\U{85}' || c == '\U{A0}' || c == '\U{1680}'
    || '\U{2000}' <= c <= '\U{200A}' || c == '\U{2028}' || c == '\U{2029}' || c == '\U{202F}'
    || c == '\U{205F}' || c == '\U{3000}'
  }

  predicate IsBracket(c: char) { c == '[' || c == ']' }

  function Trim(s: string): string { TrimBoth(s, IsWhite) }

  /** An identifier without surrounding white space and brackets. */
  function Unbr(s: string): string { TrimBoth(Trim(s), IsBracket) }

  /** What two spellings of one column share. */
  function Norm(s: string): string { Lower(Unbr(s)) }

  predicate ColEq(a: string, b: string) { Norm(a) == Norm(b) }

  function Norms(cols: seq<string>): (r: seq<string>)
    ensures |r| == |cols|
    ensures forall k :: 0 <= k < |cols| ==> r[k] == Norm(cols[k])
  {
    seq(|cols|, k requires 0 <= k < |cols| => Norm(cols[k]))
  }

  /** `prefix` starts `full`, column by column; an empty key starts nothing. */
  predicate IsKeyPrefix(prefix: seq<string>, full: seq<string>) {
    && prefix != []
    && |prefix| <= |full|
    && forall k :: 0 <= k < |prefix| ==> ColEq(prefix[k], full[k])
  }

  lemma KeyPrefixIsPrefix(p: seq<string>, f: seq<string>)
    ensures IsKeyPrefix(p, f) <==> p != [] && Norms(p) <= Norms(f)
  {
    hide Norm;
    if p != [] && Norms(p) <= Norms(f) {
      forall k | 0 <= k < |p|
        ensures ColEq(p[k], f[k])
      {
        assert Norms(p)[k] == Norms(f)[k];
      }
    }
  }

  lemma KeyPrefixTransitive(a: seq<string>, b: seq<string>, c: seq<string>)
    requires IsKeyPrefix(a, b) && IsKeyPrefix(b, c)
    ensures IsKeyPrefix(a, c)
  {
    hide Norm;
    forall k | 0 <= k < |a|
      ensures ColEq(a[k], c[k])
    {
      assert ColEq(a[k], b[k]) && ColEq(b[k], c[k]);
    }
  }

  predicate SameColumns(a: seq<string>, b: seq<string>) {
    |a| == |b| && forall k :: 0 <= k < |a| ==> ColEq(a[k], b[k])
  }

  predicate HasColumn(cols: seq<string>, c: string) { exists x :: x in cols && ColEq(x, c) }

  /** No column stands in the list twice. */
  ghost predicate NoRepeats(cols: seq<string>) {
    forall i, j :: 0 <= i < j < |cols| ==> !ColEq(cols[i], cols[j])
  }

  // ---- what a name is --------------------------------------------------------------------

  /** White space as it is met in names, spelled out. */
  predicate IsBlank(c: char) { c == ' ' || c == '\t' || c == '\n' || c == '\r' || c == '\U{A0}' || c == '\U{3000}' }

  /** A printable ASCII character other than a bracket. */
  predicate IsPlain(c: char) { '!' <= c <= '~' && c != '[' && c != ']' }

  /** The ends of `core` are neither blank nor brackets. */
  predicate IsBareName(core: string) { core != "" && IsPlain(core[0]) && IsPlain(core[|core| - 1]) }

  /** A name is compared without the white space and the brackets around it, and
      without regard to ASCII case. */
  lemma NormOfWritten(a: string, open: string, core: string, close: string, b: string)
    requires (forall c :: c in a ==> IsBlank(c)) && (forall c :: c in b ==> IsBlank(c))
    requires (forall c :: c in open ==> c == '[' || c == ']') && (forall c :: c in close ==> c == '[' || c == ']')
    requires IsBareName(core)
    ensures Trim(a + (open + core + close) + b) == open + core + close
    ensures Unbr(a + (open + core + close) + b) == core
    ensures Norm(a + (open + core + close) + b) == Lower(core)
  {
    hide TrimBoth;
    var q := open + core + close;
    assert q[0] == if open == "" then core[0] else open[0];
    assert q[|q| - 1] == if close == "" then core[|core| - 1] else close[|close| - 1];
    assert open != "" ==> open[0] in open;
    assert close != "" ==> close[|close| - 1] in close;
    TrimBothOfPadded(a, q, b, IsWhite);
    TrimBothOfPadded(open, core, close, IsBracket);
  }

  lemma LowerAgrees(a: string, b: string)
    ensures Lower(a) == Lower(b) <==> |a| == |b| && forall k :: 0 <= k < |a| ==> LowerChar(a[k]) == LowerChar(b[k])
  {
    hide LowerChar;
    var x, y := Lower(a), Lower(b);
    if x == y {
      forall k | 0 <= k < |a|
        ensures LowerChar(a[k]) == LowerChar(b[k])
      {
        assert x[k] == y[k];
      }
    }
  }

  lemma NormOfBare(core: string)
    requires IsBareName(core)
    ensures Norm(core) == Lower(core)
  {
    hide TrimBoth, Norm, Lower;
    NormOfWritten("", "", core, "", "");
    assert "" + ("" + core + "") + "" == core;
  }

  /** So two spellings of a name are one column if and only if their letters agree. */
  lemma SameColumnIffSameLetters(a: string, b: string)
    requires IsBareName(a) && IsBareName(b)
    ensures ColEq(a, b) <==> |a| == |b| && forall k :: 0 <= k < |a| ==> LowerChar(a[k]) == LowerChar(b[k])
  {
    hide Norm, Lower, LowerChar;
    NormOfBare(a);
    NormOfBare(b);
    LowerAgrees(a, b);
  }
}

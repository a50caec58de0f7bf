/** The string operations the analyzer leans on, and the facts about them. */
module Strings {
  import opened Wrappers

  // ---- ASCII case --------------------------------------------------------------

  function LowerChar(c: char): char {
    if 'A' <= c <= 'Z' then (c as int + 32) as char else c
  }

  function Lower(s: string): (r: string)
    ensures |r| == |s|
    ensures forall k :: 0 <= k < |s| ==> r[k] == LowerChar(s[k])
  {
    seq(|s|, k requires 0 <= k < |s| => LowerChar(s[k]))
  }

  function Upper(s: string): string {
    seq(|s|, k requires 0 <= k < |s| => if 'a' <= s[k] <= 'z' then (s[k] as int - 32) as char else s[k])
  }

  predicate EqIgnoreCase(a: string, b: string) { Lower(a) == Lower(b) }

  lemma LowerConcat(a: string, b: string)
    ensures Lower(a + b) == Lower(a) + Lower(b)
  {
  }

  lemma UpperConcat(a: string, b: string)
    ensures Upper(a + b) == Upper(a) + Upper(b)
  {
  }

  /** The two alphabets, letter by letter. */
  lemma CaseOfLetters()
    ensures Lower("ABCDEFGHIJKLM") == "abcdefghijklm" && Lower("NOPQRSTUVWXYZ") == "nopqrstuvwxyz"
    ensures Upper("abcdefghijklm") == "ABCDEFGHIJKLM" && Upper("nopqrstuvwxyz") == "NOPQRSTUVWXYZ"
  {
  }

  /** The ASCII letters change case one by one, and nothing else changes. */
  lemma AsciiCase(s: string)
    ensures Lower("ABCDEFGHIJKLM") + Lower("NOPQRSTUVWXYZ") == "abcdefghijklm" + "nopqrstuvwxyz"
    ensures Upper("abcdefghijklm") + Upper("nopqrstuvwxyz") == "ABCDEFGHIJKLM" + "NOPQRSTUVWXYZ"
    ensures Lower(s) == s <==> forall k :: 0 <= k < |s| ==> !('A' <= s[k] <= 'Z')
    ensures Upper(s) == s <==> forall k :: 0 <= k < |s| ==> !('a' <= s[k] <= 'z')
  {
    CaseOfLetters();
    forall k | 0 <= k < |s|
      ensures Lower(s)[k] == s[k] <==> !('A' <= s[k] <= 'Z')
      ensures Upper(s)[k] == s[k] <==> !('a' <= s[k] <= 'z')
    {
    }
  }

  // ---- affixes and search ------------------------------------------------------

  predicate EndsWith(s: string, suffix: string) {
    |suffix| <= |s| && s[|s| - |suffix|..] == suffix
  }

  /** Offset of the first occurrence of `pat`. */
  function Find(s: string, pat: string): (r: Option<nat>)
    ensures r.Some? ==> r.value + |pat| <= |s|
  {
    if pat <= s then Some(0)
    else if s == [] then None
    else match Find(s[1..], pat) case None => None case Some(n) => Some(n + 1)
  }

  lemma {:induction false} FindIsFirst(s: string, pat: string, n: nat)
    requires n + |pat| <= |s| && pat <= s[n..]
    requires forall k :: 0 <= k < n ==> !(pat <= s[k..])
    ensures Find(s, pat) == Some(n)
  {
    assert s[0..] == s;
    if n > 0 {
      assert !(pat <= s[0..]);
      forall k | 0 <= k < n - 1
        ensures !(pat <= s[1..][k..])
      {
        assert s[1..][k..] == s[k + 1..];
      }
      FindIsFirst(s[1..], pat, n - 1);
    }
  }

  lemma {:induction false} FindMisses(s: string, pat: string, k: nat)
    requires Find(s, pat) == None && k <= |s|
    ensures !(pat <= s[k..])
  {
    assert s[0..] == s;
    if k > 0 {
      FindMisses(s[1..], pat, k - 1);
      assert s[1..][k - 1..] == s[k..];
    }
  }

  /** A byte is found where it first stands. */
  lemma FindByte(a: string, c: char, b: string)
    requires c !in a
    ensures Find(a + [c] + b, [c]) == Some(|a|)
  {
    var s := a + [c] + b;
    assert s[|a|..] == [c] + b;
    forall k | 0 <= k < |a|
      ensures !([c] <= s[k..])
    {
      assert s[k..][0] == a[k];
    }
    FindIsFirst(s, [c], |a|);
  }

  // ---- trimming ----------------------------------------------------------------

  function DropWhile(s: string, p: char -> bool): (r: string)
    ensures r != [] ==> !p(r[0])
  {
    if s != [] && p(s[0]) then DropWhile(s[1..], p) else s
  }

  function DropWhileEnd(s: string, p: char -> bool): (r: string)
    ensures r != [] ==> !p(r[|r| - 1])
    ensures r <= s
  {
    if s != [] && p(s[|s| - 1]) then DropWhileEnd(s[..|s| - 1], p) else s
  }

  function TrimBoth(s: string, p: char -> bool): (r: string)
    ensures r != [] ==> !p(r[0]) && !p(r[|r| - 1])
  {
    DropWhileEnd(DropWhile(s, p), p)
  }

  lemma TrimBothOfTrimmed(s: string, p: char -> bool)
    requires s != [] ==> !p(s[0]) && !p(s[|s| - 1])
    ensures TrimBoth(s, p) == s
  {
  }

  /** Padding that satisfies `p` is trimmed away. */
  lemma {:induction false} TrimBothOfPadded(a: string, core: string, b: string, p: char -> bool)
    requires core != [] && !p(core[0]) && !p(core[|core| - 1])
    requires (forall c :: c in a ==> p(c)) && (forall c :: c in b ==> p(c))
    ensures TrimBoth(a + core + b, p) == core
  {
    hide DropWhile, DropWhileEnd;
    DropPadding(a, core + b, p);
    assert a + (core + b) == a + core + b;
    DropEndPadding(core, b, p);
  }

  lemma {:induction false} DropPadding(a: string, s: string, p: char -> bool)
    requires forall c :: c in a ==> p(c)
    requires s != [] ==> !p(s[0])
    ensures DropWhile(a + s, p) == s
  {
    if a == [] {
      assert a + s == s;
    } else {
      assert (a + s)[1..] == a[1..] + s;
      assert a[0] in a;
      DropPadding(a[1..], s, p);
    }
  }

  lemma {:induction false} DropEndPadding(s: string, b: string, p: char -> bool)
    requires forall c :: c in b ==> p(c)
    requires s != [] ==> !p(s[|s| - 1])
    ensures DropWhileEnd(s + b, p) == s
  {
    if b == [] {
      assert s + b == s;
    } else {
      var n := |s| + |b| - 1;
      assert (s + b)[..n] == s + b[..|b| - 1];
      assert b[|b| - 1] in b && (s + b)[n] == b[|b| - 1];
      DropEndPadding(s, b[..|b| - 1], p);
    }
  }

  // ---- splitting ---------------------------------------------------------------

  predicate IsDot(c: char) { c == '.' }

  /** The pieces of `s` between the bytes that satisfy `p`; never empty. */
  function Split(s: string, p: char -> bool): (r: seq<string>)
    ensures r != []
  {
    if s == [] then [""]
    else
      var r := Split(s[1..], p);
      if p(s[0]) then [""] + r else [[s[0]] + r[0]] + r[1..]
  }

  lemma {:induction false} SplitNoSeparator(s: string, p: char -> bool)
    requires forall k :: 0 <= k < |s| ==> !p(s[k])
    ensures Split(s, p) == [s]
  {
    if s != [] {
      SplitNoSeparator(s[1..], p);
      assert [s[0]] + s[1..] == s;
    }
  }

  lemma {:induction false} SplitAtSeparator(a: string, c: char, b: string, p: char -> bool)
    requires forall k :: 0 <= k < |a| ==> !p(a[k])
    requires p(c)
    ensures Split(a + [c] + b, p) == [a] + Split(b, p)
  {
    var s := a + [c] + b;
    if a == [] {
      assert s == [c] + b;
    } else {
      assert s[0] == a[0] && [a[0]] + a[1..] == a;
      assert s[1..] == a[1..] + [c] + b;
      SplitAtSeparator(a[1..], c, b, p);
    }
  }

  /** What follows the last separator. */
  lemma {:induction false} LastPiece(a: string, c: char, b: string, p: char -> bool)
    requires p(c)
    requires forall k :: 0 <= k < |b| ==> !p(b[k])
    ensures var r := Split(a + [c] + b, p); |r| > 1 && r[|r| - 1] == b
    decreases |a|
  {
    var s := a + [c] + b;
    SplitNoSeparator(b, p);
    if a == [] {
      assert s[1..] == b;
    } else {
      assert s[1..] == a[1..] + [c] + b;
      LastPiece(a[1..], c, b, p);
    }
  }
}

/** Counts as the advisor prints them, with a comma before every third digit from the end. */
module Commas {
  import opened Advise

  predicate IsDigitChar(c: char) { '0' <= c <= '9' }

  predicate NotComma(c: char) { c != ',' }

  lemma {:induction false} DecimalDigits(n: nat)
    ensures forall k :: 0 <= k < |Decimal(n)| ==> IsDigitChar(Decimal(n)[k])
  {
    if n >= 10 {
      DecimalDigits(n / 10);
    }
  }

  lemma {:induction false} KeepSnoc(s: string, c: char, p: char -> bool)
    ensures Keep(s + [c], p) == Keep(s, p) + if p(c) then [c] else []
  {
    if s == [] {
      assert [c][1..] == [] && Keep([c], p) == (if p(c) then [c] else []) + Keep([], p);
    } else {
      assert (s + [c])[1..] == s[1..] + [c];
      KeepSnoc(s[1..], c, p);
    }
  }

  /** Length of `digits` digits with their separators. */
  function Grouped(digits: nat): nat { if digits == 0 then 0 else digits + (digits - 1) / 3 }

  /** Every third digit from the end is preceded by a comma, except at the very
      start, and without the commas the digits are those of `n`. */
  method WithCommas(n: nat) returns (out: string)
    ensures Keep(out, NotComma) == Decimal(n)
    ensures forall k :: 0 <= k < |out| ==> (out[k] == ',' <==> (|out| - k) % 4 == 0)
    ensures out != "" && out[0] != ','
  {
    hide Keep, Decimal;
    var s := Decimal(n);
    DecimalDigits(n);
    NothingKept();
    out := "";
    ghost var length := Grouped(|s|);
    for i := 0 to |s|
      invariant Keep(out, NotComma) == s[..i]
      invariant |out| == if i == 0 then 0 else length - (|s| - i) - (|s| - i) / 3
      invariant forall k :: 0 <= k < |out| ==> (out[k] == ',' <==> (length - k) % 4 == 0)
      invariant i > 0 ==> out != "" && out[0] != ','
    {
      var left := |s| - i;
      if i != 0 && left % 3 == 0 {
        KeepSnoc(out, ',', NotComma);
        out := out + ",";
      }
      assert length - |out| == left + (left - 1) / 3;
      DigitPlace(left);
      KeepSnoc(out, s[i], NotComma);
      out := out + [s[i]];
      assert s[..i + 1] == s[..i] + [s[i]];
    }
    assert s[..|s|] == s;
  }

  lemma NothingKept()
    ensures Keep("", NotComma) == ""
  {
  }

  /** A digit never stands where a comma belongs. */
  lemma DigitPlace(left: nat)
    requires left > 0
    ensures (left + (left - 1) / 3) % 4 != 0
  {
    var q, t := (left - 1) / 3, (left - 1) % 3;
    assert left + q == 4 * q + 1 + t;
  }
}

/** Trimming the bytes of a text is trimming its characters: the white space of
    Suppress, spelled in UTF-8, is exactly Unicode's. */
module SuppressWhite {
  import opened Strings
  import opened Utf8
  import opened Suppress
  import I = Identifiers

  /** The Unicode White_Space characters by code. */
  predicate IsWhiteCode(n: int) {
    || 9 <= n <= 13 || n == 0x20 || n == 0x85 || n == 0xA0 || n == 0x1680 || 0x2000 <= n <= 0x200A
    || n == 0x2028 || n == 0x2029 || n == 0x202F || n == 0x205F || n == 0x3000
  }

  lemma WhiteByCode(c: char)
    ensures I.IsWhite(c) <==> IsWhiteCode(c as int)
  {
  }

  /** Length of the white-space character `c`; 0 if it is none. */
  function WhiteLength(c: char): nat { if IsWhiteCode(c as int) then |EncodeChar(c)| else 0 }

  lemma SixBits(n: int)
    requires 0 <= n
    ensures n == n / 4096 * 4096 + n / 64 % 64 * 64 + n % 64 && n == n / 64 * 64 + n % 64
  {
    assert n / 4096 == n / 64 / 64;
  }

  lemma TwoByteWhite(n: int)
    requires 0x80 <= n < 0x800
    ensures IsWhite2(AsByte(0xC0 + n / 64), Tail(n)) <==> IsWhiteCode(n)
  {
    SixBits(n);
  }

  lemma ThreeByteWhite(n: int)
    requires 0x800 <= n < 0x1_0000
    ensures IsWhite3(AsByte(0xE0 + n / 4096), Tail(n / 64), Tail(n)) <==> IsWhiteCode(n)
  {
    SixBits(n);
  }

  /** Every byte of an encoded character after its first. */
  predicate IsTrailing(b: char) { 0x80 <= b as int < 0xC0 }

  lemma TailIsTrailing(n: int)
    requires 0 <= n
    ensures IsTrailing(Tail(n))
  {
  }

  lemma WhiteHeadOfChar(c: char, rest: string)
    ensures WhiteHead(EncodeChar(c) + rest) == WhiteLength(c)
  {
    hide IsWhite2, IsWhite3, IsWhiteCode, Tail;
    var n, s := c as int, EncodeChar(c) + rest;
    HeadClasses(s);
    AsciiWhite(c);
    if n >= 0x80 {
      if n < 0x800 {
        TwoByteWhite(n);
      } else if n < 0x1_0000 {
        ThreeByteWhite(n);
      } else {
        HighIsNotWhite(n);
      }
    }
  }

  lemma AsciiWhite(c: char)
    ensures c as int < 0x80 ==> (IsAsciiWhite(c) <==> IsWhiteCode(c as int))
    ensures c as int >= 0x80 ==> !IsAsciiWhite(c)
  {
  }

  lemma HighIsNotWhite(n: int)
    requires n >= 0x1_0000
    ensures !IsWhiteCode(n)
  {
  }

  /** Which first byte a white-space character of which length has. */
  lemma HeadClasses(s: string)
    ensures |s| >= 2 && IsWhite2(s[0], s[1]) ==> s[0] as int == 0xC2
    ensures |s| >= 3 && IsWhite3(s[0], s[1], s[2]) ==> 0xE1 <= s[0] as int <= 0xE3
  {
  }

  lemma WhiteTailOfChar(a: string, c: char)
    ensures WhiteTail(a + EncodeChar(c)) == WhiteLength(c)
  {
    hide IsWhite2, IsWhite3, IsWhiteCode, Tail;
    var n, s := c as int, a + EncodeChar(c);
    TailClasses(s);
    AsciiWhite(c);
    if n >= 0x80 {
      TailIsTrailing(n);
      if n < 0x800 {
        TwoByteWhite(n);
      } else if n < 0x1_0000 {
        TailIsTrailing(n / 64);
        ThreeByteWhite(n);
      } else {
        TailIsTrailing(n / 64);
        TailIsTrailing(n / 4096);
        HighIsNotWhite(n);
      }
    }
  }

  lemma TailClasses(s: string)
    ensures var m := |s|;
            && (m >= 2 && IsWhite2(s[m - 2], s[m - 1]) ==> s[m - 2] as int == 0xC2 && IsTrailing(s[m - 1]))
            && (m >= 3 && IsWhite3(s[m - 3], s[m - 2], s[m - 1]) ==>
                  0xE1 <= s[m - 3] as int <= 0xE3 && IsTrailing(s[m - 2]) && IsTrailing(s[m - 1]))
  {
  }

  lemma {:induction false} TrimStartOfEncoding(text: string)
    ensures TrimStart(Encode(text)) == Encode(DropWhile(text, I.IsWhite))
  {
    hide WhiteHead, EncodeChar, IsWhiteCode, I.IsWhite;
    if text == "" {
      NothingWhite();
    } else {
      var head, rest := EncodeChar(text[0]), Encode(text[1..]);
      assert Encode(text) == head + rest && (head + rest)[|head|..] == rest;
      WhiteHeadOfChar(text[0], rest);
      WhiteByCode(text[0]);
      TrimStartOfEncoding(text[1..]);
    }
  }

  lemma NothingWhite()
    ensures WhiteHead("") == 0 && WhiteTail("") == 0
  {
  }

  lemma {:induction false} TrimEndOfEncoding(text: string)
    ensures TrimEnd(Encode(text)) == Encode(DropWhileEnd(text, I.IsWhite))
    decreases |text|
  {
    hide WhiteTail, EncodeChar, Encode, IsWhiteCode, I.IsWhite;
    if text == "" {
      NothingWhite();
      EncodedOne(' ');
    } else {
      var n := |text| - 1;
      var before, last := Encode(text[..n]), EncodeChar(text[n]);
      assert text == text[..n] + [text[n]];
      EncodeConcat(text[..n], [text[n]]);
      EncodedOne(text[n]);
      assert Encode(text) == before + last && (before + last)[..|before|] == before;
      WhiteTailOfChar(before, text[n]);
      WhiteByCode(text[n]);
      TrimEndOfEncoding(text[..n]);
    }
  }

  lemma EncodedOne(c: char)
    ensures Encode([c]) == EncodeChar(c) && Encode("") == []
  {
    hide EncodeChar;
    assert [c][1..] == "";
  }

  /** Specs and rule lists are trimmed of Unicode white space, character by character. */
  lemma TrimOfEncoding(text: string)
    ensures Trim(Encode(text)) == Encode(I.Trim(text))
  {
    TrimStartOfEncoding(text);
    TrimEndOfEncoding(DropWhile(text, I.IsWhite));
  }
}

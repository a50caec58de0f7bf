/**
 Reading the bytes of a file as text: byte order marks, UTF-16 recognised by
 shape, UTF-8, and Windows-1252 as the guess that cannot fail.
 */
module Decode {
  import opened Wrappers
  import opened Utf8

  // ---- UTF-8 (RFC 3629) ------------------------------------------------------------------

  predicate IsScalar(n: int) { 0 <= n < 0xD800 || 0xE000 <= n < 0x11_0000 }

  function Code(bytes: seq<byte>, k: nat): int
    requires k < |bytes|
  {
    bytes[k] as int
  }

  predicate IsTail(n: int) { 0x80 <= n < 0xC0 }

  /** What the lead byte and its followers spell, shortest form or not. */
  function Spelled(bytes: seq<byte>): int {
    if bytes == [] then -1
    else
      var b := Code(bytes, 0);
      if b < 0x80 then b
      else if |bytes| < 2 || !IsTail(Code(bytes, 1)) then -1
      else if b < 0xE0 then (b - 0xC0) * 64 + Code(bytes, 1) - 0x80
      else if |bytes| < 3 || !IsTail(Code(bytes, 2)) then -1
      else if b < 0xF0 then (b - 0xE0) * 4096 + (Code(bytes, 1) - 0x80) * 64 + Code(bytes, 2) - 0x80
      else if |bytes| < 4 || !IsTail(Code(bytes, 3)) then -1
      else (b - 0xF0) * 262144 + (Code(bytes, 1) - 0x80) * 4096 + (Code(bytes, 2) - 0x80) * 64 + Code(bytes, 3) - 0x80
  }

  /** The first character, if it is a scalar value in its shortest form. */
  function FirstChar(bytes: seq<byte>): (r: Option<char>)
    ensures r.Some? ==> EncodeChar(r.value) <= bytes
  {
    var n := Spelled(bytes);
    if IsScalar(n) && EncodeChar(n as char) <= bytes then Some(n as char) else None
  }

  function FromUtf8(bytes: seq<byte>): Option<string>
    decreases |bytes|
  {
    if bytes == [] then Some("")
    else
      match FirstChar(bytes)
      case None => None
      case Some(c) =>
        match FromUtf8(bytes[|EncodeChar(c)|..])
        case None => None
        case Some(rest) => Some([c] + rest)
  }

  lemma SixBitGroups(n: nat)
    ensures n == n / 64 * 64 + n % 64
    ensures n == n / 4096 * 4096 + n / 64 % 64 * 64 + n % 64
    ensures n == n / 262144 * 262144 + n / 4096 % 64 * 4096 + n / 64 % 64 * 64 + n % 64
  {
    assert n / 4096 == n / 64 / 64 && n / 262144 == n / 4096 / 64;
  }

  lemma TailCode(n: nat)
    ensures Tail(n) as int == 0x80 + n % 64
  {
  }

  lemma TwoSpelled(c: char, rest: seq<byte>)
    requires 0x80 <= c as int < 0x800
    ensures Spelled(EncodeChar(c) + rest) == c as int
  {
    hide Tail;
    var n := c as int;
    SixBitGroups(n);
    TailCode(n);
    assert EncodeChar(c) + rest == [AsByte(0xC0 + n / 64), Tail(n)] + rest;
  }

  lemma ThreeSpelled(c: char, rest: seq<byte>)
    requires 0x800 <= c as int < 0x1_0000
    ensures Spelled(EncodeChar(c) + rest) == c as int
  {
    hide Tail;
    var n := c as int;
    SixBitGroups(n);
    TailCode(n);
    TailCode(n / 64);
    assert EncodeChar(c) + rest == [AsByte(0xE0 + n / 4096), Tail(n / 64), Tail(n)] + rest;
  }

  lemma FourSpelled(c: char, rest: seq<byte>)
    requires 0x1_0000 <= c as int
    ensures Spelled(EncodeChar(c) + rest) == c as int
  {
    hide Tail;
    var n := c as int;
    SixBitGroups(n);
    TailCode(n);
    TailCode(n / 64);
    TailCode(n / 4096);
    assert EncodeChar(c) + rest == [AsByte(0xF0 + n / 262144), Tail(n / 4096), Tail(n / 64), Tail(n)] + rest;
  }

  lemma FirstCharEncoded(c: char, rest: seq<byte>)
    ensures FirstChar(EncodeChar(c) + rest) == Some(c)
  {
    var n := c as int;
    if n < 0x80 {
      assert Spelled(EncodeChar(c) + rest) == n;
    } else if n < 0x800 {
      TwoSpelled(c, rest);
    } else if n < 0x1_0000 {
      ThreeSpelled(c, rest);
    } else {
      FourSpelled(c, rest);
    }
    assert EncodeChar(n as char) <= EncodeChar(c) + rest by {
      hide EncodeChar;
    }
  }

  lemma {:induction false} EncodedIsRead(text: string)
    ensures FromUtf8(Encode(text)) == Some(text)
  {
    hide EncodeChar, FirstChar;
    if text != "" {
      var c, rest := text[0], Encode(text[1..]);
      FirstCharEncoded(c, rest);
      EncodedIsRead(text[1..]);
      assert Encode(text) == EncodeChar(c) + rest && Encode(text)[|EncodeChar(c)|..] == rest;
      assert [c] + text[1..] == text;
    }
  }

  lemma {:induction false} ReadIsEncoded(bytes: seq<byte>)
    requires FromUtf8(bytes).Some?
    ensures Encode(FromUtf8(bytes).value) == bytes
    decreases |bytes|
  {
    hide EncodeChar, FirstChar;
    if bytes != [] {
      var c := FirstChar(bytes).value;
      var rest := bytes[|EncodeChar(c)|..];
      ReadIsEncoded(rest);
      var text := [c] + FromUtf8(rest).value;
      assert text[0] == c && text[1..] == FromUtf8(rest).value;
      assert bytes == EncodeChar(c) + rest;
    }
  }

  /** UTF-8 reading accepts exactly the encodings, and inverts them. */
  lemma Utf8Inverse(bytes: seq<byte>, text: string)
    ensures FromUtf8(bytes) == Some(text) <==> bytes == Encode(text)
  {
    hide Encode, FromUtf8;
    EncodedIsRead(text);
    if FromUtf8(bytes).Some? {
      ReadIsEncoded(bytes);
    }
  }

  // ---- UTF-16 (RFC 2781) --------------------------------------------------------------------

  type u16 = n: nat | n < 0x1_0000

  function CharUnits(c: char): (r: seq<u16>)
    ensures 1 <= |r| <= 2
  {
    var n := c as int;
    if n < 0x1_0000 then [n] else [0xD800 + (n - 0x1_0000) / 0x400, 0xDC00 + (n - 0x1_0000) % 0x400]
  }

  function Units(text: string): seq<u16> {
    if text == [] then [] else CharUnits(text[0]) + Units(text[1..])
  }

  predicate IsHigh(u: u16) { 0xD800 <= u < 0xDC00 }

  predicate IsLow(u: u16) { 0xDC00 <= u < 0xE000 }

  /** None at an unpaired surrogate. */
  function FromUnits(units: seq<u16>): Option<string>
    decreases |units|
  {
    if units == [] then Some("")
    else if !IsHigh(units[0]) && !IsLow(units[0]) then
      match FromUnits(units[1..]) case None => None case Some(rest) => Some([units[0] as char] + rest)
    else if IsHigh(units[0]) && |units| > 1 && IsLow(units[1]) then
      var c := (0x1_0000 + (units[0] as int - 0xD800) * 0x400 + (units[1] as int - 0xDC00)) as char;
      match FromUnits(units[2..]) case None => None case Some(rest) => Some([c] + rest)
    else None
  }

  lemma FirstUnits(c: char, rest: seq<u16>)
    ensures FromUnits(CharUnits(c) + rest) ==
            match FromUnits(rest) case None => None case Some(text) => Some([c] + text)
  {
    var units := CharUnits(c) + rest;
    if c as int < 0x1_0000 {
      assert units[1..] == rest;
    } else {
      assert units[2..] == rest;
    }
  }

  /** Reading code units accepts exactly what writing produces, and inverts it. */
  lemma {:induction false} UnitsInverse(units: seq<u16>, text: string)
    ensures FromUnits(units) == Some(text) <==> units == Units(text)
    decreases |units| + |text|
  {
    if text != "" {
      FirstUnits(text[0], Units(text[1..]));
      if units == Units(text) {
        UnitsInverse(Units(text[1..]), text[1..]);
        assert [text[0]] + text[1..] == text;
      }
    }
    if units != [] && FromUnits(units) == Some(text) {
      var n := if IsHigh(units[0]) then 2 else 1;
      assert text[1..] == FromUnits(units[n..]).value;
      UnitsInverse(units[n..], text[1..]);
      assert CharUnits(text[0]) == units[..n];
      assert units == units[..n] + units[n..];
    }
  }

  function UnitBytes(u: u16, bigEndian: bool): seq<byte> {
    if bigEndian then [AsByte(u / 256), AsByte(u % 256)] else [AsByte(u % 256), AsByte(u / 256)]
  }

  function AllUnitBytes(units: seq<u16>, bigEndian: bool): (r: seq<byte>)
    ensures |r| == 2 * |units|
  {
    if units == [] then [] else UnitBytes(units[0], bigEndian) + AllUnitBytes(units[1..], bigEndian)
  }

  function UnitAt(bytes: seq<byte>, bigEndian: bool): u16
    requires |bytes| >= 2
  {
    if bigEndian then Code(bytes, 0) * 256 + Code(bytes, 1) else Code(bytes, 1) * 256 + Code(bytes, 0)
  }

  function UnitsIn(bytes: seq<byte>, bigEndian: bool): seq<u16>
    requires |bytes| % 2 == 0
  {
    if bytes == [] then [] else [UnitAt(bytes, bigEndian)] + UnitsIn(bytes[2..], bigEndian)
  }

  lemma {:induction false} BytesInverse(bytes: seq<byte>, units: seq<u16>, bigEndian: bool)
    requires |bytes| % 2 == 0
    ensures UnitsIn(bytes, bigEndian) == units <==> bytes == AllUnitBytes(units, bigEndian)
    decreases |bytes|
  {
    if bytes != [] && units != [] {
      BytesInverse(bytes[2..], units[1..], bigEndian);
      UnitInverse(bytes, units[0], bigEndian);
      assert bytes == bytes[..2] + bytes[2..];
      assert units == [units[0]] + units[1..];
      assert UnitsIn(bytes, bigEndian)[1..] == UnitsIn(bytes[2..], bigEndian);
      assert AllUnitBytes(units, bigEndian)[..2] == UnitBytes(units[0], bigEndian);
      assert AllUnitBytes(units, bigEndian)[2..] == AllUnitBytes(units[1..], bigEndian);
    }
  }

  lemma UnitInverse(bytes: seq<byte>, u: u16, bigEndian: bool)
    requires |bytes| >= 2
    ensures UnitAt(bytes, bigEndian) == u <==> bytes[..2] == UnitBytes(u, bigEndian)
  {
    var a, b := bytes[0], bytes[1];
    assert bytes[..2] == [a, b];
    SmallByte(a);
    SmallByte(b);
  }

  /** A text as UTF-16 bytes. */
  function Utf16(text: string, bigEndian: bool): seq<byte> { AllUnitBytes(Units(text), bigEndian) }

  function FromUtf16(bytes: seq<byte>, bigEndian: bool): Option<string> {
    if |bytes| % 2 != 0 then None else FromUnits(UnitsIn(bytes, bigEndian))
  }

  /** UTF-16 reading accepts exactly the encodings, surrogate pairs included,
      and inverts them. */
  lemma Utf16Inverse(bytes: seq<byte>, text: string, bigEndian: bool)
    ensures FromUtf16(bytes, bigEndian) == Some(text) <==> bytes == Utf16(text, bigEndian)
  {
    hide UnitsIn, AllUnitBytes, FromUnits, Units;
    if |bytes| % 2 == 0 {
      UnitsInverse(UnitsIn(bytes, bigEndian), text);
      BytesInverse(bytes, Units(text), bigEndian);
    }
  }

  // ---- UTF-16 without a byte order mark -------------------------------------------------------

  const NUL: byte := '\0'
  const SAMPLE := 1024

  /** The NUL bytes at offsets of one parity. */
  function Nuls(s: seq<byte>, parity: nat): nat {
    if s == [] then 0
    else
      var n := |s| - 1;
      Nuls(s[..n], parity) + if s[n] == NUL && n % 2 == parity then 1 else 0
  }

  function Sample(bytes: seq<byte>): seq<byte> { if |bytes| <= SAMPLE then bytes else bytes[..SAMPLE] }

  /** Some(big endian?) if NULs fill one half of the bytes and only that half. */
  function Sniffed(bytes: seq<byte>): Option<bool> {
    if |bytes| < 4 || |bytes| % 2 != 0 then None
    else
      var s := Sample(bytes);
      var pairs := |s| / 2;
      if Nuls(s, 1) * 10 >= pairs * 8 && Nuls(s, 0) == 0 then Some(false)
      else if Nuls(s, 0) * 10 >= pairs * 8 && Nuls(s, 1) == 0 then Some(true)
      else None
  }

  method SniffBomlessUtf16(bytes: seq<byte>) returns (r: Option<bool>)
    ensures r == Sniffed(bytes)
  {
    if |bytes| < 4 || |bytes| % 2 != 0 {
      return None;
    }
    var sample := if |bytes| <= SAMPLE then bytes else bytes[..SAMPLE];
    var evenNul, oddNul := 0, 0;
    for i := 0 to |sample|
      invariant evenNul == Nuls(sample[..i], 0) && oddNul == Nuls(sample[..i], 1)
    {
      assert sample[..i + 1][..i] == sample[..i];
      if sample[i] == NUL {
        if i % 2 == 0 {
          evenNul := evenNul + 1;
        } else {
          oddNul := oddNul + 1;
        }
      }
    }
    assert sample[..|sample|] == sample;
    var pairs := |sample| / 2;
    if oddNul * 10 >= pairs * 8 && evenNul == 0 {
      return Some(false);
    }
    if evenNul * 10 >= pairs * 8 && oddNul == 0 {
      return Some(true);
    }
    return None;
  }

  lemma {:induction false} NoNuls(s: seq<byte>, parity: nat)
    requires forall k :: 0 <= k < |s| && k % 2 == parity ==> s[k] != NUL
    ensures Nuls(s, parity) == 0
  {
    if s != [] {
      NoNuls(s[..|s| - 1], parity);
    }
  }

  lemma {:induction false} AllNuls(s: seq<byte>, parity: nat)
    requires parity < 2 && forall k :: 0 <= k < |s| && k % 2 == parity ==> s[k] == NUL
    ensures Nuls(s, parity) == (|s| + 1 - parity) / 2
  {
    if s != [] {
      AllNuls(s[..|s| - 1], parity);
    }
  }

  /** The offsets of one parity, below `n`, that hold a NUL. */
  function NulsAt(bytes: seq<byte>, n: nat, parity: nat): set<nat>
    requires n <= |bytes|
  {
    set k: nat | k < n && bytes[k] == '\0' && k % 2 == parity
  }

  lemma {:induction false} NulsCounted(bytes: seq<byte>, n: nat, parity: nat)
    requires n <= |bytes|
    ensures Nuls(bytes[..n], parity) == |NulsAt(bytes, n, parity)|
    decreases n
  {
    if n > 0 {
      assert bytes[..n][..n - 1] == bytes[..n - 1];
      NulsCounted(bytes, n - 1, parity);
      if bytes[n - 1] == '\0' && (n - 1) % 2 == parity {
        assert NulsAt(bytes, n, parity) == NulsAt(bytes, n - 1, parity) + {n - 1};
      } else {
        assert NulsAt(bytes, n, parity) == NulsAt(bytes, n - 1, parity);
      }
    }
  }

  /** Unmarked bytes are taken for UTF-16 exactly if there is an even number of them, at
      least four, and in the first 1024 the high bytes of one byte order are NUL in four
      of five pairs or more and the low bytes never. */
  lemma SniffedByCount(bytes: seq<byte>, bigEndian: bool)
    ensures var n := if |bytes| < 1024 then |bytes| else 1024;
            var high, low := if bigEndian then 0 else 1, if bigEndian then 1 else 0;
            Sniffed(bytes) == Some(bigEndian) <==>
            && |bytes| >= 4 && |bytes| % 2 == 0
            && 5 * |NulsAt(bytes, n, high)| >= 4 * (n / 2) && NulsAt(bytes, n, low) == {}
  {
    hide Nuls, NulsAt;
    var n := if |bytes| < 1024 then |bytes| else 1024;
    assert Sample(bytes) == bytes[..n];
    NulsCounted(bytes, n, 0);
    NulsCounted(bytes, n, 1);
  }

  /** Bytes without a NUL are never taken for UTF-16. */
  lemma NulFreeNotSniffed(bytes: seq<byte>)
    requires NUL !in bytes
    ensures Sniffed(bytes) == None
  {
    hide Nuls;
    forall k | 0 <= k < |bytes|
      ensures bytes[k] != NUL
    {
      assert bytes[k] in bytes;
    }
    NoNuls(Sample(bytes), 0);
    NoNuls(Sample(bytes), 1);
  }

  /** Characters whose high byte is NUL and whose low byte is not. */
  predicate OneByte(text: string) { forall k :: 0 <= k < |text| ==> 0 < text[k] as int < 0x100 }

  lemma {:induction false} OneByteUtf16(text: string, bigEndian: bool)
    requires OneByte(text)
    ensures var b := Utf16(text, bigEndian); var nul := if bigEndian then 0 else 1;
            && |b| == 2 * |text|
            && (forall k :: 0 <= k < |b| ==> (b[k] == NUL <==> k % 2 == nul))
            && forall k :: 0 <= k < |text| ==> b[2 * k + 1 - nul] == text[k]
    decreases |text|
  {
    var b := Utf16(text, bigEndian);
    if text != [] {
      var rest := Utf16(text[1..], bigEndian);
      var head := UnitBytes(text[0] as int, bigEndian);
      OneByteUtf16(text[1..], bigEndian);
      OneByteHead(text, bigEndian);
      assert b == head + rest;
      forall k | 0 <= k < |b|
        ensures b[k] == NUL <==> k % 2 == (if bigEndian then 0 else 1)
      {
        if k >= 2 {
          assert b[k] == rest[k - 2];
        }
      }
      forall k | 0 <= k < |text|
        ensures b[2 * k + if bigEndian then 1 else 0] == text[k]
      {
        if k > 0 {
          assert b[2 * k + if bigEndian then 1 else 0] == rest[2 * (k - 1) + if bigEndian then 1 else 0];
        }
      }
    }
  }

  lemma OneByteHead(text: string, bigEndian: bool)
    requires OneByte(text) && text != []
    ensures Units(text) == [text[0] as int] + Units(text[1..])
    ensures UnitBytes(text[0] as int, bigEndian) == if bigEndian then [NUL, text[0]] else [text[0], NUL]
  {
    hide AsByte;
    var n := text[0] as int;
    assert n / 256 == 0 && n % 256 == n;
    SmallByte(text[0]);
  }

  lemma SmallByte(c: byte)
    ensures AsByte(c as int) == c && AsByte(0) == NUL
  {
  }

  lemma OneByteSniffed(text: string, bigEndian: bool)
    requires OneByte(text) && |text| >= 2
    ensures Sniffed(Utf16(text, bigEndian)) == Some(bigEndian)
  {
    hide Nuls, Utf16;
    OneByteUtf16(text, bigEndian);
    var s := Sample(Utf16(text, bigEndian));
    AllNuls(s, if bigEndian then 0 else 1);
    NoNuls(s, if bigEndian then 1 else 0);
  }

  // ---- Windows-1252 -------------------------------------------------------------------------------

  /** The code page's own characters, 0x80 to 0x9F; the five undefined bytes are
      the C1 controls. */
  function High(n: int): char
    requires 0x80 <= n < 0xA0
  {
    match n
    case 0x80 => '\U{20AC}' case 0x81 => '\U{81}'   case 0x82 => '\U{201A}' case 0x83 => '\U{0192}'
    case 0x84 => '\U{201E}' case 0x85 => '\U{2026}' case 0x86 => '\U{2020}' case 0x87 => '\U{2021}'
    case 0x88 => '\U{02C6}' case 0x89 => '\U{2030}' case 0x8A => '\U{0160}' case 0x8B => '\U{2039}'
    case 0x8C => '\U{0152}' case 0x8D => '\U{8D}'   case 0x8E => '\U{017D}' case 0x8F => '\U{8F}'
    case 0x90 => '\U{90}'   case 0x91 => '\U{2018}' case 0x92 => '\U{2019}' case 0x93 => '\U{201C}'
    case 0x94 => '\U{201D}' case 0x95 => '\U{2022}' case 0x96 => '\U{2013}' case 0x97 => '\U{2014}'
    case 0x98 => '\U{02DC}' case 0x99 => '\U{2122}' case 0x9A => '\U{0161}' case 0x9B => '\U{203A}'
    case 0x9C => '\U{0153}' case 0x9D => '\U{9D}'   case 0x9E => '\U{017E}' case _ => '\U{0178}'
  }

  /** The code points of bytes 0x80 to 0x9F, sixteen to a row pair, by the code page. */
  const CODE_POINTS: seq<int> := [
    0x20AC, 0x0081, 0x201A, 0x0192, 0x201E, 0x2026, 0x2020, 0x2021,
    0x02C6, 0x2030, 0x0160, 0x2039, 0x0152, 0x008D, 0x017D, 0x008F,
    0x0090, 0x2018, 0x2019, 0x201C, 0x201D, 0x2022, 0x2013, 0x2014,
    0x02DC, 0x2122, 0x0161, 0x203A, 0x0153, 0x009D, 0x017E, 0x0178]

  /** Every byte reads as its code page character. */
  lemma Windows1252ByCodePage(bytes: seq<byte>, k: nat)
    requires k < |bytes|
    ensures |CODE_POINTS| == 32
    ensures var b, r := bytes[k] as int, Windows1252(bytes)[k] as int;
            r == if 0x80 <= b < 0xA0 then CODE_POINTS[b - 0x80] else b
  {
    HighByCodePage(if 0x80 <= bytes[k] as int < 0xA0 then bytes[k] as int else 0x80);
  }

  lemma HighByCodePage(n: int)
    requires 0x80 <= n < 0xA0
    ensures |CODE_POINTS| == 32 && High(n) as int == CODE_POINTS[n - 0x80]
  {
  }

  function Windows1252Char(b: byte): char {
    if 0x80 <= b as int < 0xA0 then High(b as int) else b
  }

  function Windows1252(bytes: seq<byte>): (r: string)
    ensures |r| == |bytes|
    ensures forall k :: 0 <= k < |bytes| ==> r[k] == Windows1252Char(bytes[k])
  {
    seq(|bytes|, k requires 0 <= k < |bytes| => Windows1252Char(bytes[k]))
  }

  lemma HighInjective(a: int, b: int)
    requires 0x80 <= a < 0xA0 && 0x80 <= b < 0xA0 && High(a) == High(b)
    ensures a == b
  {
  }

  lemma HighIsOutside(a: int, b: byte)
    requires 0x80 <= a < 0xA0 && !(0x80 <= b as int < 0xA0)
    ensures High(a) != b
  {
  }

  lemma Windows1252CharInjective(a: byte, b: byte)
    requires Windows1252Char(a) == Windows1252Char(b)
    ensures a == b
  {
    hide High;
    if 0x80 <= a as int < 0xA0 && 0x80 <= b as int < 0xA0 {
      HighInjective(a as int, b as int);
    } else if 0x80 <= a as int < 0xA0 {
      HighIsOutside(a as int, b);
    } else if 0x80 <= b as int < 0xA0 {
      HighIsOutside(b as int, a);
    }
  }

  /** The Windows-1252 reading loses nothing: one character a byte, and
      different bytes give different text. */
  lemma Windows1252LosesNothing(a: seq<byte>, b: seq<byte>)
    ensures |Windows1252(a)| == |a|
    ensures Windows1252(a) == Windows1252(b) ==> a == b
  {
    hide Windows1252Char;
    if Windows1252(a) == Windows1252(b) {
      forall k | 0 <= k < |a|
        ensures a[k] == b[k]
      {
        assert Windows1252(a)[k] == Windows1252(b)[k];
        Windows1252CharInjective(a[k], b[k]);
      }
    }
  }

  // ---- any file ---------------------------------------------------------------------------------------

  datatype Encoding = PlainUtf8 | Utf16LE | Utf16BE | Utf16LENoBom | Utf16BENoBom | GuessedWindows1252

  datatype Source = Source(text: string, encoding: Encoding)
  {
    /** The encoding was a guess, to be disclosed. */
    predicate Lossy() { encoding == GuessedWindows1252 }
  }

  const BOM_LE: seq<byte> := ['\U{FF}', '\U{FE}']
  const BOM_BE: seq<byte> := ['\U{FE}', '\U{FF}']
  const BOM_UTF8: seq<byte> := ['\U{EF}', '\U{BB}', '\U{BF}']

  function As(text: Option<string>, encoding: Encoding): Option<Source> {
    match text case None => None case Some(t) => Some(Source(t, encoding))
  }

  /** None is an error: bytes announced as an encoding they are not in. */
  function Decoded(bytes: seq<byte>): Option<Source> {
    if BOM_LE <= bytes then As(FromUtf16(bytes[2..], false), Utf16LE)
    else if BOM_BE <= bytes then As(FromUtf16(bytes[2..], true), Utf16BE)
    else if BOM_UTF8 <= bytes then As(FromUtf8(bytes[3..]), PlainUtf8)
    else
      match Sniffed(bytes)
      case Some(bigEndian) => As(FromUtf16(bytes, bigEndian), if bigEndian then Utf16BENoBom else Utf16LENoBom)
      case None =>
        match FromUtf8(bytes)
        case Some(text) => Some(Source(text, PlainUtf8))
        case None => Some(Source(Windows1252(bytes), GuessedWindows1252))
  }

  predicate StartsWithBom(bytes: seq<byte>) { BOM_LE <= bytes || BOM_BE <= bytes || BOM_UTF8 <= bytes }

  /** Text written as UTF-16 with a byte order mark is read back, in both byte
      orders, and nothing else is read from such a file. */
  lemma MarkedUtf16RoundTrips(bytes: seq<byte>, text: string)
    ensures Decoded(['\U{FF}', '\U{FE}'] + bytes) == Some(Source(text, Utf16LE)) <==> bytes == Utf16(text, false)
    ensures Decoded(['\U{FE}', '\U{FF}'] + bytes) == Some(Source(text, Utf16BE)) <==> bytes == Utf16(text, true)
  {
    hide FromUtf16, FromUtf8, Sniffed, Windows1252, Utf16;
    assert (BOM_LE + bytes)[2..] == bytes && (BOM_BE + bytes)[2..] == bytes;
    assert (BOM_BE + bytes)[0] == BOM_BE[0];
    Utf16Inverse(bytes, text, false);
    Utf16Inverse(bytes, text, true);
  }

  lemma MarkedUtf8RoundTrips(bytes: seq<byte>, text: string)
    ensures Decoded(['\U{EF}', '\U{BB}', '\U{BF}'] + bytes) == Some(Source(text, PlainUtf8)) <==> bytes == Encode(text)
  {
    hide FromUtf16, FromUtf8, Sniffed, Windows1252, Encode;
    assert (BOM_UTF8 + bytes)[3..] == bytes && (BOM_UTF8 + bytes)[0] == BOM_UTF8[0];
    Utf8Inverse(bytes, text);
  }

  /** UTF-16 without a mark is recognised and read back for every text of two or
      more characters below U+0100 other than NUL, ASCII in particular. */
  lemma UnmarkedUtf16RoundTrips(text: string, bigEndian: bool)
    requires OneByte(text) && |text| >= 2
    ensures Decoded(Utf16(text, bigEndian)) ==
            Some(Source(text, if bigEndian then Utf16BENoBom else Utf16LENoBom))
  {
    hide FromUtf16, FromUtf8, Sniffed, Windows1252, Utf16;
    var bytes := Utf16(text, bigEndian);
    OneByteUtf16(text, bigEndian);
    assert bytes[0] == NUL || bytes[1] == NUL;
    OneByteSniffed(text, bigEndian);
    Utf16Inverse(bytes, text, bigEndian);
  }

  const BOM := '\U{FEFF}'

  lemma BomEncoded()
    ensures EncodeChar(BOM) == BOM_UTF8
  {
    var n := BOM as int;
    assert n / 4096 == 0xF && n / 64 % 64 == 0x3B && n % 64 == 0x3F;
  }

  lemma OnlyBomEncodedSo(c: char)
    requires BOM_UTF8 <= EncodeChar(c)
    ensures c == BOM
  {
    hide EncodeChar, FirstChar;
    BomEncoded();
    var more := EncodeChar(c)[3..];
    FirstCharEncoded(c, []);
    FirstCharEncoded(BOM, more);
    assert EncodeChar(c) + [] == EncodeChar(BOM) + more;
  }

  lemma EncodedLead(c: char)
    ensures EncodeChar(c)[0] as int <= 0xF4
    ensures |EncodeChar(c)| != 3 ==> EncodeChar(c)[0] as int != 0xEF
  {
  }

  /** A UTF-8 text starts with the mark's bytes only if it starts with the mark. */
  lemma EncodedBom(text: string)
    ensures var b := Encode(text); StartsWithBom(b) <==> text != "" && text[0] == BOM
  {
    hide EncodeChar;
    if text != "" {
      var head, rest := EncodeChar(text[0]), Encode(text[1..]);
      EncodedLead(text[0]);
      BomEncoded();
      if BOM_UTF8 <= head {
        OnlyBomEncodedSo(text[0]);
      }
      assert Encode(text) == head + rest && Encode(text)[0] == head[0];
      if |head| >= 3 {
        assert Encode(text)[..3] == head[..3];
      }
    }
  }

  /** Unmarked UTF-8 is read back exactly when it does not start with U+FEFF and
      its NULs do not make it look like UTF-16. */
  lemma Utf8RoundTrips(text: string)
    ensures Decoded(Encode(text)) == Some(Source(text, PlainUtf8)) <==>
            !(text != "" && text[0] == BOM) && Sniffed(Encode(text)) == None
  {
    hide FromUtf16, FromUtf8, Sniffed, Windows1252, Encode;
    var bytes := Encode(text);
    EncodedBom(text);
    Utf8Inverse(bytes, text);
    if BOM_UTF8 <= bytes {
      Utf8Inverse(bytes[3..], text);
      assert |bytes[3..]| < |bytes|;
    }
  }

  lemma {:induction false} EncodeNulFree(text: string)
    requires NUL !in text
    ensures NUL !in Encode(text)
  {
    if text != [] {
      assert text[0] in text && forall c :: c in text[1..] ==> c in text;
      EncodeNulFree(text[1..]);
    }
  }

  /** In particular every text without NUL and without the mark. */
  lemma NulFreeUtf8RoundTrips(text: string)
    requires NUL !in text && !(text != "" && text[0] == BOM)
    ensures Decoded(Encode(text)) == Some(Source(text, PlainUtf8))
  {
    hide Decoded, Encode, Sniffed;
    EncodeNulFree(text);
    NulFreeNotSniffed(Encode(text));
    Utf8RoundTrips(text);
  }

  /** A file with neither mark nor the look of UTF-16 is always read, and the
      reading is a guess exactly when the bytes are not UTF-8. */
  lemma UnmarkedNeverFails(bytes: seq<byte>)
    requires !StartsWithBom(bytes) && Sniffed(bytes) == None
    ensures var r := Decoded(bytes);
            && r.Some?
            && (r.value.Lossy() <==> forall text :: bytes != Encode(text))
            && (!r.value.Lossy() ==> Encode(r.value.text) == bytes)
            && (r.value.Lossy() ==> |r.value.text| == |bytes|)
  {
    hide FromUtf16, FromUtf8, Sniffed, Encode;
    forall text
      ensures FromUtf8(bytes) == Some(text) <==> bytes == Encode(text)
    {
      Utf8Inverse(bytes, text);
    }
    if FromUtf8(bytes).Some? {
      assert bytes == Encode(FromUtf8(bytes).value);
    }
  }
}

/** UTF-8 (RFC 3629), written byte by byte: a byte is the character with its code. */
module Utf8 {
  type byte = c: char | c as int < 0x100 witness 'a'

  function AsByte(n: int): byte
    requires 0 <= n < 0x100
  {
    n as char
  }

  function Tail(n: int): byte
    requires 0 <= n
  {
    AsByte(0x80 + n % 64)
  }

  function EncodeChar(c: char): (r: seq<byte>)
    ensures 1 <= |r| <= 4
    ensures c as int < 0x80 ==> r == [c]
    ensures c as int >= 0x80 ==> forall k :: 0 <= k < |r| ==> r[k] as int >= 0x80
  {
    var n := c as int;
    if n < 0x80 then [c]
    else if n < 0x800 then [AsByte(0xC0 + n / 64), Tail(n)]
    else if n < 0x1_0000 then [AsByte(0xE0 + n / 4096), Tail(n / 64), Tail(n)]
    else [AsByte(0xF0 + n / 262144), Tail(n / 4096), Tail(n / 64), Tail(n)]
  }

  function Encode(text: string): (r: seq<byte>)
    ensures text == [] <==> r == []
  {
    if text == [] then [] else EncodeChar(text[0]) + Encode(text[1..])
  }

  lemma {:induction false} EncodeConcat(a: string, b: string)
    ensures Encode(a + b) == Encode(a) + Encode(b)
  {
    if a == [] {
      assert a + b == b;
    } else {
      assert (a + b)[1..] == a[1..] + b;
      EncodeConcat(a[1..], b);
    }
  }
}

/**
  Bytes, as client/lib/audit-disclosure.ts and the Node.js buffers it uses handle them.

  Bitwise operations go digit by digit through the binary numerals. Each of the encodings
  here, little-endian numbers of a fixed width, hexadecimal text and UTF-8, is proved to determine
  what it encodes, which is what commitments need of it. Hexadecimal text is decoded as leniently
  as Node.js does.
 */
module Bytes {
  import opened Options

  type byte = x: int | 0 <= x < 256

  // ---------------------------------------------------------------- bitwise operators

  function Xor(a: nat, b: nat): nat
    decreases a + b
  {
    if a == 0 && b == 0 then 0
    else (if a % 2 != b % 2 then 1 else 0) + 2 * Xor(a / 2, b / 2)
  }

  function Or(a: nat, b: nat): nat
    decreases a + b
  {
    if a == 0 && b == 0 then 0
    else (if a % 2 == 1 || b % 2 == 1 then 1 else 0) + 2 * Or(a / 2, b / 2)
  }

  lemma {:induction false} XorZeroIff(a: nat, b: nat)
    ensures Xor(a, b) == 0 <==> a == b
    decreases a + b
  {
    if a != 0 || b != 0 {
      XorZeroIff(a / 2, b / 2);
    }
  }

  lemma {:induction false} OrZeroIff(a: nat, b: nat)
    ensures Or(a, b) == 0 <==> a == 0 && b == 0
    decreases a + b
  {
    if a != 0 || b != 0 {
      OrZeroIff(a / 2, b / 2);
    }
  }

  // ---------------------------------------------------------------- numbers

  function Pow256(k: nat): nat {
    if k == 0 then 1 else 256 * Pow256(k - 1)
  }

  // The low k bytes of n, least significant first.
  function LittleEndian(n: nat, k: nat): (r: seq<byte>)
    ensures |r| == k
  {
    if k == 0 then [] else [n % 256] + LittleEndian(n / 256, k - 1)
  }

  lemma {:induction false} LittleEndianInjective(m: nat, n: nat, k: nat)
    requires m < Pow256(k) && n < Pow256(k) && LittleEndian(m, k) == LittleEndian(n, k)
    ensures m == n
  {
    if k > 0 {
      assert LittleEndian(m, k)[0] == LittleEndian(n, k)[0];
      assert LittleEndian(m, k)[1..] == LittleEndian(n, k)[1..];
      LittleEndianInjective(m / 256, n / 256, k - 1);
    }
  }

  // ---------------------------------------------------------------- hexadecimal text

  function HexDigit(n: nat): char
    requires n < 16
  {
    if n < 10 then (n + '0' as int) as char else (n - 10 + 'a' as int) as char
  }

  function HexValue(c: char): Option<nat> {
    if '0' <= c <= '9' then Some(c as int - '0' as int)
    else if 'a' <= c <= 'f' then Some(c as int - 'a' as int + 10)
    else if 'A' <= c <= 'F' then Some(c as int - 'A' as int + 10)
    else None
  }

  function ToHex(b: seq<byte>): string {
    if b == [] then [] else [HexDigit(b[0] / 16), HexDigit(b[0] % 16)] + ToHex(b[1..])
  }

  // Buffer.from(text, 'hex'): decoding stops at the first pair that is not two hex digits.
  function FromHex(text: string): seq<byte> {
    if |text| < 2 || HexValue(text[0]).None? || HexValue(text[1]).None? then []
    else [ByteOf(HexValue(text[0]).value, HexValue(text[1]).value)] + FromHex(text[2..])
  }

  function ByteOf(high: nat, low: nat): byte {
    (16 * high + low) % 256
  }

  lemma DigitValue(n: nat)
    requires n < 16
    ensures HexValue(HexDigit(n)) == Some(n)
  {
  }

  lemma PairValue(b: byte)
    ensures ByteOf(b / 16, b % 16) == b
  {
  }

  lemma PairStep(c: char, d: char, text: string)
    requires HexValue(c).Some? && HexValue(d).Some?
    ensures FromHex([c, d] + text) == [ByteOf(HexValue(c).value, HexValue(d).value)] + FromHex(text)
  {
    assert ([c, d] + text)[2..] == text;
  }

  lemma HexPair(b: byte, text: string)
    ensures FromHex([HexDigit(b / 16), HexDigit(b % 16)] + text) == [b] + FromHex(text)
  {
    DigitValue(b / 16);
    DigitValue(b % 16);
    PairValue(b);
    PairStep(HexDigit(b / 16), HexDigit(b % 16), text);
  }

  lemma {:induction false} HexRoundTrip(b: seq<byte>)
    ensures FromHex(ToHex(b)) == b
  {
    if b != [] {
      HexRoundTrip(b[1..]);
      HexPair(b[0], ToHex(b[1..]));
      assert b == [b[0]] + b[1..];
    }
  }

  // ---------------------------------------------------------------- UTF-8

  function EncodeChar(c: char): seq<byte> {
    var n := c as int;
    if n < 0x80 then [n]
    else if n < 0x800 then [0xC0 + n / 64, 0x80 + n % 64]
    else if n < 0x1_0000 then [0xE0 + n / 4096, 0x80 + n / 64 % 64, 0x80 + n % 64]
    else [0xF0 + n / 262144, 0x80 + n / 4096 % 64, 0x80 + n / 64 % 64, 0x80 + n % 64]
  }

  function Utf8(s: string): seq<byte> {
    if s == [] then [] else EncodeChar(s[0]) + Utf8(s[1..])
  }

  // The first byte gives the length of a character's code, and the code gives the character.
  lemma EncodeCharPrefixFree(c: char, d: char, x: seq<byte>, y: seq<byte>)
    requires EncodeChar(c) + x == EncodeChar(d) + y
    ensures c == d && x == y
  {
    var a, b := EncodeChar(c), EncodeChar(d);
    assert a[0] == (a + x)[0] == (b + y)[0] == b[0];
    assert |a| == |b|;
    assert a == (a + x)[..|a|] == (b + y)[..|b|] == b;
    SameCodeSameChar(c, d);
    assert x == (a + x)[|a|..] && y == (b + y)[|b|..];
  }

  lemma DigitsDetermine(m: nat, n: nat)
    ensures m % 64 == n % 64 && m / 64 == n / 64 ==> m == n
    ensures m % 64 == n % 64 && m / 64 % 64 == n / 64 % 64 && m / 4096 == n / 4096 ==> m == n
    ensures m % 64 == n % 64 && m / 64 % 64 == n / 64 % 64 && m / 4096 % 64 == n / 4096 % 64 && m / 262144 == n / 262144
            ==> m == n
  {
    assert m / 4096 == m / 64 / 64 && n / 4096 == n / 64 / 64;
    assert m / 262144 == m / 4096 / 64 && n / 262144 == n / 4096 / 64;
  }

  lemma SameCodeSameChar(c: char, d: char)
    requires EncodeChar(c) == EncodeChar(d)
    ensures c == d
  {
    var a, b := EncodeChar(c), EncodeChar(d);
    var m: nat, n: nat := c as int, d as int;
    assert |a| == |b| && a[0] == b[0];
    DigitsDetermine(m, n);
    if |a| == 2 {
      assert a[1] == b[1];
    } else if |a| == 3 {
      assert a[1] == b[1] && a[2] == b[2];
    } else if |a| == 4 {
      assert a[1] == b[1] && a[2] == b[2] && a[3] == b[3];
    }
    assert m == n;
  }

  lemma {:induction false} Utf8Injective(s: string, t: string)
    requires Utf8(s) == Utf8(t)
    ensures s == t
  {
    if s != [] && t != [] {
      EncodeCharPrefixFree(s[0], t[0], Utf8(s[1..]), Utf8(t[1..]));
      Utf8Injective(s[1..], t[1..]);
    }
  }
}

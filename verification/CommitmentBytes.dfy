/** The bytes that are hashed for a commitment, read back by the rules of each encoding in them. */
module CommitmentBytes {
  import opened Bytes
  import opened Options
  import opened Seqs
  import opened CanonicalJson
  import opened Json
  import opened AuditDisclosure

  // ---------------------------------------------------------------- numbers

  // The number that bytes stand for, least significant first.
  function ValueOf(b: seq<byte>): nat {
    if b == [] then 0 else b[0] + 256 * ValueOf(b[1..])
  }

  lemma {:induction false} LittleEndianReads(n: nat, k: nat)
    requires n < Pow256(k)
    ensures ValueOf(LittleEndian(n, k)) == n
  {
    if k > 0 {
      LittleEndianReads(n / 256, k - 1);
      assert LittleEndian(n, k)[1..] == LittleEndian(n / 256, k - 1);
    }
  }

  // ---------------------------------------------------------------- UTF-8

  function Above(b: byte, mark: nat): nat
    requires mark <= b
  {
    b as int - mark
  }

  predicate IsTrail(b: byte) {
    0x80 <= b < 0xC0
  }

  // The code point at the start of b and the number of its bytes, by section 3 of RFC 3629.
  function FirstCode(b: seq<byte>): Option<(nat, nat)> {
    if b == [] then None
    else if b[0] < 0x80 then Some((b[0], 1))
    else if 0xC0 <= b[0] < 0xE0 && |b| >= 2 && IsTrail(b[1]) then
      AtLeastCode(0x80, Above(b[0], 0xC0) * 0x40 + Above(b[1], 0x80), 2)
    else if 0xE0 <= b[0] < 0xF0 && |b| >= 3 && IsTrail(b[1]) && IsTrail(b[2]) then
      AtLeastCode(0x800, (Above(b[0], 0xE0) * 0x40 + Above(b[1], 0x80)) * 0x40 + Above(b[2], 0x80), 3)
    else if 0xF0 <= b[0] < 0xF8 && |b| >= 4 && IsTrail(b[1]) && IsTrail(b[2]) && IsTrail(b[3]) then
      AtLeastCode(0x1_0000,
                  ((Above(b[0], 0xF0) * 0x40 + Above(b[1], 0x80)) * 0x40 + Above(b[2], 0x80)) * 0x40
                  + Above(b[3], 0x80), 4)
    else None
  }

  // No overlong form.
  function AtLeastCode(least: nat, code: nat, length: nat): (r: Option<(nat, nat)>)
    ensures r.Some? ==> r.value == (code, length)
  {
    if code >= least then Some((code, length)) else None
  }

  predicate IsScalar(code: nat) {
    code < 0xD800 || 0xE000 <= code < 0x11_0000
  }

  function DecodeUtf8(b: seq<byte>): Option<string>
    decreases |b|
  {
    if b == [] then Some([])
    else match FirstCode(b)
      case None => None
      case Some((code, length)) =>
        if length == 0 || length > |b| || !IsScalar(code) then None
        else match DecodeUtf8(b[length..])
          case None => None
          case Some(rest) => Some([code as char] + rest)
  }

  lemma ThreeDigits(n: nat)
    ensures (n / 4096 * 0x40 + n / 64 % 64) * 0x40 + n % 64 == n
    ensures ((n / 262144 * 0x40 + n / 4096 % 64) * 0x40 + n / 64 % 64) * 0x40 + n % 64 == n
  {
  }

  lemma CodeReads(c: char, rest: seq<byte>)
    ensures FirstCode(EncodeChar(c) + rest) == Some((c as int, |EncodeChar(c)|))
  {
    var e := EncodeChar(c);
    var all := e + rest;
    assert forall i :: 0 <= i < |e| ==> all[i] == e[i];
    ThreeDigits(c as int);
  }

  lemma {:induction false} Utf8Reads(s: string)
    ensures DecodeUtf8(Utf8(s)) == Some(s)
  {
    if s != [] {
      var e, rest := EncodeChar(s[0]), Utf8(s[1..]);
      Utf8Reads(s[1..]);
      CodeReads(s[0], rest);
      assert (e + rest)[|e|..] == rest;
      assert s == [s[0]] + s[1..];
    }
  }

  // ---------------------------------------------------------------- hexadecimal text

  const LOWER_DIGITS := "0123456789abcdef"
  const UPPER_DIGITS := "0123456789ABCDEF"

  predicate IsDigit(c: char, d: nat) {
    d < 16 && (c == LOWER_DIGITS[d] || c == UPPER_DIGITS[d])
  }

  lemma HexValueIff(c: char, d: nat)
    ensures HexValue(c) == Some(d) <==> IsDigit(c, d)
  {
  }

  lemma HexDigitIs(d: nat)
    requires d < 16
    ensures HexDigit(d) == LOWER_DIGITS[d]
  {
  }

  /** Two lower-case digits for each byte. */
  lemma {:induction false} ToHexAt(b: seq<byte>, i: nat)
    requires i < |b|
    ensures |ToHex(b)| == 2 * |b|
    ensures ToHex(b)[2 * i] == LOWER_DIGITS[b[i] / 16] && ToHex(b)[2 * i + 1] == LOWER_DIGITS[b[i] % 16]
  {
    HexDigitIs(b[i] / 16);
    HexDigitIs(b[i] % 16);
    if i > 0 {
      ToHexAt(b[1..], i - 1);
    } else if |b| > 1 {
      ToHexAt(b[1..], 0);
    }
  }

  predicate PairAt(text: string, i: nat, b: byte) {
    2 * i + 1 < |text| && IsDigit(text[2 * i], b / 16) && IsDigit(text[2 * i + 1], b % 16)
  }

  lemma PairShift(text: string, i: nat, b: byte)
    requires |text| >= 2
    ensures PairAt(text, i + 1, b) <==> PairAt(text[2..], i, b)
  {
  }

  lemma NoFirstPair(text: string, b: byte)
    requires FromHex(text) == []
    ensures !PairAt(text, 0, b)
  {
    if PairAt(text, 0, b) {
      HexValueIff(text[0], b / 16);
      HexValueIff(text[1], b % 16);
    }
  }

  lemma {:induction false} PairsRead(text: string, i: nat)
    requires i < |FromHex(text)|
    ensures PairAt(text, i, FromHex(text)[i])
    decreases |text|
  {
    FirstPair(text);
    if i > 0 {
      PairsRead(text[2..], i - 1);
      PairShift(text, i - 1, FromHex(text)[i]);
    }
  }

  lemma {:induction false} NoPairBehind(text: string, b: byte)
    ensures !PairAt(text, |FromHex(text)|, b)
    decreases |text|
  {
    if FromHex(text) == [] {
      NoFirstPair(text, b);
    } else {
      FirstPair(text);
      NoPairBehind(text[2..], b);
      PairShift(text, |FromHex(text)| - 1, b);
    }
  }

  /** Decoding takes pairs of digits of either case and stops at the first pair that is none. */
  lemma FromHexReads(text: string)
    ensures forall i :: 0 <= i < |FromHex(text)| ==> PairAt(text, i, FromHex(text)[i])
    ensures forall b: byte :: !PairAt(text, |FromHex(text)|, b)
  {
    forall i | 0 <= i < |FromHex(text)| ensures PairAt(text, i, FromHex(text)[i]) {
      PairsRead(text, i);
    }
    forall b: byte ensures !PairAt(text, |FromHex(text)|, b) {
      NoPairBehind(text, b);
    }
  }

  lemma FirstPair(text: string)
    requires FromHex(text) != []
    ensures PairAt(text, 0, FromHex(text)[0]) && FromHex(text)[1..] == FromHex(text[2..])
  {
    var high, low := HexValue(text[0]).value, HexValue(text[1]).value;
    HexValueIff(text[0], high);
    HexValueIff(text[1], low);
    PairOf(high, low);
  }

  lemma PairOf(high: nat, low: nat)
    requires high < 16 && low < 16
    ensures ByteOf(high, low) / 16 == high && ByteOf(high, low) % 16 == low
  {
  }

  // ---------------------------------------------------------------- the bytes that are hashed

  lemma DomainReads()
    ensures |DOMAIN_SEPARATOR| == 15 && DecodeUtf8(DOMAIN_SEPARATOR) == Some("SYNCRO_AUDIT_V1")
  {
    DomainIsUtf8("SYNCRO_AUDIT_V1", DOMAIN_SEPARATOR);
    Utf8Reads("SYNCRO_AUDIT_V1");
  }

  // ASCII text is its own bytes.
  lemma {:induction false} DomainIsUtf8(text: string, b: seq<byte>)
    requires |text| == |b| && forall i :: 0 <= i < |b| ==> text[i] as int == b[i] < 0x80
    ensures Utf8(text) == b
  {
    if text != [] {
      DomainIsUtf8(text[1..], b[1..]);
      assert b == [b[0]] + b[1..];
    }
  }

  lemma Cut(a: seq<byte>, b: seq<byte>, c: seq<byte>, d: seq<byte>)
    ensures var all, i, j, k := a + b + c + d, |a|, |a| + |b|, |a| + |b| + |c|;
      all[..i] == a && all[i..j] == b && all[j..k] == c && all[k..] == d
  {
  }

  /**
    The layout: eight bytes, least significant first, for the length of the text; the text in
    UTF-8; the blinding factor; and SYNCRO_AUDIT_V1.
   */
  lemma PreimageLayout(event: Fields, blinding: seq<byte>)
    requires Encodable(event)
    ensures var all, n := Preimage(event, blinding), |Utf8(Canonical(event))|;
      && |all| == 8 + n + |blinding| + 15
      && ValueOf(all[..8]) == n
      && DecodeUtf8(all[8..8 + n]) == Some(Canonical(event))
      && all[8 + n..8 + n + |blinding|] == blinding
      && DecodeUtf8(all[8 + n + |blinding|..]) == Some("SYNCRO_AUDIT_V1")
  {
    var text := Utf8(Canonical(event));
    LittleEndianReads(|text|, 8);
    Utf8Reads(Canonical(event));
    DomainReads();
    Cut(LittleEndian(|text|, 8), text, blinding, DOMAIN_SEPARATOR);
  }

  /** Texts of less than two to the power of 64 bytes can be encoded: all that there are. */
  lemma EncodableIff(event: Fields)
    ensures Encodable(event) <==> |Utf8(Canonical(event))| < 0x1_0000_0000_0000_0000
  {
    assert Pow256(8) == 0x1_0000_0000_0000_0000 by {
      assert Pow256(4) == 0x1_0000_0000;
    }
  }

  // ---------------------------------------------------------------- verdicts and packages

  /** Which answer verifying gives: that of the first check that fails. */
  lemma WhichVerdict(w: World, pkg: Disclosure)
    ensures var r, stated := VerdictOn(w, pkg), FromHex(pkg.commitmentHash);
      if w.hash(HashedBytes(pkg)) != stated then r == BlindingMismatch
      else if !w.configured then r == Threw
      else if pkg.commitmentIndex !in w.chain then r == Absent && r.Valid() && !r.OnChainMatch()
      else
        var onChain := w.chain[pkg.commitmentIndex];
        if stated != FromHex(onChain.commitmentHash) then r == ChainHashMismatch && !r.Valid()
        else if pkg.commitmentIndex != onChain.commitmentIndex then r == IndexMismatch && !r.Valid()
        else r == Verified(onChain.timestamp * 1000, pkg.commitmentIndex) && r.Valid() && r.OnChainMatch()
  {
  }

  /** What a produced package says, and which error is given where none is produced. */
  lemma WhatIsGenerated(w: World, userId: string, index: nat)
    ensures var r := Generated(w, userId, index);
      if (index, userId) !in w.table then r == Error(NoRecord)
      else
        var record := w.table[(index, userId)];
        var blinding := w.decrypt(record.encryptedBlinding);
        if blinding.None? then r == Error(DecryptFailed)
        else if !w.configured then r == Error(NotConfigured)
        else if index !in w.chain then r == Error(NotFoundOnChain)
        else if w.hash(Preimage(record.eventData, blinding.value)) != record.commitmentHash
        then r == Error(HashMismatch)
        else
          && r.Success? && r.value.eventData == record.eventData && r.value.commitmentIndex == record.commitmentIndex
          && FromHex(r.value.commitmentHash) == record.commitmentHash
          && FromHex(r.value.blindingFactor) == blinding.value
          && r.value.timestamp == w.chain[index].timestamp * 1000
          && r.value.userId == record.userId && r.value.createdAt == record.createdAt
  {
    if Generated(w, userId, index).Success? {
      var record := w.table[(index, userId)];
      HexRoundTrip(record.commitmentHash);
      HexRoundTrip(w.decrypt(record.encryptedBlinding).value);
    }
  }
}

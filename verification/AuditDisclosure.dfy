/**
  Commitments and disclosure packages of client/lib/audit-disclosure.ts.

  SHA-256, the AES decryption, the database row and the chain are parameters: functions,
  and maps for what a query returns.
 */
module AuditDisclosure {
  import opened Bytes
  import opened CanonicalJson
  import opened Json
  import opened Options

  // "SYNCRO_AUDIT_V1" in UTF-8.
  const DOMAIN_SEPARATOR: seq<byte> := [83, 89, 78, 67, 82, 79, 95, 65, 85, 68, 73, 84, 95, 86, 49]

  type Hash = seq<byte> -> seq<byte>

  // ---------------------------------------------------------------- encoding

  function EncodeText(text: string): seq<byte> {
    LittleEndian(|Utf8(text)|, 8) + Utf8(text)
  }

  // The bytes that are hashed for an event.
  function Preimage(event: Fields, blinding: seq<byte>): seq<byte> {
    EncodeText(Canonical(event)) + blinding + DOMAIN_SEPARATOR
  }

  // Uint8Array.set: copies src into dst from an offset on.
  method Set(dst: array<byte>, src: seq<byte>, offset: nat)
    requires offset + |src| <= dst.Length
    modifies dst
    ensures dst[..] == old(dst[..offset]) + src + old(dst[offset + |src|..])
  {
    forall i | 0 <= i < |src| {
      dst[offset + i] := src[i];
    }
  }

  method EncodeString(text: string) returns (result: array<byte>)
    ensures fresh(result) && result[..] == EncodeText(text)
  {
    var utf8 := Utf8(text);
    var length := LittleEndian(|utf8|, 8);
    result := new byte[|length| + |utf8|];
    Set(result, length, 0);
    assert result[..|length|] == length;
    Set(result, utf8, |length|);
    assert result[..] == length + utf8;
  }

  method ComputeCommitment(hash: Hash, eventData: Fields, blindingFactor: seq<byte>) returns (commitment: seq<byte>)
    ensures commitment == hash(Preimage(eventData, blindingFactor))
  {
    var encoded := EncodeString(Canonical(eventData));
    var canonicalData, domainSep := encoded[..], DOMAIN_SEPARATOR;
    var combined := new byte[|canonicalData| + |blindingFactor| + |domainSep|];
    Set(combined, canonicalData, 0);
    assert combined[..|canonicalData|] == canonicalData;
    Set(combined, blindingFactor, |canonicalData|);
    assert combined[..|canonicalData| + |blindingFactor|] == canonicalData + blindingFactor;
    Set(combined, domainSep, |canonicalData| + |blindingFactor|);
    assert combined[..] == canonicalData + blindingFactor + domainSep;
    commitment := hash(combined[..]);
  }

  // Comparison without early exit.
  method BuffersEqual(a: array<byte>, b: array<byte>) returns (equal: bool)
    ensures equal <==> a[..] == b[..]
  {
    if a.Length != b.Length {
      assert |a[..]| != |b[..]|;
      return false;
    }
    var result: nat := 0;
    for i := 0 to a.Length
      invariant result == 0 <==> a[..i] == b[..i]
    {
      XorZeroIff(a[i], b[i]);
      OrZeroIff(result, Xor(a[i], b[i]));
      assert a[..i + 1] == a[..i] + [a[i]] && b[..i + 1] == b[..i] + [b[i]];
      result := Or(result, Xor(a[i], b[i]));
    }
    assert a[..a.Length] == a[..] && b[..b.Length] == b[..];
    equal := result == 0;
  }

  // Texts shorter than 2^64 bytes, as every JavaScript string is.
  predicate Encodable(event: Fields) {
    |Utf8(Canonical(event))| < Pow256(8)
  }

  /** The hashed bytes determine the canonical text and the blinding factor. */
  lemma PreimageUnique(e: Fields, a: seq<byte>, f: Fields, b: seq<byte>)
    requires Encodable(e) && Encodable(f) && Preimage(e, a) == Preimage(f, b)
    ensures Canonical(e) == Canonical(f) && a == b
  {
    PartsUnique(8, Utf8(Canonical(e)), a, Utf8(Canonical(f)), b, DOMAIN_SEPARATOR);
    Utf8Injective(Canonical(e), Canonical(f));
  }

  // The length in front tells where the text ends; the tail is the same on both sides.
  lemma PartsUnique(width: nat, s: seq<byte>, a: seq<byte>, t: seq<byte>, b: seq<byte>, tail: seq<byte>)
    requires |s| < Pow256(width) && |t| < Pow256(width)
    requires LittleEndian(|s|, width) + s + a + tail == LittleEndian(|t|, width) + t + b + tail
    ensures s == t && a == b
  {
    var m, n := LittleEndian(|s|, width), LittleEndian(|t|, width);
    Regroup(m, s, a, tail);
    Regroup(n, t, b, tail);
    PrefixOf(m, s + (a + tail), n, t + (b + tail));
    LittleEndianInjective(|s|, |t|, width);
    PrefixOf(s, a + tail, t, b + tail);
    assert |a| == |b|;
    PrefixOf(a, tail, b, tail);
  }

  lemma Regroup(a: seq<byte>, b: seq<byte>, c: seq<byte>, d: seq<byte>)
    ensures a + b + c + d == a + (b + (c + d))
  {
  }

  lemma PrefixOf(p: seq<byte>, x: seq<byte>, q: seq<byte>, y: seq<byte>)
    requires |p| == |q| && p + x == q + y
    ensures p == q && x == y
  {
    assert p == (p + x)[..|p|] && q == (q + y)[..|q|] && x == (p + x)[|p|..] && y == (q + y)[|q|..];
  }

  // ---------------------------------------------------------------- packages

  datatype Record = Record(encryptedBlinding: seq<byte>, eventData: Fields, commitmentHash: seq<byte>,
                           commitmentIndex: nat, userId: string, createdAt: int)

  datatype OnChain = OnChain(commitmentHash: string, commitmentIndex: nat, timestamp: int)

  datatype Disclosure = Disclosure(commitmentHash: string, commitmentIndex: nat, eventData: Fields,
                                   blindingFactor: string,
                                   timestamp: int, userId: string, createdAt: int)

  // The world outside: the table of blinding factors by index and user, the decryption, the
  // chain, and whether a contract address is configured.
  datatype World = World(hash: Hash, table: map<(nat, string), Record>, decrypt: seq<byte> -> Option<seq<byte>>,
                         chain: map<nat, OnChain>, configured: bool)

  // A query for one index and user returns a row with that index and user.
  predicate TableOk(w: World) {
    forall key :: key in w.table ==> w.table[key].commitmentIndex == key.0 && w.table[key].userId == key.1
  }

  datatype Failure = NoRecord | DecryptFailed | NotConfigured | NotFoundOnChain | HashMismatch

  datatype Result<+T> = Success(value: T) | Error(failure: Failure)

  method GenerateDisclosure(w: World, userId: string, commitmentIndex: nat) returns (r: Result<Disclosure>)
    ensures r == Generated(w, userId, commitmentIndex)
  {
    if (commitmentIndex, userId) !in w.table { return Error(NoRecord); }
    var record := w.table[(commitmentIndex, userId)];
    var blinding := w.decrypt(record.encryptedBlinding);
    if blinding.None? { return Error(DecryptFailed); }
    if !w.configured { return Error(NotConfigured); }
    if commitmentIndex !in w.chain { return Error(NotFoundOnChain); }
    var expectedHash := ComputeCommitment(w.hash, record.eventData, blinding.value);
    var same := SameBytes(expectedHash, record.commitmentHash);
    if !same { return Error(HashMismatch); }
    r := Success(Disclosure(ToHex(record.commitmentHash), record.commitmentIndex, record.eventData,
                            ToHex(blinding.value), w.chain[commitmentIndex].timestamp * 1000,
                            record.userId, record.createdAt));
  }

  method SameBytes(a: seq<byte>, b: seq<byte>) returns (equal: bool)
    ensures equal <==> a == b
  {
    var x, y := new byte[|a|](i requires 0 <= i < |a| => a[i]), new byte[|b|](i requires 0 <= i < |b| => b[i]);
    assert x[..] == a && y[..] == b;
    equal := BuffersEqual(x, y);
  }

  // The row is there and can be decrypted, and the hash it records is the hash of its event.
  ghost predicate RecordRight(w: World, userId: string, index: nat) {
    (index, userId) in w.table &&
    var record := w.table[(index, userId)];
    var blinding := w.decrypt(record.encryptedBlinding);
    blinding.Some? && w.hash(Preimage(record.eventData, blinding.value)) == record.commitmentHash
  }

  // When a package is produced, and which: its hash is always the one that verifying computes.
  function Generated(w: World, userId: string, index: nat): (r: Result<Disclosure>)
    ensures r.Success? <==> RecordRight(w, userId, index) && w.configured && index in w.chain
    ensures r.Success? ==> HashRight(w, r.value)
  {
    if (index, userId) !in w.table then Error(NoRecord)
    else
      var record := w.table[(index, userId)];
      match w.decrypt(record.encryptedBlinding)
      case None => Error(DecryptFailed)
      case Some(blinding) =>
        if !w.configured then Error(NotConfigured)
        else if index !in w.chain then Error(NotFoundOnChain)
        else if w.hash(Preimage(record.eventData, blinding)) != record.commitmentHash then Error(HashMismatch)
        else
          HexRoundTrip(record.commitmentHash);
          HexRoundTrip(blinding);
          Success(Disclosure(ToHex(record.commitmentHash), record.commitmentIndex, record.eventData, ToHex(blinding),
                             w.chain[index].timestamp * 1000, record.userId, record.createdAt))
  }

  // The error texts of verifyDisclosure, or success with what the chain says.
  datatype Verdict =
    | BlindingMismatch
    | Absent
    | ChainHashMismatch
    | IndexMismatch
    | Threw
    | Verified(timestamp: int, index: nat)
  {
    predicate Valid() { Absent? || Verified? }

    predicate OnChainMatch() { Verified? }
  }

  method VerifyDisclosure(w: World, pkg: Disclosure) returns (r: Verdict)
    ensures r == VerdictOn(w, pkg)
  {
    var blindingFactor := FromHex(pkg.blindingFactor);
    var computedHash := ComputeCommitment(w.hash, pkg.eventData, blindingFactor);
    var expectedHash := FromHex(pkg.commitmentHash);
    var same := SameBytes(computedHash, expectedHash);
    if !same { return BlindingMismatch; }
    if !w.configured { return Threw; }
    if pkg.commitmentIndex !in w.chain { return Absent; }
    var onChain := w.chain[pkg.commitmentIndex];
    same := SameBytes(expectedHash, FromHex(onChain.commitmentHash));
    if !same { return ChainHashMismatch; }
    if onChain.commitmentIndex != pkg.commitmentIndex { return IndexMismatch; }
    r := Verified(onChain.timestamp * 1000, onChain.commitmentIndex);
  }

  // Exactly the packages whose hash is right and confirmed by the chain match on the chain; a
  // package the chain knows nothing about is called valid as well.
  function VerdictOn(w: World, pkg: Disclosure): (r: Verdict)
    ensures r.OnChainMatch() <==> Accepted(w, pkg)
    ensures r.Valid() <==> Accepted(w, pkg) || (HashRight(w, pkg) && w.configured && pkg.commitmentIndex !in w.chain)
    ensures r.Verified? ==> r.index == pkg.commitmentIndex && r.timestamp == w.chain[r.index].timestamp * 1000
  {
    if w.hash(Preimage(pkg.eventData, FromHex(pkg.blindingFactor))) != FromHex(pkg.commitmentHash) then BlindingMismatch
    else if !w.configured then Threw
    else if pkg.commitmentIndex !in w.chain then Absent
    else
      var onChain := w.chain[pkg.commitmentIndex];
      if FromHex(pkg.commitmentHash) != FromHex(onChain.commitmentHash) then ChainHashMismatch
      else if onChain.commitmentIndex != pkg.commitmentIndex then IndexMismatch
      else Verified(onChain.timestamp * 1000, onChain.commitmentIndex)
  }

  // What verifying a package hashes.
  function HashedBytes(pkg: Disclosure): seq<byte> {
    Preimage(pkg.eventData, FromHex(pkg.blindingFactor))
  }

  ghost predicate HashRight(w: World, pkg: Disclosure) {
    w.hash(HashedBytes(pkg)) == FromHex(pkg.commitmentHash)
  }

  // The chain holds the hash of the package at the package's index.
  ghost predicate ChainConfirms(w: World, pkg: Disclosure) {
    && pkg.commitmentIndex in w.chain
    && FromHex(w.chain[pkg.commitmentIndex].commitmentHash) == FromHex(pkg.commitmentHash)
    && w.chain[pkg.commitmentIndex].commitmentIndex == pkg.commitmentIndex
  }

  ghost predicate Accepted(w: World, pkg: Disclosure) {
    HashRight(w, pkg) && w.configured && ChainConfirms(w, pkg)
  }

  /**
    A package that was produced is accepted iff the chain holds the recorded hash at its
    index: producing one only checks that the chain holds something there.
   */
  lemma GeneratedIsAcceptedIff(w: World, userId: string, index: nat)
    requires TableOk(w) && Generated(w, userId, index).Success?
    ensures var record := w.table[(index, userId)];
      Accepted(w, Generated(w, userId, index).value)
      <==> FromHex(w.chain[index].commitmentHash) == record.commitmentHash && w.chain[index].commitmentIndex == index
  {
    var record, pkg := w.table[(index, userId)], Generated(w, userId, index).value;
    var blinding := w.decrypt(record.encryptedBlinding).value;
    HexRoundTrip(record.commitmentHash);
    HexRoundTrip(blinding);
    assert FromHex(pkg.commitmentHash) == record.commitmentHash && FromHex(pkg.blindingFactor) == blinding;
    assert pkg.eventData == record.eventData && pkg.commitmentIndex == index;
  }

  /**
    Binding: two packages accepted at the same index agree on the canonical text of the event
    and on the blinding factor, or exhibit two different inputs with the same hash.
   */
  lemma AcceptedAgreeOrCollide(w: World, p: Disclosure, q: Disclosure)
    requires Accepted(w, p) && Accepted(w, q) && p.commitmentIndex == q.commitmentIndex
    requires Encodable(p.eventData) && Encodable(q.eventData)
    ensures var x, y := HashedBytes(p), HashedBytes(q);
      if x == y
      then Canonical(p.eventData) == Canonical(q.eventData) && FromHex(p.blindingFactor) == FromHex(q.blindingFactor)
      else w.hash(x) == w.hash(y)
  {
    var a, b := FromHex(p.blindingFactor), FromHex(q.blindingFactor);
    if Preimage(p.eventData, a) == Preimage(q.eventData, b) {
      PreimageUnique(p.eventData, a, q.eventData, b);
    }
  }

  /**
    ... and on what the event means, if the first event holds no other object: whatever the second
    package says its event is. Events that do hold objects must both be covered.
   */
  lemma AcceptedEventsAgreeOrCollide(w: World, p: Disclosure, q: Disclosure)
    requires Accepted(w, p) && Accepted(w, q) && p.commitmentIndex == q.commitmentIndex
    requires Encodable(p.eventData) && Encodable(q.eventData)
    requires NumeralsOkFields(p.eventData) && NumeralsOkFields(q.eventData)
    requires NoNested(p.eventData) || (SelfCovered(p.eventData) && SelfCovered(q.eventData))
    ensures var x, y := HashedBytes(p), HashedBytes(q);
      if x == y
      then MeaningFields(p.eventData) == MeaningFields(q.eventData)
           && FromHex(p.blindingFactor) == FromHex(q.blindingFactor)
      else w.hash(x) == w.hash(y)
  {
    AcceptedAgreeOrCollide(w, p, q);
    if Canonical(p.eventData) == Canonical(q.eventData) {
      if NoNested(p.eventData) {
        CanonicalIffVisible(p.eventData, q.eventData);
        VisibleDetermines(p.eventData, q.eventData);
      } else {
        CanonicalIffSameMeaning(p.eventData, q.eventData);
      }
    }
  }

  // A package for the same commitment that hashes the same bytes.
  predicate Rivals(p: Disclosure, q: Disclosure) {
    && q.commitmentIndex == p.commitmentIndex && HashedBytes(q) == HashedBytes(p)
    && Encodable(q.eventData) && NumeralsOkFields(q.eventData) && UniqueKeysFields(q.eventData)
  }

  /** An accepted package is the only account of its commitment, collisions aside, iff its event
      holds no other object. */
  lemma CommitmentBindsIff(w: World, p: Disclosure)
    requires Accepted(w, p) && Rivals(p, p)
    ensures (forall q :: Rivals(p, q) && Accepted(w, q) ==> MeaningFields(q.eventData) == MeaningFields(p.eventData))
       <==> NoNested(p.eventData)
  {
    if NoNested(p.eventData) {
      forall q | Rivals(p, q) && Accepted(w, q) ensures MeaningFields(q.eventData) == MeaningFields(p.eventData) {
        AcceptedEventsAgreeOrCollide(w, p, q);
      }
    } else {
      var f := SomethingHidden(p.eventData);
      var q := p.(eventData := f);
      assert Rivals(p, q) && Accepted(w, q);
    }
  }
}

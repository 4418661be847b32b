/**
 * The reader of an APK's signing certificate
 * (packages/provisioning-payload/src/apk.ts): the ZIP end record, the APK
 * signing block before the central directory, its pairs, and the signers of the
 * newest signature scheme.
 */
module Apk {
  import opened Wrappers
  import opened LittleEndian

  const MAX_SAFE_INTEGER := 0x1F_FFFF_FFFF_FFFF
  const EOCD_SIGNATURE := 0x06054b50
  const CENTRAL_DIRECTORY_SIGNATURE := 0x02014b50
  const MAX_ZIP_COMMENT := 0xffff
  const EOCD_LENGTH := 22
  const MAGIC_LENGTH := 16

  /** "APK Sig Block 42" */
  const MAGIC: seq<Byte> := [0x41, 0x50, 0x4b, 0x20, 0x53, 0x69, 0x67, 0x20, 0x42, 0x6c, 0x6f, 0x63, 0x6b, 0x20, 0x34, 0x32]

  datatype Scheme = V31 | V3 | V2

  function SchemeId(scheme: Scheme): nat {
    match scheme
    case V31 => 0x1b93ad61
    case V3 => 0xf05368c0
    case V2 => 0x7109871a
  }

  /**
   * Every way a read ends without a certificate. All but the last are
   * ProvisioningErrors; `BufferRange` is Node's own RangeError.
   */
  datatype Failure =
    | NotAnArchive
    | OnlyV1(names: seq<seq<Byte>>)
    | Unsigned
    | Truncated
    | HugeLength
    | BlockOutOfBounds
    | SizesDiffer
    | NoSigner
    | NoCertificate
    | NoKnownScheme
    | BufferRange

  datatype Certificate = Certificate(der: seq<Byte>, scheme: Scheme)

  type Outcome<T> = Result<T, Failure>

  // ------------------------------------------------------------------------
  //  What is read, as functions of the bytes left to a reader
  // ------------------------------------------------------------------------

  /** A 32-bit length and that many bytes; then what follows. */
  function LengthPrefixed(s: seq<Byte>): (r: Outcome<(seq<Byte>, seq<Byte>)>)
    ensures r.Ok? ==> |r.value.0| + |r.value.1| + 4 == |s|
  {
    if |s| < 4 then Err(Truncated)
    else
      var n := U32(s, 0);
      if 4 + n > |s| then Err(Truncated) else Ok((s[4..4 + n], s[4 + n..]))
  }

  /** The first certificate of signed data: after the digests, which are skipped. */
  function SignedDataCertificate(signedData: seq<Byte>): Outcome<seq<Byte>> {
    match LengthPrefixed(signedData)
    case Err(e) => Err(e)
    case Ok(digests) => match LengthPrefixed(digests.1)
      case Err(e) => Err(e)
      case Ok(certificates) =>
        if certificates.0 == [] then Err(NoCertificate)
        else match LengthPrefixed(certificates.0)
          case Err(e) => Err(e)
          case Ok(certificate) => Ok(certificate.0)
  }

  /** `certificateFromSigners`: first certificate of the first signer's signed data. */
  function FirstCertificate(block: seq<Byte>): Outcome<seq<Byte>> {
    match LengthPrefixed(block)
    case Err(e) => Err(e)
    case Ok(signers) =>
      if signers.0 == [] then Err(NoSigner)
      else match LengthPrefixed(signers.0)
        case Err(e) => Err(e)
        case Ok(signer) => match LengthPrefixed(signer.0)
          case Err(e) => Err(e)
          case Ok(signedData) => SignedDataCertificate(signedData.0)
  }

  type Pairs = map<nat, seq<Byte>>

  /** One pair: a 64-bit length, then a 32-bit id and a value. */
  datatype Pair = Pair(id: nat, value: seq<Byte>)

  function NextPair(s: seq<Byte>): (r: Outcome<(Pair, seq<Byte>)>)
    requires |s| >= 8
    ensures r.Ok? ==> |r.value.1| + 12 <= |s|
  {
    var length := U64(s, 0);
    if length > MAX_SAFE_INTEGER then Err(HugeLength)
    else if 8 + length > |s| || length < 4 then Err(Truncated)
    else Ok((Pair(U32(s, 8), s[12..8 + length]), s[8 + length..]))
  }

  /** The first pair of each id wins. */
  function AddPair(found: Pairs, pair: Pair): Pairs {
    if pair.id in found then found else found[pair.id := pair.value]
  }

  /** The pairs of the block; twelve bytes or less end the list. */
  function ReadPairs(s: seq<Byte>, found: Pairs): Outcome<Pairs>
    decreases |s|
  {
    if |s| <= 12 then Ok(found)
    else match NextPair(s)
      case Err(e) => Err(e)
      case Ok(next) => ReadPairs(next.1, AddPair(found, next.0))
  }

  /** The newest scheme present is the one read, with no fallback to an older one. */
  function PickScheme(pairs: Pairs): Outcome<Certificate> {
    var scheme := if SchemeId(V31) in pairs then V31 else if SchemeId(V3) in pairs then V3 else V2;
    if SchemeId(scheme) !in pairs then Err(NoKnownScheme)
    else match FirstCertificate(pairs[SchemeId(scheme)])
      case Err(e) => Err(e)
      case Ok(der) => Ok(Certificate(der, scheme))
  }

  predicate IsEocd(b: seq<Byte>, index: int) {
    0 <= index && index + EOCD_LENGTH <= |b| && U32(b, index) == EOCD_SIGNATURE
  }

  function EocdMinimum(b: seq<Byte>): nat {
    if |b| > MAX_ZIP_COMMENT + EOCD_LENGTH then |b| - MAX_ZIP_COMMENT - EOCD_LENGTH else 0
  }

  /** The last end record whose comment could fit, or -1. */
  function LastEocd(b: seq<Byte>, index: int): (r: int)
    requires index + EOCD_LENGTH <= |b|
    ensures r == -1 ==> forall i :: EocdMinimum(b) <= i <= index ==> !IsEocd(b, i)
    ensures r != -1 ==> EocdMinimum(b) <= r <= index && IsEocd(b, r)
    ensures r != -1 ==> forall i :: r < i <= index ==> !IsEocd(b, i)
    decreases index - EocdMinimum(b) + 1
  {
    if index < EocdMinimum(b) then -1
    else if IsEocd(b, index) then index
    else LastEocd(b, index - 1)
  }

  predicate HasMagic(b: seq<Byte>, cd: nat) {
    MAGIC_LENGTH <= cd <= |b| && b[cd - MAGIC_LENGTH..cd] == MAGIC
  }

  function Clamp(b: seq<Byte>, i: nat): nat {
    if i <= |b| then i else |b|
  }

  /** The name of the central directory entry at `offset`, and where the next one would start. */
  function DirectoryEntry(b: seq<Byte>, offset: nat): (r: Option<(seq<Byte>, nat)>)
    ensures r.Some? ==> offset + 46 <= |b| && r.value.1 >= offset + 46
  {
    if offset + 46 > |b| || U32(b, offset) != CENTRAL_DIRECTORY_SIGNATURE then None
    else
      var nameLength := U16(b, offset + 28);
      var extraLength := U16(b, offset + 30);
      var commentLength := U16(b, offset + 32);
      Some((b[offset + 46..Clamp(b, offset + 46 + nameLength)],
            offset + 46 + nameLength + extraLength + commentLength))
  }

  /** `listV1SignatureEntries`, up to the test of a name, which is `signatureFile`. */
  function V1Names(b: seq<Byte>, offset: nat, signatureFile: seq<Byte> -> bool): seq<seq<Byte>>
    decreases |b| - offset
  {
    var entry := DirectoryEntry(b, offset);
    if entry.None? then []
    else (if signatureFile(entry.value.0) then [entry.value.0] else [])
         + V1Names(b, entry.value.1, signatureFile)
  }

  /** Where the block that ends at the central directory starts: both of its declared sizes agree. */
  function BlockStart(b: seq<Byte>, cd: nat): (r: Outcome<nat>)
    requires MAGIC_LENGTH <= cd <= |b|
    ensures r.Ok? ==> r.value + 8 <= cd && 24 <= cd
  {
    if cd < 24 then Err(BufferRange)
    else
      var declared := U64(b, cd - 24);
      if declared > MAX_SAFE_INTEGER then Err(HugeLength)
      else if declared + 8 > cd then Err(BlockOutOfBounds)
      else
        var header := U64(b, cd - declared - 8);
        if header > MAX_SAFE_INTEGER then Err(HugeLength)
        else if header != declared then Err(SizesDiffer)
        else Ok(cd - declared - 8)
  }

  /** The bytes between the first size and the second one; none when the block is shorter than its trailer. */
  function PairBytes(b: seq<Byte>, start: nat, cd: nat): seq<Byte>
    requires 24 <= cd <= |b|
  {
    if start + 8 <= cd - 24 then b[start + 8..cd - 24] else []
  }

  function ReadBlock(b: seq<Byte>, cd: nat): Outcome<Certificate>
    requires MAGIC_LENGTH <= cd <= |b|
  {
    match BlockStart(b, cd)
    case Err(e) => Err(e)
    case Ok(start) =>
      match ReadPairs(PairBytes(b, start, cd), map[])
      case Err(e) => Err(e)
      case Ok(pairs) => PickScheme(pairs)
  }

  /** Why a file without a signing block is refused: signed in the v1 scheme only, or not at all. */
  function WithoutBlock(names: seq<seq<Byte>>): Failure {
    if names == [] then Unsigned else OnlyV1(names)
  }

  /** What follows the location of the central directory. */
  function CertificateAt(b: seq<Byte>, cd: nat, signatureFile: seq<Byte> -> bool): Outcome<Certificate> {
    if HasMagic(b, cd) then ReadBlock(b, cd) else Err(WithoutBlock(V1Names(b, cd, signatureFile)))
  }

  /** `readSigningCertificate`, as a function of the file's bytes. */
  function SigningCertificate(b: seq<Byte>, signatureFile: seq<Byte> -> bool): Outcome<Certificate> {
    var eocd := LastEocd(b, |b| - EOCD_LENGTH);
    if eocd == -1 then Err(NotAnArchive) else CertificateAt(b, U32(b, eocd + 16), signatureFile)
  }

  // ------------------------------------------------------------------------
  //  The reader
  // ------------------------------------------------------------------------

  /** A cursor on a buffer. Its bounds are not checked when it is made: only its reads are. */
  class Reader {
    const buffer: seq<Byte>
    const end: int
    var offset: int

    constructor (buffer: seq<Byte>, start: int, end: int)
      ensures this.buffer == buffer && this.end == end && offset == start
    {
      this.buffer := buffer;
      this.end := end;
      this.offset := start;
    }

    /** The reader's range lies inside the buffer. */
    predicate Inside()
      reads this
    {
      0 <= offset <= end <= |buffer|
    }

    /** The bytes left to read. */
    function Rest(): (s: seq<Byte>)
      reads this
      requires Inside()
      ensures |s| == end - offset
    {
      buffer[offset..end]
    }

    /** `require`: whether that many bytes are left. */
    predicate Holds(length: int)
      reads this
    {
      length >= 0 && offset + length <= end
    }

    method Uint32() returns (r: Outcome<nat>)
      requires Inside()
      modifies this
      ensures Inside() && offset >= old(offset)
      ensures |old(Rest())| < 4 ==> r == Err(Truncated)
      ensures |old(Rest())| >= 4 ==> r == Ok(U32(old(Rest()), 0)) && Rest() == old(Rest())[4..]
    {
      if !Holds(4) {
        return Err(Truncated);
      }
      U32Inside(Rest(), buffer, offset);
      r := Ok(U32(buffer, offset));
      offset := offset + 4;
    }

    /**
     * Made for a reader that starts before the buffer too: Node then refuses the
     * negative offset that `require` lets through.
     */
    method Uint64() returns (r: Outcome<nat>)
      requires end <= |buffer|
      modifies this
      ensures !old(Holds(8)) ==> r == Err(Truncated) && offset == old(offset)
      ensures old(Holds(8)) && old(offset) < 0 ==> r == Err(BufferRange)
      ensures old(Inside()) ==> Inside() && offset >= old(offset)
      ensures old(Holds(8)) && old(offset) >= 0 ==>
        var value := U64(buffer, old(offset));
        && offset == old(offset) + 8
        && r == if value > MAX_SAFE_INTEGER then Err(HugeLength) else Ok(value)
    {
      if !Holds(8) {
        return Err(Truncated);
      }
      if offset < 0 {
        return Err(BufferRange);
      }
      var value := U64(buffer, offset);
      offset := offset + 8;
      r := if value > MAX_SAFE_INTEGER then Err(HugeLength) else Ok(value);
    }

    method Bytes(length: nat) returns (r: Outcome<seq<Byte>>)
      requires Inside()
      modifies this
      ensures Inside()
      ensures length > |old(Rest())| ==> r == Err(Truncated)
      ensures length <= |old(Rest())| ==> r == Ok(old(Rest())[..length]) && Rest() == old(Rest())[length..]
    {
      if !Holds(length) {
        return Err(Truncated);
      }
      assert buffer[offset..offset + length] == Rest()[..length];
      r := Ok(buffer[offset..offset + length]);
      offset := offset + length;
    }

    /** A sub-reader over the next `length` bytes: its range stays inside this one's. */
    method Slice(length: nat) returns (r: Outcome<Reader>)
      requires Inside()
      modifies this
      ensures Inside() && offset >= old(offset)
      ensures length > |old(Rest())| <==> r == Err(Truncated)
      ensures r.Err? ==> r == Err(Truncated)
      ensures r.Ok? ==>
        && fresh(r.value) && r.value.buffer == buffer && r.value.Inside()
        && old(offset) <= r.value.offset && r.value.end <= end && r.value.end == offset
        && r.value.Rest() == old(Rest())[..length] && Rest() == old(Rest())[length..]
    {
      if !Holds(length) {
        return Err(Truncated);
      }
      var child := new Reader(buffer, offset, offset + length);
      assert buffer[offset..offset + length] == Rest()[..length];
      offset := offset + length;
      r := Ok(child);
    }

    method ReadLengthPrefixed() returns (r: Outcome<Reader>)
      requires Inside()
      modifies this
      ensures Inside() && offset >= old(offset)
      ensures r.Err? <==> LengthPrefixed(old(Rest())).Err?
      ensures r.Err? ==> r.error == LengthPrefixed(old(Rest())).error
      ensures r.Ok? ==>
        var parts := LengthPrefixed(old(Rest())).value;
        && fresh(r.value) && r.value.buffer == buffer && r.value.Inside()
        && old(offset) <= r.value.offset && r.value.end <= end
        && r.value.Rest() == parts.0 && Rest() == parts.1
    {
      var length := Uint32();
      if length.Err? {
        return Err(length.error);
      }
      r := Slice(length.value);
    }
  }

  method CertificateFromSigners(block: Reader) returns (r: Outcome<seq<Byte>>)
    requires block.Inside()
    modifies block
    ensures r == FirstCertificate(old(block.Rest()))
  {
    var signers := block.ReadLengthPrefixed();
    if signers.Err? {
      return Err(signers.error);
    }
    if signers.value.offset == signers.value.end {
      return Err(NoSigner);
    }
    var signer := signers.value.ReadLengthPrefixed();
    if signer.Err? {
      return Err(signer.error);
    }
    var signedData := signer.value.ReadLengthPrefixed();
    if signedData.Err? {
      return Err(signedData.error);
    }
    r := CertificateFromSignedData(signedData.value);
  }

  method CertificateFromSignedData(signedData: Reader) returns (r: Outcome<seq<Byte>>)
    requires signedData.Inside()
    modifies signedData
    ensures r == SignedDataCertificate(old(signedData.Rest()))
  {
    var digests := signedData.ReadLengthPrefixed();
    if digests.Err? {
      return Err(digests.error);
    }
    var certificates := signedData.ReadLengthPrefixed();
    if certificates.Err? {
      return Err(certificates.error);
    }
    if certificates.value.offset == certificates.value.end {
      return Err(NoCertificate);
    }
    var certificate := certificates.value.ReadLengthPrefixed();
    if certificate.Err? {
      return Err(certificate.error);
    }
    ghost var all := certificate.value.Rest();
    assert all[..|all|] == all;
    r := certificate.value.Bytes(certificate.value.end - certificate.value.offset);
  }

  method FindEndOfCentralDirectory(b: seq<Byte>) returns (r: int)
    ensures r == LastEocd(b, |b| - EOCD_LENGTH)
  {
    var minimum := EocdMinimum(b);
    var index := |b| - EOCD_LENGTH;
    while index >= minimum
      invariant index + EOCD_LENGTH <= |b|
      invariant LastEocd(b, |b| - EOCD_LENGTH) == LastEocd(b, index)
      decreases index
    {
      if U32(b, index) == EOCD_SIGNATURE {
        return index;
      }
      index := index - 1;
    }
    r := -1;
  }

  method ListV1SignatureEntries(b: seq<Byte>, cd: nat, signatureFile: seq<Byte> -> bool)
    returns (names: seq<seq<Byte>>)
    ensures names == V1Names(b, cd, signatureFile)
  {
    hide DirectoryEntry;
    names := [];
    var offset := cd;
    var entry := DirectoryEntry(b, offset);
    while entry.Some?
      invariant 0 <= offset && entry == DirectoryEntry(b, offset)
      invariant V1Names(b, cd, signatureFile) == names + V1Names(b, offset, signatureFile)
      decreases |b| - offset
    {
      var name := entry.value.0;
      if signatureFile(name) {
        names := names + [name];
      }
      offset := entry.value.1;
      entry := DirectoryEntry(b, offset);
    }
  }

  /** One pair of the block, consumed from the reader of the pairs. */
  method ReadPair(reader: Reader) returns (r: Outcome<(nat, Reader)>)
    requires reader.Inside() && |reader.Rest()| > 12
    modifies reader
    ensures reader.Inside()
    ensures var spec := NextPair(old(reader.Rest()));
      && (r.Err? <==> spec.Err?)
      && (r.Err? ==> r.error == spec.error)
      && (r.Ok? ==>
            && r.value.0 == spec.value.0.id && fresh(r.value.1) && r.value.1.Inside()
            && r.value.1.Rest() == spec.value.0.value && reader.Rest() == spec.value.1)
  {
    ghost var all := reader.Rest();
    U64Inside(all, reader.buffer, reader.offset);
    var length := reader.Uint64();
    if length.Err? {
      return Err(length.error);
    }
    assert reader.Rest() == all[8..];
    var pair := reader.Slice(length.value);
    if pair.Err? {
      return Err(pair.error);
    }
    assert pair.value.Rest() == all[8..8 + length.value];
    assert reader.Rest() == all[8 + length.value..];
    var id := pair.value.Uint32();
    if id.Err? {
      return Err(id.error);
    }
    if length.value >= 4 {
      U32Inside(all[8..8 + length.value], all, 8);
    }
    assert all[8..8 + length.value][4..] == all[12..8 + length.value];
    r := Ok((id.value, pair.value));
  }

  /** Readers whose remaining bytes are the values found. */
  ghost predicate Indexes(readers: map<nat, Reader>, found: Pairs)
    reads readers.Values
  {
    && readers.Keys == found.Keys
    && forall id :: id in readers ==> readers[id].Inside() && readers[id].Rest() == found[id]
  }

  /** The loop that indexes the pairs by scheme, keeping the first of each id. */
  method IndexPairs(pairsReader: Reader) returns (r: Outcome<map<nat, Reader>>)
    requires pairsReader.Inside()
    modifies pairsReader
    ensures var spec := ReadPairs(old(pairsReader.Rest()), map[]);
      && (r.Err? <==> spec.Err?)
      && (r.Err? ==> r.error == spec.error)
      && (r.Ok? ==> Indexes(r.value, spec.value) && forall id :: id in r.value ==> fresh(r.value[id]))
  {
    var pairs: map<nat, Reader> := map[];
    ghost var found: Pairs := map[];
    while pairsReader.end - pairsReader.offset > 12
      invariant pairsReader.Inside()
      invariant ReadPairs(old(pairsReader.Rest()), map[]) == ReadPairs(pairsReader.Rest(), found)
      invariant forall id :: id in pairs ==> fresh(pairs[id]) && pairs[id] != pairsReader
      invariant Indexes(pairs, found)
      decreases |pairsReader.Rest()|
    {
      var pair := ReadPair(pairsReader);
      if pair.Err? {
        return Err(pair.error);
      }
      found := AddPair(found, Pair(pair.value.0, pair.value.1.Rest()));
      if pair.value.0 !in pairs {
        pairs := pairs[pair.value.0 := pair.value.1];
      }
    }
    r := Ok(pairs);
  }

  /** The newest scheme among the pairs indexed, tried in order. */
  method CertificateOfNewestScheme(pairs: map<nat, Reader>, ghost found: Pairs) returns (r: Outcome<Certificate>)
    requires Indexes(pairs, found)
    modifies pairs.Values
    ensures r == PickScheme(found)
  {
    var schemes := [V31, V3, V2];
    var i := 0;
    while i < 3
      invariant 0 <= i <= 3
      invariant Indexes(pairs, found)
      invariant forall k :: 0 <= k < i ==> SchemeId(schemes[k]) !in found
    {
      assert schemes[0] == V31 && schemes[1] == V3 && schemes[2] == V2;
      if SchemeId(schemes[i]) in pairs {
        var der := CertificateFromSigners(pairs[SchemeId(schemes[i])]);
        if der.Err? {
          return Err(der.error);
        }
        return Ok(Certificate(der.value, schemes[i]));
      }
      i := i + 1;
    }
    assert schemes[0] == V31 && schemes[1] == V3 && schemes[2] == V2;
    r := Err(NoKnownScheme);
  }

  method LocateBlock(b: seq<Byte>, cd: nat) returns (r: Outcome<nat>)
    requires MAGIC_LENGTH <= cd <= |b|
    ensures r == BlockStart(b, cd)
  {
    var trailer := new Reader(b, cd - 24, cd);
    var declared := trailer.Uint64();
    if declared.Err? {
      return Err(declared.error);
    }
    var blockStart := cd - declared.value - 8;
    if blockStart < 0 {
      return Err(BlockOutOfBounds);
    }
    var header := new Reader(b, blockStart, blockStart + 8);
    var repeated := header.Uint64();
    if repeated.Err? {
      return Err(repeated.error);
    }
    r := if repeated.value != declared.value then Err(SizesDiffer) else Ok(blockStart);
  }

  lemma NothingToRead()
    ensures ReadPairs([], map[]) == Ok(map[])
  {
  }

  method ReadSigningBlock(b: seq<Byte>, cd: nat) returns (r: Outcome<Certificate>)
    requires MAGIC_LENGTH <= cd <= |b|
    ensures r == ReadBlock(b, cd)
  {
    hide BlockStart, ReadPairs, PickScheme;
    var start := LocateBlock(b, cd);
    if start.Err? {
      return Err(start.error);
    }
    var pairs: map<nat, Reader> := map[];
    ghost var found: Pairs := map[];
    var pairsReader := new Reader(b, start.value + 8, cd - 24);
    // A block shorter than its own trailer leaves the pairs reader nothing to read.
    if pairsReader.offset > pairsReader.end {
      NothingToRead();
    } else {
      var indexed := IndexPairs(pairsReader);
      if indexed.Err? {
        return Err(indexed.error);
      }
      pairs := indexed.value;
      found := ReadPairs(PairBytes(b, start.value, cd), map[]).value;
    }
    r := CertificateOfNewestScheme(pairs, found);
  }

  method ReadSigningCertificate(b: seq<Byte>, signatureFile: seq<Byte> -> bool)
    returns (r: Outcome<Certificate>)
    ensures r == SigningCertificate(b, signatureFile)
  {
    hide CertificateAt;
    var eocd := FindEndOfCentralDirectory(b);
    if eocd == -1 {
      return Err(NotAnArchive);
    }
    r := ReadCertificateAt(b, U32(b, eocd + 16), signatureFile);
  }

  method ReadCertificateAt(b: seq<Byte>, cd: nat, signatureFile: seq<Byte> -> bool)
    returns (r: Outcome<Certificate>)
    ensures r == CertificateAt(b, cd, signatureFile)
  {
    if HasMagic(b, cd) {
      r := ReadSigningBlock(b, cd);
    } else {
      var v1 := ListV1SignatureEntries(b, cd, signatureFile);
      r := Err(WithoutBlock(v1));
    }
  }
}

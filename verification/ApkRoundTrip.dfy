/**
 * What the reader gives back on a file printed from its parts, and when it
 * fails otherwise than by a ProvisioningError.
 */
module ApkRoundTrip {
  import opened Wrappers
  import opened LittleEndian
  import opened Apk

  // ------------------------------------------------------------------------
  //  Signers, as the APK Signature Scheme v2 lays them out
  // ------------------------------------------------------------------------

  datatype Signer = Signer(
    digests: seq<Byte>, certificates: seq<seq<Byte>>, signedRest: seq<Byte>, rest: seq<Byte>)

  predicate Small(s: seq<Byte>) {
    |s| < 0x1_0000_0000
  }

  function Prefixed(s: seq<Byte>): seq<Byte>
    requires Small(s)
  {
    Put32(|s|) + s
  }

  /** A sequence of length-prefixed elements. */
  function Sequence(parts: seq<seq<Byte>>): (r: seq<Byte>)
    requires forall i :: 0 <= i < |parts| ==> Small(parts[i])
    ensures r == [] <==> parts == []
  {
    if parts == [] then [] else Prefixed(parts[0]) + Sequence(parts[1..])
  }

  predicate PrintableSigner(signer: Signer) {
    && Small(signer.digests)
    && (forall i :: 0 <= i < |signer.certificates| ==> Small(signer.certificates[i]))
    && Small(Sequence(signer.certificates))
    && Small(PrintSignedData(signer))
    && Small(PrintSigner(signer))
  }

  function PrintSignedData(signer: Signer): seq<Byte>
    requires Small(signer.digests)
    requires forall i :: 0 <= i < |signer.certificates| ==> Small(signer.certificates[i])
    requires Small(Sequence(signer.certificates))
  {
    Prefixed(signer.digests) + Prefixed(Sequence(signer.certificates)) + signer.signedRest
  }

  function PrintSigner(signer: Signer): seq<Byte>
    requires Small(signer.digests)
    requires forall i :: 0 <= i < |signer.certificates| ==> Small(signer.certificates[i])
    requires Small(Sequence(signer.certificates)) && Small(PrintSignedData(signer))
  {
    Prefixed(PrintSignedData(signer)) + signer.rest
  }

  function SignerParts(signers: seq<Signer>): (r: seq<seq<Byte>>)
    requires forall i :: 0 <= i < |signers| ==> PrintableSigner(signers[i])
    ensures |r| == |signers|
    ensures forall i :: 0 <= i < |r| ==> PrintableSigner(signers[i]) && r[i] == PrintSigner(signers[i]) && Small(r[i])
  {
    seq(|signers|, i requires 0 <= i < |signers| && PrintableSigner(signers[i]) => PrintSigner(signers[i]))
  }

  predicate PrintableSigners(signers: seq<Signer>) {
    && (forall i :: 0 <= i < |signers| ==> PrintableSigner(signers[i]))
    && Small(Sequence(SignerParts(signers)))
  }

  /** The value of a scheme's pair: its signers, and whatever the scheme adds after them. */
  function PrintSigners(signers: seq<Signer>, tail: seq<Byte>): seq<Byte>
    requires PrintableSigners(signers)
  {
    Prefixed(Sequence(SignerParts(signers))) + tail
  }

  lemma ReadPrefixed(s: seq<Byte>, tail: seq<Byte>)
    requires Small(s)
    ensures LengthPrefixed(Prefixed(s) + tail) == Ok((s, tail))
  {
  }

  lemma ReadSignedData(signer: Signer)
    requires PrintableSigner(signer)
    ensures SignedDataCertificate(PrintSignedData(signer)) ==
      if signer.certificates == [] then Err(NoCertificate) else Ok(signer.certificates[0])
  {
    hide LengthPrefixed, Prefixed;
    var certificates := Sequence(signer.certificates);
    ReadPrefixed(signer.digests, Prefixed(certificates) + signer.signedRest);
    assert PrintSignedData(signer) == Prefixed(signer.digests) + (Prefixed(certificates) + signer.signedRest);
    ReadPrefixed(certificates, signer.signedRest);
    if signer.certificates != [] {
      ReadPrefixed(signer.certificates[0], Sequence(signer.certificates[1..]));
    }
  }

  /** The certificate read from a printed block is the first one of its first signer. */
  lemma ReadSigners(signers: seq<Signer>, tail: seq<Byte>)
    requires PrintableSigners(signers)
    ensures FirstCertificate(PrintSigners(signers, tail)) ==
      if signers == [] then Err(NoSigner)
      else if signers[0].certificates == [] then Err(NoCertificate)
      else Ok(signers[0].certificates[0])
  {
    hide LengthPrefixed, Prefixed, SignedDataCertificate, PrintSignedData;
    var parts := SignerParts(signers);
    ReadPrefixed(Sequence(parts), tail);
    if signers != [] {
      ReadPrefixed(parts[0], Sequence(parts[1..]));
      ReadPrefixed(PrintSignedData(signers[0]), signers[0].rest);
      ReadSignedData(signers[0]);
    }
  }

  // ------------------------------------------------------------------------
  //  The pairs of the block
  // ------------------------------------------------------------------------

  predicate PrintablePair(p: Pair) {
    p.id < 0x1_0000_0000 && 4 + |p.value| <= MAX_SAFE_INTEGER
  }

  predicate PrintablePairs(ps: seq<Pair>) {
    forall i :: 0 <= i < |ps| ==> PrintablePair(ps[i])
  }

  function PrintPair(p: Pair): seq<Byte>
    requires PrintablePair(p)
  {
    Put64(4 + |p.value|) + Put32(p.id) + p.value
  }

  function PrintPairs(ps: seq<Pair>): (r: seq<Byte>)
    requires PrintablePairs(ps)
    ensures |r| >= 12 * |ps|
  {
    if ps == [] then [] else PrintPair(ps[0]) + PrintPairs(ps[1..])
  }

  /** The loop stops twelve bytes before the end: an empty value in last position goes unread. */
  function Read(ps: seq<Pair>): seq<Pair> {
    if ps != [] && ps[|ps| - 1].value == [] then ps[..|ps| - 1] else ps
  }

  function AddPairs(found: Pairs, ps: seq<Pair>): Pairs
    decreases |ps|
  {
    if ps == [] then found else AddPairs(AddPair(found, ps[0]), ps[1..])
  }

  lemma ReadOnePair(p: Pair, tail: seq<Byte>)
    requires PrintablePair(p)
    ensures NextPair(PrintPair(p) + tail) == Ok((p, tail))
  {
    var all := PrintPair(p) + tail;
    assert At(Put64(4 + |p.value|), all, 0) && At(Put32(p.id), all, 8);
    U64Inside(Put64(4 + |p.value|), all, 0);
    U32Inside(Put32(p.id), all, 8);
    assert all[12..12 + |p.value|] == p.value && all[12 + |p.value|..] == tail;
  }

  /** One turn of the loop over printed pairs. */
  lemma ReadFirstPair(ps: seq<Pair>, found: Pairs)
    requires PrintablePairs(ps) && ps != [] && (|ps| > 1 || ps[0].value != [])
    ensures PrintablePairs(ps[1..])
    ensures ReadPairs(PrintPairs(ps), found) == ReadPairs(PrintPairs(ps[1..]), AddPair(found, ps[0]))
  {
    hide NextPair, AddPair;
    var tail := PrintPairs(ps[1..]);
    assert |PrintPair(ps[0])| == 12 + |ps[0].value|;
    ReadOnePair(ps[0], tail);
    hide PrintPair;
    assert PrintPairs(ps) == PrintPair(ps[0]) + tail;
  }

  lemma {:induction false} ReadPrintedPairs(ps: seq<Pair>, found: Pairs)
    requires PrintablePairs(ps)
    ensures ReadPairs(PrintPairs(ps), found) == Ok(AddPairs(found, Read(ps)))
    decreases |ps|
  {
    hide AddPair, NextPair;
    if ps != [] {
      if |ps| == 1 && ps[0].value == [] {
        assert |PrintPairs(ps)| == 12;
        assert Read(ps) == [];
      } else {
        hide ReadPairs, PrintPairs, PrintablePairs;
        ReadFirstPair(ps, found);
        ReadPrintedPairs(ps[1..], AddPair(found, ps[0]));
        assert Read(ps) == [ps[0]] + Read(ps[1..]);
      }
    }
  }

  /** The first pair of an id, if any. */
  function FirstOf(ps: seq<Pair>, id: nat): (r: Option<seq<Byte>>)
    ensures r.None? <==> forall i :: 0 <= i < |ps| ==> ps[i].id != id
    ensures r.Some? ==> exists i :: 0 <= i < |ps| && ps[i] == Pair(id, r.value)
  {
    if ps == [] then None else if ps[0].id == id then Some(ps[0].value) else FirstOf(ps[1..], id)
  }

  lemma {:induction false} AddedPairs(found: Pairs, ps: seq<Pair>, id: nat)
    ensures var all := AddPairs(found, ps);
      && (id in all <==> id in found || FirstOf(ps, id).Some?)
      && (id in found ==> all[id] == found[id])
      && (id !in found && id in all ==> Some(all[id]) == FirstOf(ps, id))
    decreases |ps|
  {
    if ps != [] {
      AddedPairs(AddPair(found, ps[0]), ps[1..], id);
    }
  }

  // ------------------------------------------------------------------------
  //  The whole file
  // ------------------------------------------------------------------------

  /** A ZIP archive with a signing block; `endFields` are the end record's twelve bytes before its offset. */
  datatype Archive = Archive(
    entries: seq<Byte>, pairs: seq<Pair>, directory: seq<Byte>, endFields: seq<Byte>, comment: seq<Byte>)

  function BlockSize(a: Archive): nat
    requires PrintablePairs(a.pairs)
  {
    |PrintPairs(a.pairs)| + 24
  }

  function DirectoryOffset(a: Archive): nat
    requires PrintablePairs(a.pairs)
  {
    |a.entries| + 8 + BlockSize(a)
  }

  predicate Printable(a: Archive) {
    && PrintablePairs(a.pairs)
    && DirectoryOffset(a) < 0x1_0000_0000
    && |a.endFields| == 12
    && |a.comment| <= 65_535
  }

  /** What comes before the central directory, before each of its entries, and before the end record. */
  function BlockMark(): (s: seq<Byte>)
    ensures |s| == 16
  {
    Ascii("APK Sig Block 42")
  }

  function EntryMark(): (s: seq<Byte>)
    ensures |s| == 4
  {
    Ascii("PK") + [1, 2]
  }

  function EndMark(): (s: seq<Byte>)
    ensures |s| == 4
  {
    Ascii("PK") + [5, 6]
  }

  function PrintBlock(a: Archive): seq<Byte>
    requires Printable(a)
  {
    Put64(BlockSize(a)) + PrintPairs(a.pairs) + Put64(BlockSize(a)) + BlockMark()
  }

  function PrintEnd(a: Archive): seq<Byte>
    requires Printable(a)
  {
    EndMark() + a.endFields + Put32(DirectoryOffset(a)) + Put16(|a.comment|) + a.comment
  }

  function Print(a: Archive): seq<Byte>
    requires Printable(a)
  {
    a.entries + PrintBlock(a) + a.directory + PrintEnd(a)
  }

  function EndOffset(a: Archive): nat
    requires Printable(a)
  {
    DirectoryOffset(a) + |a.directory|
  }

  lemma AtTransitive(part: seq<Byte>, middle: seq<Byte>, whole: seq<Byte>, i: int, j: int)
    requires At(part, middle, i) && At(middle, whole, j)
    ensures At(part, whole, j + i)
  {
    forall k | 0 <= k < |part| ensures whole[j + i + k] == part[k] {
      assert middle[i..i + |part|][k] == middle[i + k];
      assert whole[j..j + |middle|][i + k] == whole[j + i + k];
    }
  }

  /** The marks of the format, as the reader compares them. */
  lemma MarksOfTheFormat()
    ensures U32(EndMark(), 0) == EOCD_SIGNATURE && U32(EntryMark(), 0) == CENTRAL_DIRECTORY_SIGNATURE
    ensures EndMark() == [0x50, 0x4b, 5, 6] && BlockMark() == MAGIC
  {
    assert |EndMark()| == 4 && EndMark()[0] == 'P' as int && EndMark()[1] == 'K' as int;
    forall i | 0 <= i < 16 ensures BlockMark()[i] == MAGIC[i] {
    }
  }

  lemma EndParts(a: Archive)
    requires Printable(a)
    ensures var b := Print(a);
      && EndOffset(a) + 22 + |a.comment| == |b|
      && U32(b, EndOffset(a)) == EOCD_SIGNATURE
      && U32(b, EndOffset(a) + 16) == DirectoryOffset(a)
  {
    hide PrintPairs, U32, U64, U16, Put16, Put32, Put64, BlockMark, EndMark;
    var b := Print(a);
    var end := PrintEnd(a);
    assert |PrintBlock(a)| == 8 + BlockSize(a);
    assert At(end, b, EndOffset(a));
    var mark := EndMark();
    MarksOfTheFormat();
    assert At(mark, end, 0);
    assert At(Put32(DirectoryOffset(a)), end, 16);
    AtTransitive(mark, end, b, 0, EndOffset(a));
    AtTransitive(Put32(DirectoryOffset(a)), end, b, 16, EndOffset(a));
    U32Inside(mark, b, EndOffset(a));
    U32Inside(Put32(DirectoryOffset(a)), b, EndOffset(a) + 16);
  }

  lemma BlockLayout(size: seq<Byte>, pairs: seq<Byte>, magic: seq<Byte>)
    requires |size| == 8
    ensures var block := size + pairs + size + magic;
      At(size, block, 0) && At(pairs, block, 8) && At(size, block, 8 + |pairs|) && At(magic, block, 16 + |pairs|)
  {
  }

  lemma BlockParts(a: Archive)
    requires Printable(a)
    ensures var b := Print(a); var cd := DirectoryOffset(a);
      && 24 <= cd <= |b|
      && At(BlockMark(), b, cd - 16)
      && U64(b, cd - 24) == BlockSize(a)
      && U64(b, |a.entries|) == BlockSize(a)
      && PairBytes(b, |a.entries|, cd) == PrintPairs(a.pairs)
  {
    hide PrintPairs, PrintEnd, U32, U64, U16, Put16, Put32, Put64, BlockMark;
    var b := Print(a);
    var size := Put64(BlockSize(a));
    var pairs := PrintPairs(a.pairs);
    var magic := BlockMark();
    var block := size + pairs + size + magic;
    assert At(block, b, |a.entries|);
    BlockLayout(size, pairs, magic);
    BlockInside(b, |a.entries|, size, pairs, magic);
  }

  lemma BlockInside(b: seq<Byte>, start: int, size: seq<Byte>, pairs: seq<Byte>, magic: seq<Byte>)
    requires |size| == 8 && |magic| == 16
    requires At(size + pairs + size + magic, b, start)
    ensures U64(b, start) == U64(size, 0) && U64(b, start + 8 + |pairs|) == U64(size, 0)
    ensures At(pairs, b, start + 8) && At(magic, b, start + 16 + |pairs|)
  {
    hide U64;
    var block := size + pairs + size + magic;
    BlockLayout(size, pairs, magic);
    AtTransitive(size, block, b, 0, start);
    AtTransitive(pairs, block, b, 8, start);
    AtTransitive(size, block, b, 8 + |pairs|, start);
    AtTransitive(magic, block, b, 16 + |pairs|, start);
    U64Inside(size, b, start);
    U64Inside(size, b, start + 8 + |pairs|);
  }

  /** The mark of an end record, with room for the record. */
  predicate EndRecordAt(b: seq<Byte>, i: int) {
    0 <= i && i + 22 <= |b| && b[i..i + 4] == [0x50, 0x4b, 5, 6]
  }

  lemma EndRecordIsEocd(b: seq<Byte>, i: int)
    ensures EndRecordAt(b, i) <==> IsEocd(b, i)
  {
    if 0 <= i && i + 22 <= |b| {
      var mark: seq<Byte> := [0x50, 0x4b, 5, 6];
      U32Inside(b[i..i + 4], b, i);
      assert b[i..i + 4] == [b[i], b[i + 1], b[i + 2], b[i + 3]];
      SameDigits(b[i], b[i + 1], b[i + 2], b[i + 3]);
    }
  }

  lemma SameDigits(a: Byte, b: Byte, c: Byte, d: Byte)
    ensures U32([a, b, c, d], 0) == EOCD_SIGNATURE <==> a == 0x50 && b == 0x4b && c == 5 && d == 6
  {
    var s := [a, b, c, d];
    assert U32(s, 0) == a + 0x100 * b + 0x1_0000 * (c + 0x100 * d);
  }

  /** Nothing after the end record, its comment included, reads as another end record. */
  ghost predicate EndIsLast(a: Archive)
    requires Printable(a)
  {
    forall i :: EndOffset(a) < i ==> !EndRecordAt(Print(a), i)
  }

  lemma EndIsLastWithoutComment(a: Archive)
    requires Printable(a) && a.comment == []
    ensures EndIsLast(a)
  {
    hide PrintPairs, PrintBlock, PrintEnd, DirectoryOffset;
    EndParts(a);
  }

  /**
   * Printing an archive then reading it gives the newest scheme among the pairs
   * read, whatever their order and whatever unknown pairs surround them.
   */
  lemma ReadPrintedArchive(a: Archive, signatureFile: seq<Byte> -> bool)
    requires Printable(a) && EndIsLast(a)
    ensures SigningCertificate(Print(a), signatureFile) == PickScheme(AddPairs(map[], Read(a.pairs)))
  {
    hide Print, PickScheme, V1Names, U32, U64, PairBytes, DirectoryOffset, EndOffset, BlockSize, LastEocd;
    var b := Print(a);
    EndParts(a);
    BlockParts(a);
    SizesFit(a);
    ReadPrintedPairs(a.pairs, map[]);
    MarksOfTheFormat();
    forall i | EndOffset(a) < i ensures !IsEocd(b, i) {
      EndRecordIsEocd(b, i);
    }
    assert IsEocd(b, EndOffset(a));
    assert LastEocd(b, |b| - EOCD_LENGTH) == EndOffset(a);
    assert BlockStart(b, DirectoryOffset(a)) == Ok(|a.entries|);
  }

  lemma SizesFit(a: Archive)
    requires Printable(a)
    ensures DirectoryOffset(a) == |a.entries| + 8 + BlockSize(a) && BlockSize(a) <= MAX_SAFE_INTEGER
  {
  }

  /** The first pair of the newest scheme present, by the ids of APK Signature Scheme v3.1, v3 and v2. */
  ghost predicate NewestPresent(ps: seq<Pair>, scheme: Scheme, value: seq<Byte>) {
    match scheme
    case V31 => FirstOf(ps, 0x1b93ad61) == Some(value)
    case V3 => FirstOf(ps, 0x1b93ad61).None? && FirstOf(ps, 0xf05368c0) == Some(value)
    case V2 =>
      FirstOf(ps, 0x1b93ad61).None? && FirstOf(ps, 0xf05368c0).None? && FirstOf(ps, 0x7109871a) == Some(value)
  }

  /** The newest scheme present decides alone; without any of the three there is no certificate. */
  lemma PickedScheme(ps: seq<Pair>, scheme: Scheme, value: seq<Byte>)
    ensures NewestPresent(ps, scheme, value) ==>
      PickScheme(AddPairs(map[], ps)) == match FirstCertificate(value)
        case Ok(der) => Ok(Certificate(der, scheme))
        case Err(e) => Err(e)
    ensures FirstOf(ps, 0x1b93ad61).None? && FirstOf(ps, 0xf05368c0).None? && FirstOf(ps, 0x7109871a).None? ==>
      PickScheme(AddPairs(map[], ps)) == Err(NoKnownScheme)
  {
    hide FirstCertificate, AddPairs;
    AddedPairs(map[], ps, 0x1b93ad61);
    AddedPairs(map[], ps, 0xf05368c0);
    AddedPairs(map[], ps, 0x7109871a);
  }

  /**
   * The round trip: whatever the order of the pairs and the unknown ones among
   * them, the reader returns the first certificate of the first signer of the
   * newest scheme present.
   */
  lemma CertificateRoundTrip(
    a: Archive, scheme: Scheme, signers: seq<Signer>, tail: seq<Byte>, signatureFile: seq<Byte> -> bool)
    requires Printable(a) && EndIsLast(a)
    requires forall i :: 0 <= i < |a.pairs| ==> a.pairs[i].value != []
    requires PrintableSigners(signers) && signers != [] && signers[0].certificates != []
    requires NewestPresent(a.pairs, scheme, PrintSigners(signers, tail))
    ensures SigningCertificate(Print(a), signatureFile) == Ok(Certificate(signers[0].certificates[0], scheme))
  {
    hide SigningCertificate, Print, PrintSigners, FirstCertificate, PickScheme;
    ReadPrintedArchive(a, signatureFile);
    assert Read(a.pairs) == a.pairs;
    PickedScheme(a.pairs, scheme, PrintSigners(signers, tail));
    ReadSigners(signers, tail);
  }

  // ------------------------------------------------------------------------
  //  Totality
  // ------------------------------------------------------------------------

  /** The one way out of the error messages: a block whose 24-byte trailer does not fit before the directory. */
  predicate TrailerOutsideFile(b: seq<Byte>) {
    var eocd := LastEocd(b, |b| - EOCD_LENGTH);
    eocd != -1 && HasMagic(b, U32(b, eocd + 16)) && U32(b, eocd + 16) < 24
  }

  lemma {:induction false} PairErrors(s: seq<Byte>, found: Pairs)
    ensures ReadPairs(s, found).Err? ==> ReadPairs(s, found).error in {HugeLength, Truncated}
    decreases |s|
  {
    if |s| > 12 && NextPair(s).Ok? {
      PairErrors(NextPair(s).value.1, AddPair(found, NextPair(s).value.0));
    }
  }

  lemma SchemeErrors(pairs: Pairs)
    ensures PickScheme(pairs).Err? ==> PickScheme(pairs).error in {NoKnownScheme, Truncated, NoSigner, NoCertificate}
  {
  }

  /** Every file ends in a certificate or a ProvisioningError, except exactly those. */
  lemma RangeErrorExactly(b: seq<Byte>, signatureFile: seq<Byte> -> bool)
    ensures SigningCertificate(b, signatureFile) == Err(BufferRange) <==> TrailerOutsideFile(b)
  {
    hide LastEocd, V1Names, PickScheme, ReadPairs, HasMagic, PairBytes;
    var eocd := LastEocd(b, |b| - EOCD_LENGTH);
    if eocd != -1 && HasMagic(b, U32(b, eocd + 16)) {
      var cd := U32(b, eocd + 16);
      MagicInside(b, cd);
      var start := BlockStart(b, cd);
      if start.Ok? {
        PairErrors(PairBytes(b, start.value, cd), map[]);
        var pairs := ReadPairs(PairBytes(b, start.value, cd), map[]);
        if pairs.Ok? {
          SchemeErrors(pairs.value);
        }
      }
    }
  }

  lemma MagicInside(b: seq<Byte>, cd: nat)
    requires HasMagic(b, cd)
    ensures MAGIC_LENGTH <= cd <= |b|
  {
  }

  /** The magic alone, then the end record of a directory at byte 16: thirty-eight bytes that end in a range error. */
  lemma MagicAloneIsARangeError(signatureFile: seq<Byte> -> bool)
    ensures var b := BlockMark() + EndMark() + seq(12, _ => 0) + [16, 0, 0, 0] + [0, 0];
      SigningCertificate(b, signatureFile) == Err(BufferRange)
  {
    var mark, offset: seq<Byte> := EndMark(), [16, 0, 0, 0];
    var b := BlockMark() + mark + seq(12, _ => 0) + offset + [0, 0];
    MarksOfTheFormat();
    hide BlockMark, EndMark;
    assert At(mark, b, 16) && At(offset, b, 32);
    U32Inside(mark, b, 16);
    U32Inside(offset, b, 32);
    assert U32(offset, 0) == 16;
    assert IsEocd(b, 16);
    assert LastEocd(b, |b| - EOCD_LENGTH) == 16;
    assert b[0..16] == MAGIC;
    RangeErrorExactly(b, signatureFile);
  }
}

/**
 * What a file that gives a certificate is made of, and why the others are refused
 * (packages/provisioning-payload/src/apk.ts), by the bytes of the format.
 */
module ApkFormat {
  import opened Wrappers
  import opened LittleEndian
  import opened Apk
  import opened ApkRoundTrip

  // ------------------------------------------------------------------------
  //  Files that are not archives
  // ------------------------------------------------------------------------

  lemma BlockErrors(b: seq<Byte>, cd: nat)
    requires 16 <= cd <= |b|
    ensures var r := ReadBlock(b, cd);
      r.Err? ==> r.error !in {NotAnArchive, Unsigned} && !r.error.OnlyV1?
  {
    hide ReadPairs, PickScheme;
    var start := BlockStart(b, cd);
    if start.Ok? {
      var pairs := ReadPairs(PairBytes(b, start.value, cd), map[]);
      PairErrors(PairBytes(b, start.value, cd), map[]);
      if pairs.Ok? {
        SchemeErrors(pairs.value);
      }
    }
  }

  /** A file is not an archive exactly when no end record begins in its last 65557 bytes. */
  lemma NotAnArchiveExactly(b: seq<Byte>, signatureFile: seq<Byte> -> bool)
    ensures SigningCertificate(b, signatureFile) == Err(NotAnArchive) <==>
      forall i :: |b| - 65_557 <= i ==> !EndRecordAt(b, i)
  {
    hide V1Names, ReadBlock, LastEocd, EndRecordAt, IsEocd;
    var last := LastEocd(b, |b| - EOCD_LENGTH);
    forall i ensures EndRecordAt(b, i) <==> IsEocd(b, i) {
      EndRecordIsEocd(b, i);
    }
    if last == -1 {
      NoneFound(b);
    } else if HasMagic(b, U32(b, last + 16)) {
      BlockErrors(b, U32(b, last + 16));
    }
  }

  lemma NoneFound(b: seq<Byte>)
    requires LastEocd(b, |b| - EOCD_LENGTH) == -1
    ensures forall i :: |b| - 65_557 <= i ==> !IsEocd(b, i)
  {
  }

  // ------------------------------------------------------------------------
  //  Files that give a certificate
  // ------------------------------------------------------------------------

  /**
   * The central directory of a file is at byte `cd`, by its last end record, and an
   * APK signing block that starts at byte `start` ends there: the mark, and the same
   * size before and after the pairs, that of the block without its first size.
   */
  ghost predicate SigningBlockAt(b: seq<Byte>, end: int, cd: nat, start: nat) {
    && EndRecordAt(b, end) && (forall i :: end < i ==> !EndRecordAt(b, i)) && cd == U32(b, end + 16)
    && start + 32 <= cd <= |b| && b[cd - 16..cd] == BlockMark()
    && U64(b, start) == U64(b, cd - 24) == cd - start - 8
  }

  /** The last end record found is the last one of the file. */
  lemma LastEndRecord(b: seq<Byte>)
    requires LastEocd(b, |b| - EOCD_LENGTH) != -1
    ensures var end := LastEocd(b, |b| - EOCD_LENGTH);
      EndRecordAt(b, end) && forall i :: end < i ==> !EndRecordAt(b, i)
  {
    var end := LastEocd(b, |b| - EOCD_LENGTH);
    forall i ensures EndRecordAt(b, i) <==> IsEocd(b, i) {
      EndRecordIsEocd(b, i);
    }
  }

  /** Only such files give a certificate, and it is the one of the newest scheme among the pairs between the two sizes. */
  lemma AcceptedIsWellFormed(b: seq<Byte>, signatureFile: seq<Byte> -> bool) returns (end: int, cd: nat, start: nat)
    requires SigningCertificate(b, signatureFile).Ok?
    ensures SigningBlockAt(b, end, cd, start)
    ensures var pairs := ReadPairs(b[start + 8..cd - 24], map[]);
      pairs.Ok? && SigningCertificate(b, signatureFile) == PickScheme(pairs.value)
  {
    hide LastEocd, U32, U64, ReadPairs, PickScheme, V1Names, EndRecordAt;
    end := LastEocd(b, |b| - EOCD_LENGTH);
    LastEndRecord(b);
    cd := U32(b, end + 16);
    MarksOfTheFormat();
    start := BlockStart(b, cd).value;
    if start + 32 > cd {
      NoPairs(b, start, cd);
    }
  }

  lemma NoPairs(b: seq<Byte>, start: nat, cd: nat)
    requires 24 <= cd <= |b| && start + 32 > cd
    ensures ReadPairs(PairBytes(b, start, cd), map[]) == Ok(map[]) && PickScheme(map[]) == Err(NoKnownScheme)
  {
  }

  /** The directory of a file, by its last end record: `cd` is what its sixteenth byte on says. */
  ghost predicate DirectoryAt(b: seq<Byte>, end: int, cd: nat) {
    && |b| - 65_557 <= end && EndRecordAt(b, end) && (forall i :: end < i ==> !EndRecordAt(b, i))
    && cd == U32(b, end + 16)
  }

  lemma DirectoryIsRead(b: seq<Byte>, end: int, cd: nat, signatureFile: seq<Byte> -> bool)
    requires DirectoryAt(b, end, cd)
    ensures SigningCertificate(b, signatureFile) == CertificateAt(b, cd, signatureFile)
  {
    forall i ensures EndRecordAt(b, i) <==> IsEocd(b, i) {
      EndRecordIsEocd(b, i);
    }
  }

  /** Every such file is read: its first bad pair refuses it, or else the newest scheme of its pairs decides. */
  lemma WellFormedIsRead(b: seq<Byte>, end: int, cd: nat, start: nat, signatureFile: seq<Byte> -> bool)
    requires DirectoryAt(b, end, cd) && SigningBlockAt(b, end, cd, start)
    ensures SigningCertificate(b, signatureFile) == match ReadPairs(b[start + 8..cd - 24], map[])
      case Ok(pairs) => PickScheme(pairs)
      case Err(e) => Err(e)
  {
    hide U32, U64, ReadPairs, PickScheme, V1Names, EndRecordAt, SigningCertificate;
    DirectoryIsRead(b, end, cd, signatureFile);
    MarksOfTheFormat();
    assert BlockStart(b, cd) == Ok(start);
  }

  /** With the mark before the directory: why the block is refused before its pairs are read. */
  lemma BlockRefusedExactly(b: seq<Byte>, end: int, cd: nat, signatureFile: seq<Byte> -> bool)
    requires DirectoryAt(b, end, cd) && 24 <= cd <= |b| && b[cd - 16..cd] == BlockMark()
    ensures var (size, r) := (U64(b, cd - 24), SigningCertificate(b, signatureFile));
      && (r == Err(BlockOutOfBounds) <==> cd < size + 8 && size <= 9_007_199_254_740_991)
      && (size > 9_007_199_254_740_991 ==> r == Err(HugeLength))
      && (size + 8 <= cd ==>
            (r == Err(SizesDiffer) <==> U64(b, cd - size - 8) != size && U64(b, cd - size - 8) <= 9_007_199_254_740_991))
  {
    hide U32, U64, ReadPairs, PickScheme, V1Names, EndRecordAt, SigningCertificate;
    DirectoryIsRead(b, end, cd, signatureFile);
    MarksOfTheFormat();
    var start := BlockStart(b, cd);
    if start.Ok? {
      var pairs := ReadPairs(PairBytes(b, start.value, cd), map[]);
      PairErrors(PairBytes(b, start.value, cd), map[]);
      if pairs.Ok? {
        SchemeErrors(pairs.value);
      }
    }
  }

  /** What follows the pairs already read cannot be a pair, whatever comes before. */
  ghost predicate BadPair(s: seq<Byte>, e: Failure) {
    |s| > 12 &&
    match e
    case HugeLength => U64(s, 0) > 9_007_199_254_740_991
    case Truncated => U64(s, 0) <= 9_007_199_254_740_991 && (U64(s, 0) < 4 || |s| < U64(s, 0) + 8)
    case _ => false
  }

  lemma ReadFirstPairBefore(ps: seq<Pair>, rest: seq<Byte>, found: Pairs)
    requires PrintablePairs(ps) && ps != [] && |rest| > 12
    ensures PrintablePairs(ps[1..])
    ensures ReadPairs(PrintPairs(ps) + rest, found) == ReadPairs(PrintPairs(ps[1..]) + rest, AddPair(found, ps[0]))
  {
    hide NextPair, AddPair;
    var tail := PrintPairs(ps[1..]) + rest;
    assert |PrintPair(ps[0])| == 12 + |ps[0].value|;
    ReadOnePair(ps[0], tail);
    hide PrintPair;
    assert PrintPairs(ps) + rest == PrintPair(ps[0]) + tail;
  }

  /** Pairs followed by one that says more than is left, or less than its id: the block is refused for it. */
  lemma {:induction false} BadPairIsRefused(ps: seq<Pair>, rest: seq<Byte>, e: Failure, found: Pairs)
    requires PrintablePairs(ps) && BadPair(rest, e)
    ensures ReadPairs(PrintPairs(ps) + rest, found) == Err(e)
    decreases |ps|
  {
    hide AddPair;
    if ps == [] {
      assert PrintPairs(ps) + rest == rest;
    } else {
      hide ReadPairs, PrintPairs, PrintablePairs, BadPair;
      assert |rest| > 12 by {
        BadPairIsLong(rest, e);
      }
      ReadFirstPairBefore(ps, rest, found);
      BadPairIsRefused(ps[1..], rest, e, AddPair(found, ps[0]));
    }
  }

  lemma BadPairIsLong(s: seq<Byte>, e: Failure)
    requires BadPair(s, e)
    ensures |s| > 12
  {
  }

  // ------------------------------------------------------------------------
  //  Files without a signing block
  // ------------------------------------------------------------------------

  /** An entry of the central directory: twenty-four bytes, three lengths, twelve bytes, and what the lengths announce. */
  datatype Entry = Entry(head: seq<Byte>, tail: seq<Byte>, name: seq<Byte>, extra: seq<Byte>, comment: seq<Byte>)

  predicate PrintableEntry(e: Entry) {
    |e.head| == 24 && |e.tail| == 12 && |e.name| < 0x1_0000 && |e.extra| < 0x1_0000 && |e.comment| < 0x1_0000
  }

  function PrintEntry(e: Entry): (s: seq<Byte>)
    requires PrintableEntry(e)
    ensures |s| == 46 + |e.name| + |e.extra| + |e.comment|
  {
    EntryMark() + e.head + Put16(|e.name|) + Put16(|e.extra|) + Put16(|e.comment|) + e.tail + e.name + e.extra + e.comment
  }

  predicate PrintableEntries(es: seq<Entry>) {
    forall i :: 0 <= i < |es| ==> PrintableEntry(es[i])
  }

  function PrintEntries(es: seq<Entry>): seq<Byte>
    requires PrintableEntries(es)
  {
    if es == [] then [] else PrintEntry(es[0]) + PrintEntries(es[1..])
  }

  /** The names that are those of v1 signature files, in order. */
  function SignatureNames(es: seq<Entry>, signatureFile: seq<Byte> -> bool): seq<seq<Byte>> {
    if es == [] then []
    else (if signatureFile(es[0].name) then [es[0].name] else []) + SignatureNames(es[1..], signatureFile)
  }

  /** The parts of an entry that are read, where they lie in it. */
  lemma EntryParts(e: Entry)
    requires PrintableEntry(e)
    ensures var s := PrintEntry(e);
      && At(EntryMark(), s, 0) && At(Put16(|e.name|), s, 28) && At(Put16(|e.extra|), s, 30)
      && At(Put16(|e.comment|), s, 32) && At(e.name, s, 46)
  {
    hide EntryMark, Put16;
  }

  lemma ReadEntry(e: Entry, b: seq<Byte>, offset: nat)
    requires PrintableEntry(e) && At(PrintEntry(e), b, offset)
    ensures DirectoryEntry(b, offset) == Some((e.name, offset + |PrintEntry(e)|))
  {
    hide EntryMark, Put16, PrintEntry, U32, U16;
    var s := PrintEntry(e);
    EntryParts(e);
    AtTransitive(EntryMark(), s, b, 0, offset);
    AtTransitive(Put16(|e.name|), s, b, 28, offset);
    AtTransitive(Put16(|e.extra|), s, b, 30, offset);
    AtTransitive(Put16(|e.comment|), s, b, 32, offset);
    AtTransitive(e.name, s, b, 46, offset);
    U32Inside(EntryMark(), b, offset);
    U16Inside(Put16(|e.name|), b, offset + 28);
    U16Inside(Put16(|e.extra|), b, offset + 30);
    U16Inside(Put16(|e.comment|), b, offset + 32);
    MarksOfTheFormat();
  }

  lemma EndIsNoEntry(b: seq<Byte>, offset: nat)
    requires At(EndMark(), b, offset)
    ensures DirectoryEntry(b, offset).None?
  {
    U32Inside(EndMark(), b, offset);
    MarksOfTheFormat();
  }

  lemma SideBySide(first: seq<Byte>, rest: seq<Byte>, b: seq<Byte>, offset: nat)
    requires At(first + rest, b, offset)
    ensures At(first, b, offset) && At(rest, b, offset + |first|)
  {
    AtTransitive(first, first + rest, b, 0, offset);
    AtTransitive(rest, first + rest, b, |first|, offset);
  }

  /** The names of a printed directory that an end record follows. */
  lemma {:induction false} ReadEntries(es: seq<Entry>, b: seq<Byte>, offset: nat, signatureFile: seq<Byte> -> bool)
    requires PrintableEntries(es) && At(PrintEntries(es) + EndMark(), b, offset)
    ensures V1Names(b, offset, signatureFile) == SignatureNames(es, signatureFile)
    decreases |es|
  {
    hide DirectoryEntry, PrintEntry, EndMark, At;
    if es == [] {
      assert PrintEntries(es) + EndMark() == EndMark();
      EndIsNoEntry(b, offset);
    } else {
      var first, rest := PrintEntry(es[0]), PrintEntries(es[1..]) + EndMark();
      assert PrintEntries(es) + EndMark() == first + rest;
      SideBySide(first, rest, b, offset);
      ReadEntry(es[0], b, offset);
      ReadEntries(es[1..], b, offset + |first|, signatureFile);
    }
  }

  /** An archive without a signing block; `endFields` are the end record's twelve bytes before its offset. */
  datatype Plain = Plain(contents: seq<Byte>, entries: seq<Entry>, endFields: seq<Byte>, comment: seq<Byte>)

  ghost predicate PrintablePlain(a: Plain) {
    && PrintableEntries(a.entries) && |a.contents| < 0x1_0000_0000 && |a.endFields| == 12 && |a.comment| <= 65_535
    && (|a.contents| >= 16 ==> a.contents[|a.contents| - 16..] != BlockMark())
  }

  function PrintRecord(a: Plain): seq<Byte>
    requires |a.contents| < 0x1_0000_0000 && |a.comment| <= 65_535
  {
    EndMark() + a.endFields + Put32(|a.contents|) + Put16(|a.comment|) + a.comment
  }

  function PrintPlain(a: Plain): seq<Byte>
    requires PrintableEntries(a.entries) && |a.contents| < 0x1_0000_0000 && |a.comment| <= 65_535
  {
    a.contents + PrintEntries(a.entries) + PrintRecord(a)
  }

  lemma PlainParts(a: Plain)
    requires PrintablePlain(a)
    ensures var (b, end) := (PrintPlain(a), |a.contents| + |PrintEntries(a.entries)|);
      && end + 22 + |a.comment| == |b| && EndRecordAt(b, end) && U32(b, end + 16) == |a.contents|
      && At(PrintEntries(a.entries) + EndMark(), b, |a.contents|)
  {
    hide PrintEntries, Put16, U32, Put32, EndMark;
    MarksOfTheFormat();
    var b, end := PrintPlain(a), |a.contents| + |PrintEntries(a.entries)|;
    assert At(PrintRecord(a), b, end);
    assert At(Put32(|a.contents|), PrintRecord(a), 16) && At(EndMark(), PrintRecord(a), 0);
    AtTransitive(Put32(|a.contents|), PrintRecord(a), b, 16, end);
    AtTransitive(EndMark(), PrintRecord(a), b, 0, end);
    U32Inside(Put32(|a.contents|), b, end + 16);
  }

  /** It is refused, as signed in the v1 scheme only by the signature files of its directory, or as not signed at all. */
  lemma WithoutABlockExactly(a: Plain, signatureFile: seq<Byte> -> bool)
    requires PrintablePlain(a)
    requires forall i :: |a.contents| + |PrintEntries(a.entries)| < i ==> !EndRecordAt(PrintPlain(a), i)
    ensures SigningCertificate(PrintPlain(a), signatureFile) ==
      if SignatureNames(a.entries, signatureFile) == [] then Err(Unsigned)
      else Err(OnlyV1(SignatureNames(a.entries, signatureFile)))
  {
    hide SigningCertificate, EndRecordAt, PrintEntries, V1Names, SignatureNames, U32, EndMark, BlockMark;
    var b, cd := PrintPlain(a), |a.contents|;
    PlainParts(a);
    DirectoryIsRead(b, cd + |PrintEntries(a.entries)|, cd, signatureFile);
    MarksOfTheFormat();
    if cd >= 16 {
      assert b[cd - 16..cd] == a.contents[cd - 16..];
    }
    ReadEntries(a.entries, b, cd, signatureFile);
  }
}

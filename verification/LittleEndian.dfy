/** Little-endian integers, as `readUInt16LE`, `readUInt32LE` and `readBigUInt64LE` decode them. */
module LittleEndian {

  type Byte = b: int | 0 <= b < 256

  function U16(s: seq<Byte>, i: int): (r: nat)
    requires 0 <= i && i + 2 <= |s|
    ensures r < 0x1_0000
  {
    s[i] as int + 0x100 * (s[i + 1] as int)
  }

  function U32(s: seq<Byte>, i: int): (r: nat)
    requires 0 <= i && i + 4 <= |s|
    ensures r < 0x1_0000_0000
  {
    U16(s, i) + 0x1_0000 * U16(s, i + 2)
  }

  function U64(s: seq<Byte>, i: int): (r: nat)
    requires 0 <= i && i + 8 <= |s|
    ensures r < 0x1_0000_0000_0000_0000
  {
    U32(s, i) + 0x1_0000_0000 * U32(s, i + 4)
  }

  function Put16(n: nat): (s: seq<Byte>)
    requires n < 0x1_0000
    ensures |s| == 2 && U16(s, 0) == n
  {
    [n % 0x100, n / 0x100]
  }

  function Put32(n: nat): (s: seq<Byte>)
    requires n < 0x1_0000_0000
    ensures |s| == 4 && U32(s, 0) == n
  {
    var s := Put16(n % 0x1_0000) + Put16(n / 0x1_0000);
    U16Inside(Put16(n % 0x1_0000), s, 0);
    U16Inside(Put16(n / 0x1_0000), s, 2);
    s
  }

  function Put64(n: nat): (s: seq<Byte>)
    requires n < 0x1_0000_0000_0000_0000
    ensures |s| == 8 && U64(s, 0) == n
  {
    var s := Put32(n % 0x1_0000_0000) + Put32(n / 0x1_0000_0000);
    U32Inside(Put32(n % 0x1_0000_0000), s, 0);
    U32Inside(Put32(n / 0x1_0000_0000), s, 4);
    s
  }

  /** `part` is what `whole` holds from position `i` on. */
  predicate At(part: seq<Byte>, whole: seq<Byte>, i: int) {
    0 <= i && i + |part| <= |whole| && whole[i..i + |part|] == part
  }

  lemma U16Inside(part: seq<Byte>, whole: seq<Byte>, i: int)
    requires |part| >= 2 && At(part, whole, i)
    ensures U16(whole, i) == U16(part, 0)
  {
  }

  lemma U32Inside(part: seq<Byte>, whole: seq<Byte>, i: int)
    requires |part| >= 4 && At(part, whole, i)
    ensures U32(whole, i) == U32(part, 0)
  {
  }

  lemma U64Inside(part: seq<Byte>, whole: seq<Byte>, i: int)
    requires |part| >= 8 && At(part, whole, i)
    ensures U64(whole, i) == U64(part, 0)
  {
  }

  /** The first byte weighs least, each next one 256 times more. */
  lemma FirstByteWeighsLeast(s: seq<Byte>)
    requires |s| == 8
    ensures U16(s, 0) == s[0] as int + 256 * s[1] as int
    ensures U32(s, 0) == U16(s, 0) + 65_536 * s[2] as int + 16_777_216 * s[3] as int
    ensures U64(s, 0) == U32(s, 0) + 4_294_967_296 * (s[4] as int + 256 * s[5] as int + 65_536 * s[6] as int)
                         + 72_057_594_037_927_936 * s[7] as int
  {
  }

  /** The bytes of a text of ASCII characters. */
  function Ascii(text: string): (s: seq<Byte>)
    requires forall i :: 0 <= i < |text| ==> text[i] as int < 128
    ensures |s| == |text| && forall i :: 0 <= i < |text| ==> s[i] == text[i] as int
  {
    seq(|text|, i requires 0 <= i < |text| && text[i] as int < 128 => text[i] as int)
  }
}

/**
 The name of the raw-bitstream capture file `Create` opens when a capture
 prefix is configured: the prefix, a dash, the stream index in decimal and
 the codec's extension. Opening and writing the file are not modelled.
 */
module DumpFile {
  import opened Packets

  /** The codecs whose bitstream can be captured. */
  datatype Codec = H264 | H265

  function Extension(codec: Codec): (ext: string)
    ensures |ext| == 5 && ext[..2] == ".h"
  {
    match codec
    case H264 => ".h264"
    case H265 => ".h265"
  }

  predicate IsDigits(s: string) {
    forall i :: 0 <= i < |s| ==> '0' <= s[i] <= '9'
  }

  function DigitChar(d: nat): (c: char)
    requires d < 10
    ensures '0' <= c <= '9' && c as int - '0' as int == d
  {
    ('0' as int + d) as char
  }

  /** Decimal text of `n`, as `std::to_string` writes it: digits only, no leading zero. */
  function Decimal(n: nat): (s: string)
    ensures s != [] && IsDigits(s)
    ensures s[0] == '0' ==> n == 0 && s == "0"
    decreases n
  {
    if n < 10 then [DigitChar(n)] else Decimal(n / 10) + [DigitChar(n % 10)]
  }

  /** The number a string of decimal digits denotes. */
  function DecimalValue(s: string): nat
    requires IsDigits(s)
    decreases |s|
  {
    if s == [] then 0
    else 10 * DecimalValue(s[..|s| - 1]) + (s[|s| - 1] as int - '0' as int)
  }

  /** Reading back the decimal text of `n` gives `n`. */
  lemma {:induction false} DecimalRoundTrip(n: nat)
    ensures DecimalValue(Decimal(n)) == n
    decreases n
  {
    if n >= 10 {
      var s := Decimal(n);
      assert s[..|s| - 1] == Decimal(n / 10);
      DecimalRoundTrip(n / 10);
    }
  }

  /**
   The capture file name of stream `streamIdx`: it starts with the prefix
   and a dash, ends with the codec's extension, and what lies between is
   decimal text that reads back as the stream index.
   */
  function DumpFileName(prefix: string, streamIdx: U8, codec: Codec): (name: string)
    ensures |name| > |prefix| + 1 + |Extension(codec)|
    ensures name[..|prefix|] == prefix && name[|prefix|] == '-'
    ensures name[|name| - 5..] == Extension(codec)
    ensures IsDigits(name[|prefix| + 1..|name| - 5])
    ensures DecimalValue(name[|prefix| + 1..|name| - 5]) == streamIdx
    ensures name[|prefix| + 1] == '0' ==> name[|prefix| + 1..|name| - 5] == "0"
  {
    var digits := Decimal(streamIdx);
    var name := prefix + "-" + digits + Extension(codec);
    assert name[|prefix| + 1..|name| - 5] == digits;
    DecimalRoundTrip(streamIdx);
    name
  }

  /** Two streams, or two codecs, never share a capture file under one prefix. */
  lemma DumpFileNamesDistinct(prefix: string, s1: U8, c1: Codec, s2: U8, c2: Codec)
    requires s1 != s2 || c1 != c2
    ensures DumpFileName(prefix, s1, c1) != DumpFileName(prefix, s2, c2)
  {
  }
}

/**
 * The WAV reader: a fixed-order RIFF/WAVE header parser and a frame reader
 * that decodes whole frames into a caller's array.
 *
 * The file is a sequence of bytes with a read cursor. The parser is stated
 * once as the function ParseHeader and implemented by WavInputStream.ReadHeader,
 * which reads the header field by field as the code does; ReadSound is stated
 * by ReadSoundSpec.
 */
module WavInput {
  import opened Common
  import opened WavDecoder

  const RIFF: seq<Byte> := [0x52, 0x49, 0x46, 0x46]  // "RIFF"
  const WAVE: seq<Byte> := [0x57, 0x41, 0x56, 0x45]  // "WAVE"
  const FMT: seq<Byte> := [0x66, 0x6d, 0x74, 0x20]   // "fmt "
  const DATA: seq<Byte> := [0x64, 0x61, 0x74, 0x61]  // "data"

  /** Offset of the byte after the ninth four-byte header field. */
  const SCAN_START := 36

  datatype HeaderError =
    | BadContainer       // a tag did not match or the input ended
    | UnsupportedFormat  // no decoder for the format id and sample width

  datatype Header = Header(
    formatId: nat,
    channels: nat,
    samplingRate: nat,
    bits: nat,
    dataSize: int,
    bytes: nat,
    frameSize: nat,
    decoder: Decoder,
    dataStart: nat)

  datatype HeaderResult = Parsed(header: Header) | Rejected(error: HeaderError)

  // ---------------------------------------------------------------------
  // Little-endian fields

  lemma Pow2Byte(k: nat)
    ensures Pow2(8 * (k + 1)) == 0x100 * Pow2(8 * k)
  {
    Pow2Values();
    Pow2Add(8 * k, 8);
  }

  /** The unsigned little-endian value of a byte string. */
  function LittleEndian(bs: seq<Byte>): (n: nat)
    ensures n < Pow2(8 * |bs|)
  {
    if bs == [] then 0
    else
      Pow2Byte(|bs| - 1);
      bs[0] + 0x100 * LittleEndian(bs[1..])
  }

  /** The k little-endian bytes of n. */
  function LittleEndianBytes(n: nat, k: nat): (bs: seq<Byte>)
    requires n < Pow2(8 * k)
    ensures |bs| == k
  {
    if k == 0 then []
    else
      Pow2Byte(k - 1);
      [n % 0x100] + LittleEndianBytes(n / 0x100, k - 1)
  }

  lemma {:induction false} LittleEndianRoundTrip(n: nat, k: nat)
    requires n < Pow2(8 * k)
    ensures LittleEndian(LittleEndianBytes(n, k)) == n
  {
    if k > 0 {
      Pow2Byte(k - 1);
      LittleEndianRoundTrip(n / 0x100, k - 1);
      assert LittleEndianBytes(n, k)[1..] == LittleEndianBytes(n / 0x100, k - 1);
    } else {
      assert Pow2(0) == 1;
    }
  }

  lemma {:induction false} LittleEndianBytesRoundTrip(bs: seq<Byte>)
    ensures LittleEndianBytes(LittleEndian(bs), |bs|) == bs
  {
    if bs != [] {
      var t := bs[1..];
      Pow2Byte(|bs| - 1);
      ByteSplit(bs[0] as nat, LittleEndian(t));
      LittleEndianBytesRoundTrip(t);
      assert bs == [bs[0]] + t;
    }
  }

  lemma ByteSplit(b: nat, m: nat)
    requires b < 0x100
    ensures (b + 0x100 * m) % 0x100 == b && (b + 0x100 * m) / 0x100 == m
  {
  }

  /** The two, three and four-byte little-endian fields at offset i, as the code assembles them. */
  function Le16(s: seq<Byte>, i: nat): nat
    requires i + 2 <= |s|
  {
    s[i] as int + 0x100 * s[i + 1] as int
  }

  function Le24(s: seq<Byte>, i: nat): nat
    requires i + 3 <= |s|
  {
    Le16(s, i) + 0x1_0000 * s[i + 2] as int
  }

  function Le32(s: seq<Byte>, i: nat): nat
    requires i + 4 <= |s|
  {
    Le24(s, i) + 0x100_0000 * s[i + 3] as int
  }

  /** The fixed-width fields are the little-endian value of their bytes. */
  lemma LittleEndianFixed(bs: seq<Byte>)
    requires 2 <= |bs| <= 4
    ensures |bs| == 2 ==> LittleEndian(bs) == Le16(bs, 0)
    ensures |bs| == 3 ==> LittleEndian(bs) == Le24(bs, 0)
    ensures |bs| == 4 ==> LittleEndian(bs) == Le32(bs, 0)
  {
    var t := bs[1..];
    var u := t[1..];
    assert LittleEndian(bs) == bs[0] + 0x100 * LittleEndian(t);
    assert LittleEndian(t) == t[0] + 0x100 * LittleEndian(u);
    if |bs| >= 3 {
      var v := u[1..];
      assert LittleEndian(u) == u[0] + 0x100 * LittleEndian(v);
      if |bs| == 4 {
        assert LittleEndian(v) == v[0] + 0x100 * LittleEndian(v[1..]);
        assert v[1..] == [];
      } else {
        assert v == [];
      }
    } else {
      assert u == [];
    }
  }

  /** A Java `int` holding the 32-bit pattern u. */
  function Int32(u: int): int
    requires 0 <= u < 0x1_0000_0000
  {
    if u < 0x8000_0000 then u else u - 0x1_0000_0000
  }

  /**
   * The data-size field as the code computes it. `buf[3] & 255 << 24`
   * parses as `buf[3] & (255 << 24)`: the sign-extended top byte
   * contributes 0xFF000000 when it is at least 0x80, and nothing otherwise.
   */
  function DataSizeAsWritten(f: seq<Byte>): int
    requires |f| == 4
  {
    Int32(Le24(f, 0) + (if f[3] >= 0x80 then 0xFF00_0000 else 0))
  }

  /** The data-size field as a little-endian 32-bit Java `int`. */
  function DataSize(f: seq<Byte>): int
    requires |f| == 4
  {
    Int32(Le32(f, 0))
  }

  /** Both readings agree exactly when the top byte is 0x00 or 0xFF. */
  lemma DataSizeReadingsAgree(f: seq<Byte>)
    requires |f| == 4
    ensures DataSizeAsWritten(f) == DataSize(f) <==> f[3] == 0 || f[3] == 0xff
  {
  }

  /** A data chunk of 16 MiB is read as size 0 by the code as written. */
  lemma DataSizeAsWrittenLosesTopByte()
    ensures DataSizeAsWritten([0, 0, 0, 1]) == 0
    ensures DataSize([0, 0, 0, 1]) == 0x100_0000
  {
  }

  /** The intended reading returns every non-negative size it is given. */
  lemma DataSizeRoundTrip(n: nat)
    requires n < 0x8000_0000
    ensures Pow2(32) == 0x1_0000_0000
    ensures DataSize(LittleEndianBytes(n, 4)) == n
  {
    Pow2Values();
    LittleEndianRoundTrip(n, 4);
    LittleEndianFixed(LittleEndianBytes(n, 4));
  }

  // ---------------------------------------------------------------------
  // The header

  /** The four bytes read up to and including index k spell "data". */
  predicate DataTagAt(s: seq<Byte>, k: int)
  {
    3 <= k < |s| && s[k - 3..k + 1] == DATA
  }

  /**
   * The index k of the first byte from `from` on at which the last four
   * bytes read, s[k-3..k+1], spell "data". Following the code, the window
   * is seeded with the bytes before `from`.
   */
  function FindData(s: seq<Byte>, from: nat): (r: Option<nat>)
    requires from >= 3
    ensures r.Some? ==> from <= r.value < |s| && DataTagAt(s, r.value)
    ensures r.Some? ==> forall k :: from <= k < r.value ==> !DataTagAt(s, k)
    ensures r.None? ==> forall k :: from <= k < |s| ==> !DataTagAt(s, k)
    decreases |s| - from
  {
    if from >= |s| then None
    else if DataTagAt(s, from) then Some(from)
    else FindData(s, from + 1)
  }

  /**
   * The bytes the data-size read leaves in the four-byte buffer. The read
   * before it left "data" there; a read that finds only 1 to 3 bytes
   * overwrites only that many.
   */
  function DataSizeField(s: seq<Byte>, k: nat): (f: seq<Byte>)
    requires k + 1 < |s|
    ensures |f| == 4
  {
    if k + 5 <= |s| then s[k + 1..k + 5] else s[k + 1..] + DATA[|s| - (k + 1)..]
  }

  /** What the data-size read leaves in the buffer when it finds r bytes. */
  lemma SizeFieldRead(s: seq<Byte>, k: nat, r: nat, after: seq<Byte>)
    requires k + 1 < |s| && r == Min(4, |s| - (k + 1))
    requires after == s[k + 1..k + 1 + r] + DATA[r..]
    ensures after == DataSizeField(s, k)
  {
  }

  /**
   * `readHeader`: RIFF tag, skipped size, WAVE tag, fmt tag, skipped chunk
   * size, format id and channel count, sampling rate (three low bytes),
   * skipped byte rate, bits per sample (third byte of the field), a
   * byte-by-byte scan for "data", the data size, and finally the decoder.
   *
   * A four-byte read fails only when no byte is left; a read that finds
   * fewer bytes keeps the old tail of the buffer. Before the scan no such
   * read can succeed overall: a short read consumes the rest of the file,
   * so the next read fails. So any input shorter than the nine fixed
   * fields is rejected, and only the data-size read can be short.
   */
  function ParseHeader(s: seq<Byte>): (r: HeaderResult)
    ensures r.Parsed? ==> SCAN_START <= |s| && s[0..4] == RIFF && s[8..12] == WAVE && s[12..16] == FMT
    ensures r.Parsed? ==> SCAN_START + 1 < r.header.dataStart <= |s|
    ensures |s| < SCAN_START ==> r == Rejected(BadContainer)
  {
    if |s| < SCAN_START || s[0..4] != RIFF || s[8..12] != WAVE || s[12..16] != FMT then
      Rejected(BadContainer)
    else
      match FindData(s, SCAN_START)
      case None => Rejected(BadContainer)
      case Some(k) => if k + 1 == |s| then Rejected(BadContainer) else ParseFormat(s, k)
  }

  /** The rest of the header once "data" was found ending at byte k: the fields and the decoder. */
  function ParseFormat(s: seq<Byte>, k: nat): (r: HeaderResult)
    requires SCAN_START <= k + 1 < |s|
    ensures r.Parsed? ==> r.header.dataStart == Min(k + 5, |s|)
  {
    var formatId := Le16(s, 20);
    var channels := s[22];
    var bits := s[34];
    var bytes := (bits as int + 7) / 8;
    match GetDecoder(formatId, bytes)
    case None => Rejected(UnsupportedFormat)
    case Some(d) =>
      Parsed(Header(formatId, channels, Le24(s, 24), bits,
                    DataSize(DataSizeField(s, k)), bytes, bytes * channels, d,
                    Min(k + 5, |s|)))
  }

  /** What a parsed header holds, field by field. */
  lemma ParsedFields(s: seq<Byte>)
    requires ParseHeader(s).Parsed?
    ensures var h := ParseHeader(s).header;
      && h.formatId == s[20] as int + 0x100 * s[21] as int
      && h.channels == s[22]
      && h.samplingRate == s[24] as int + 0x100 * s[25] as int + 0x1_0000 * s[26] as int
      && h.samplingRate < 0x100_0000
      && h.bits == s[34]
      && h.bytes == (h.bits + 7) / 8
      && h.frameSize == h.bytes * h.channels
      && GetDecoder(h.formatId, h.bytes) == Some(h.decoder)
      && FindData(s, SCAN_START).Some?
      && h.dataStart == Min(FindData(s, SCAN_START).value + 5, |s|)
      && h.dataSize == DataSize(DataSizeField(s, FindData(s, SCAN_START).value))
  {
  }

  /** A parse whose tags match and whose scan found "data" ending at k, short of the end. */
  lemma ParseHeaderFound(s: seq<Byte>, k: nat)
    requires SCAN_START <= |s| && s[0..4] == RIFF && s[8..12] == WAVE && s[12..16] == FMT
    requires FindData(s, SCAN_START) == Some(k) && k + 1 < |s|
    ensures ParseHeader(s) == ParseFormat(s, k)
  {
  }

  /** ParseFormat rejects exactly the format ids and widths GetDecoder has no decoder for. */
  lemma ParseFormatDecoder(s: seq<Byte>, k: nat, formatId: nat, bits: nat)
    requires SCAN_START <= k + 1 < |s|
    requires formatId == Le16(s, 20) && bits == s[34]
    ensures GetDecoder(formatId, (bits + 7) / 8).None? <==> ParseFormat(s, k) == Rejected(UnsupportedFormat)
    ensures GetDecoder(formatId, (bits + 7) / 8).Some? ==>
              ParseFormat(s, k).Parsed? && ParseFormat(s, k).header.decoder == GetDecoder(formatId, (bits + 7) / 8).value
  {
  }

  /** Every way the header parse fails. */
  lemma ParseHeaderRejects(s: seq<Byte>)
    ensures |s| < SCAN_START || s[0..4] != RIFF || s[8..12] != WAVE || s[12..16] != FMT
            ==> ParseHeader(s) == Rejected(BadContainer)
    ensures |s| >= SCAN_START && FindData(s, SCAN_START).None? ==> ParseHeader(s) == Rejected(BadContainer)
    ensures |s| >= SCAN_START && FindData(s, SCAN_START) == Some(|s| - 1)
            ==> ParseHeader(s) == Rejected(BadContainer)
    ensures ParseHeader(s) == Rejected(UnsupportedFormat) <==>
              && |s| >= SCAN_START && s[0..4] == RIFF && s[8..12] == WAVE && s[12..16] == FMT
              && FindData(s, SCAN_START).Some? && FindData(s, SCAN_START).value + 1 < |s|
              && GetDecoder(Le16(s, 20), (s[34] as int + 7) / 8).None?
  {
  }

  /** The container errors, as one precondition. */
  lemma HeaderBadContainer(s: seq<Byte>)
    requires || |s| < SCAN_START || s[0..4] != RIFF || s[8..12] != WAVE || s[12..16] != FMT
             || FindData(s, SCAN_START).None? || FindData(s, SCAN_START) == Some(|s| - 1)
    ensures ParseHeader(s) == Rejected(BadContainer)
  {
  }

  /**
   * A canonical 44-byte header: the fields that the parser skips (RIFF size,
   * fmt size, byte rate, block align) may hold anything.
   */
  function CanonicalHeader(riffSize: nat, fmtSize: nat, formatId: nat, channels: nat,
                           samplingRate: nat, byteRate: nat, blockAlign: nat, bits: nat,
                           dataSize: nat): (s: seq<Byte>)
    requires riffSize < 0x1_0000_0000 && fmtSize < 0x1_0000_0000 && byteRate < 0x1_0000_0000
    requires formatId < 0x1_0000 && channels < 0x100 && samplingRate < 0x100_0000
    requires blockAlign < 0x1_0000 && bits < 0x100 && dataSize < 0x8000_0000
    ensures |s| == 44
  {
    Pow2Values();
    RIFF + LittleEndianBytes(riffSize, 4) + WAVE + FMT + LittleEndianBytes(fmtSize, 4)
    + LittleEndianBytes(formatId, 2) + LittleEndianBytes(channels, 2)
    + LittleEndianBytes(samplingRate, 4) + LittleEndianBytes(byteRate, 4)
    + LittleEndianBytes(blockAlign, 2) + LittleEndianBytes(bits, 2)
    + DATA + LittleEndianBytes(dataSize, 4)
  }

  /** Splitting a known prefix p + x of h into its two parts. */
  lemma PrefixParts(h: seq<Byte>, p: seq<Byte>, x: seq<Byte>)
    requires |p| + |x| <= |h| && h[..|p| + |x|] == p + x
    ensures h[..|p|] == p && h[|p|..|p| + |x|] == x
  {
    assert h[..|p|] == h[..|p| + |x|][..|p|];
    assert h[|p|..|p| + |x|] == h[..|p| + |x|][|p|..];
  }

  /** Where the fields of a canonical header sit. */
  lemma CanonicalHeaderLayout(riffSize: nat, fmtSize: nat, formatId: nat, channels: nat,
                              samplingRate: nat, byteRate: nat, blockAlign: nat, bits: nat,
                              dataSize: nat)
    requires riffSize < 0x1_0000_0000 && fmtSize < 0x1_0000_0000 && byteRate < 0x1_0000_0000
    requires formatId < 0x1_0000 && channels < 0x100 && samplingRate < 0x100_0000
    requires blockAlign < 0x1_0000 && bits < 0x100 && dataSize < 0x8000_0000
    ensures Pow2(16) == 0x1_0000 && Pow2(32) == 0x1_0000_0000
    ensures var h := CanonicalHeader(riffSize, fmtSize, formatId, channels, samplingRate,
                                     byteRate, blockAlign, bits, dataSize);
      && h[0..4] == RIFF && h[8..12] == WAVE && h[12..16] == FMT
      && h[20..22] == LittleEndianBytes(formatId, 2) && h[22..24] == LittleEndianBytes(channels, 2)
      && h[24..28] == LittleEndianBytes(samplingRate, 4) && h[34..36] == LittleEndianBytes(bits, 2)
      && h[36..40] == DATA && h[40..44] == LittleEndianBytes(dataSize, 4)
  {
    Pow2Values();
    var h := CanonicalHeader(riffSize, fmtSize, formatId, channels, samplingRate,
                             byteRate, blockAlign, bits, dataSize);
    var p1 := RIFF + LittleEndianBytes(riffSize, 4);
    var p2 := p1 + WAVE;
    var p3 := p2 + FMT;
    var p4 := p3 + LittleEndianBytes(fmtSize, 4);
    var p5 := p4 + LittleEndianBytes(formatId, 2);
    var p6 := p5 + LittleEndianBytes(channels, 2);
    var p7 := p6 + LittleEndianBytes(samplingRate, 4);
    var p8 := p7 + LittleEndianBytes(byteRate, 4);
    var p9 := p8 + LittleEndianBytes(blockAlign, 2);
    var p10 := p9 + LittleEndianBytes(bits, 2);
    var p11 := p10 + DATA;
    assert h == p11 + LittleEndianBytes(dataSize, 4);
    assert h[..44] == h;
    PrefixParts(h, p11, LittleEndianBytes(dataSize, 4));
    PrefixParts(h, p10, DATA);
    PrefixParts(h, p9, LittleEndianBytes(bits, 2));
    PrefixParts(h, p8, LittleEndianBytes(blockAlign, 2));
    PrefixParts(h, p7, LittleEndianBytes(byteRate, 4));
    PrefixParts(h, p6, LittleEndianBytes(samplingRate, 4));
    PrefixParts(h, p5, LittleEndianBytes(channels, 2));
    PrefixParts(h, p4, LittleEndianBytes(formatId, 2));
    PrefixParts(h, p3, LittleEndianBytes(fmtSize, 4));
    PrefixParts(h, p2, FMT);
    PrefixParts(h, p1, WAVE);
    PrefixParts(h, RIFF, LittleEndianBytes(riffSize, 4));
    assert h[0..4] == h[..4];
  }

  /** The tag bytes and the scan of a canonical header followed by any payload. */
  lemma CanonicalHeaderScan(h: seq<Byte>, payload: seq<Byte>)
    requires |h| == 44 && h[35] == 0 && h[36..40] == DATA
    ensures FindData(h + payload, SCAN_START) == Some(39)
  {
    var s := h + payload;
    assert s[..44] == h;
    assert s[33..37][3] != DATA[3] && s[34..38][1] != DATA[1] && s[35..39][0] != DATA[0];
    assert s[36..40] == DATA;
    assert FindData(s, 39) == Some(39);
    assert FindData(s, 38) == Some(39);
    assert FindData(s, 37) == Some(39);
  }

  /** A header whose "data" tag ends at byte 39 and that holds the full size field. */
  lemma ParseHeaderAt39(s: seq<Byte>)
    requires 44 <= |s| && s[0..4] == RIFF && s[8..12] == WAVE && s[12..16] == FMT
    requires FindData(s, SCAN_START) == Some(39)
    requires GetDecoder(Le16(s, 20), (s[34] as int + 7) / 8).Some?
    ensures ParseHeader(s) == Parsed(Header(
              Le16(s, 20), s[22], Le24(s, 24), s[34], DataSize(s[40..44]),
              (s[34] as int + 7) / 8, (s[34] as int + 7) / 8 * s[22],
              GetDecoder(Le16(s, 20), (s[34] as int + 7) / 8).value, 44))
  {
  }

  /** The two little-endian bytes of a value below 256. */
  lemma SmallTwoBytes(n: nat)
    requires n < 0x100 && Pow2(16) == 0x1_0000
    ensures LittleEndianBytes(n, 2) == [n, 0]
  {
    Pow2Byte(1);
    Pow2Byte(0);
    assert Pow2(0) == 1;
  }

  /** The three low bytes of a value below 2^24 give it back. */
  lemma LowThreeBytes(n: nat)
    requires n < 0x100_0000 && Pow2(32) == 0x1_0000_0000
    ensures Le24(LittleEndianBytes(n, 4), 0) == n
  {
    LittleEndianRoundTrip(n, 4);
    LittleEndianFixed(LittleEndianBytes(n, 4));
  }

  /** The values the parser reads back from the fields of a canonical header. */
  lemma LaidOutFields(h: seq<Byte>, formatId: nat, channels: nat, samplingRate: nat,
                      bits: nat, dataSize: nat)
    requires formatId < 0x1_0000 && channels < 0x100 && samplingRate < 0x100_0000
    requires bits < 0x100 && dataSize < 0x8000_0000
    requires Pow2(16) == 0x1_0000 && Pow2(32) == 0x1_0000_0000
    requires |h| == 44
    requires h[20..22] == LittleEndianBytes(formatId, 2) && h[22..24] == LittleEndianBytes(channels, 2)
    requires h[24..28] == LittleEndianBytes(samplingRate, 4) && h[34..36] == LittleEndianBytes(bits, 2)
    requires h[40..44] == LittleEndianBytes(dataSize, 4)
    ensures Le16(h, 20) == formatId && h[22] == channels && h[34] == bits && h[35] == 0
    ensures Le24(h, 24) == samplingRate && DataSize(h[40..44]) == dataSize
  {
    Field16(h, 20, formatId);
    SmallField16(h, 22, channels);
    SmallField16(h, 34, bits);
    Field24(h, 24, samplingRate);
    DataSizeRoundTrip(dataSize);
  }

  /** A two-byte field holding n reads back as n. */
  lemma Field16(h: seq<Byte>, i: nat, n: nat)
    requires i + 2 <= |h| && n < 0x1_0000 && Pow2(16) == 0x1_0000
    requires h[i..i + 2] == LittleEndianBytes(n, 2)
    ensures Le16(h, i) == n
  {
    LittleEndianRoundTrip(n, 2);
    LittleEndianFixed(h[i..i + 2]);
    assert h[i] == h[i..i + 2][0] && h[i + 1] == h[i..i + 2][1];
  }

  /** A two-byte field holding n below 256: its first byte is n, its second 0. */
  lemma SmallField16(h: seq<Byte>, i: nat, n: nat)
    requires i + 2 <= |h| && n < 0x100 && Pow2(16) == 0x1_0000
    requires h[i..i + 2] == LittleEndianBytes(n, 2)
    ensures h[i] == n && h[i + 1] == 0
  {
    SmallTwoBytes(n);
    assert h[i] == h[i..i + 2][0] && h[i + 1] == h[i..i + 2][1];
  }

  /** A four-byte field holding n below 2^24: its low three bytes read back as n. */
  lemma Field24(h: seq<Byte>, i: nat, n: nat)
    requires i + 4 <= |h| && n < 0x100_0000 && Pow2(32) == 0x1_0000_0000
    requires h[i..i + 4] == LittleEndianBytes(n, 4)
    ensures Le24(h, i) == n
  {
    LowThreeBytes(n);
    assert h[i] == h[i..i + 4][0] && h[i + 1] == h[i..i + 4][1] && h[i + 2] == h[i..i + 4][2];
  }

  /** Parsing a header whose fields hold the given values. */
  lemma ParseLaidOutHeader(h: seq<Byte>, payload: seq<Byte>, formatId: nat, channels: nat,
                           samplingRate: nat, bits: nat, dataSize: nat)
    requires |h| == 44 && h[0..4] == RIFF && h[8..12] == WAVE && h[12..16] == FMT && h[36..40] == DATA
    requires Le16(h, 20) == formatId && h[22] == channels && h[34] == bits && h[35] == 0
    requires Le24(h, 24) == samplingRate && DataSize(h[40..44]) == dataSize
    requires GetDecoder(formatId, (bits + 7) / 8).Some?
    ensures ParseHeader(h + payload)
            == Parsed(Header(formatId, channels, samplingRate, bits, dataSize,
                             (bits + 7) / 8, (bits + 7) / 8 * channels,
                             GetDecoder(formatId, (bits + 7) / 8).value, 44))
  {
    CanonicalHeaderScan(h, payload);
    var s := h + payload;
    assert s[..44] == h;
    assert Le16(s, 20) == Le16(h, 20) && Le24(s, 24) == Le24(h, 24) && s[40..44] == h[40..44];
    assert s[0..4] == RIFF && s[8..12] == WAVE && s[12..16] == FMT;
    ParseHeaderAt39(s);
  }

  /**
   * Parsing a canonical header followed by any payload gives back the
   * fields it was built from, with the samples starting right after it.
   */
  lemma ParseCanonicalHeader(riffSize: nat, fmtSize: nat, formatId: nat, channels: nat,
                             samplingRate: nat, byteRate: nat, blockAlign: nat, bits: nat,
                             dataSize: nat, payload: seq<Byte>)
    requires riffSize < 0x1_0000_0000 && fmtSize < 0x1_0000_0000 && byteRate < 0x1_0000_0000
    requires formatId < 0x1_0000 && channels < 0x100 && samplingRate < 0x100_0000
    requires blockAlign < 0x1_0000 && bits < 0x100 && dataSize < 0x8000_0000
    requires GetDecoder(formatId, (bits + 7) / 8).Some?
    ensures var s := CanonicalHeader(riffSize, fmtSize, formatId, channels, samplingRate,
                                     byteRate, blockAlign, bits, dataSize) + payload;
      ParseHeader(s) == Parsed(Header(formatId, channels, samplingRate, bits, dataSize,
                                      (bits + 7) / 8, (bits + 7) / 8 * channels,
                                      GetDecoder(formatId, (bits + 7) / 8).value, 44))
  {
    CanonicalHeaderLayout(riffSize, fmtSize, formatId, channels, samplingRate,
                          byteRate, blockAlign, bits, dataSize);
    var h := CanonicalHeader(riffSize, fmtSize, formatId, channels, samplingRate,
                             byteRate, blockAlign, bits, dataSize);
    LaidOutFields(h, formatId, channels, samplingRate, bits, dataSize);
    ParseLaidOutHeader(h, payload, formatId, channels, samplingRate, bits, dataSize);
  }

  // ---------------------------------------------------------------------
  // Frames

  lemma MulStep(n: nat, c: nat)
    requires n >= 1
    ensures n * c == (n - 1) * c + c
  {
  }

  lemma MulMonotone(a: nat, b: nat, c: nat)
    requires a <= b
    ensures a * c <= b * c
  {
  }

  /**
   * k blocks of `size` bytes laid end to end, built by addition the way the
   * read loop advances: `bpos += _bytes` within a frame, one frame after
   * another in the file.
   */
  function Span(k: nat, size: nat): nat
  {
    if k == 0 then 0 else Span(k - 1, size) + size
  }

  lemma {:induction false} SpanIsProduct(k: nat, size: nat)
    ensures Span(k, size) == k * size
  {
    if k > 0 {
      SpanIsProduct(k - 1, size);
      MulStep(k, size);
    }
  }

  lemma SpanZero(k: nat, size: nat)
    requires size >= 1
    ensures Span(k, size) == 0 <==> k == 0
  {
  }

  lemma {:induction false} SpanMonotone(k1: nat, k2: nat, size: nat)
    requires k1 <= k2
    ensures Span(k1, size) <= Span(k2, size)
  {
    if k1 < k2 {
      SpanMonotone(k1, k2 - 1, size);
    }
  }

  /** Slot j of a frame of `channels` slots ends inside the frame. */
  lemma SlotFits(j: nat, channels: nat, bytes: nat)
    requires j < channels
    ensures Span(j, bytes) + bytes == Span(j + 1, bytes) <= Span(channels, bytes)
  {
    SpanMonotone(j + 1, channels, bytes);
  }

  /** Number of decoded values per frame. */
  function PerFrame(channel: int, channels: nat): nat
  {
    if channel < 0 then channels else 1
  }

  /**
   * The values that the first j slots of the frame at byte a of s give a
   * read of `channel`: every slot when channel < 0, slot `channel`
   * otherwise. Slot i starts at byte Span(i, bytes) of the frame.
   */
  function FrameValues(d: Decoder, s: seq<Byte>, a: nat, bytes: nat, channel: int, j: nat): (v: seq<real>)
    requires Width(d) <= bytes && a + Span(j, bytes) <= |s|
    ensures |v| == if channel < 0 then j else if channel < j then 1 else 0
  {
    if j == 0 then []
    else
      FrameValues(d, s, a, bytes, channel, j - 1)
      + (if channel < 0 || j - 1 == channel then [Decode(d, s, a + Span(j - 1, bytes))] else [])
  }

  /**
   * The values of n consecutive frames of `channels` slots starting at byte
   * `start` of s; a frame is Span(channels, bytes) bytes long.
   */
  function SoundValues(d: Decoder, s: seq<Byte>, start: nat, n: nat, bytes: nat, channels: nat,
                       channel: int): (v: seq<real>)
    requires Width(d) <= bytes && channel < channels
    requires start + Span(n, Span(channels, bytes)) <= |s|
    ensures |v| == Span(n, PerFrame(channel, channels))
  {
    if n == 0 then []
    else
      SoundValues(d, s, start, n - 1, bytes, channels, channel)
      + FrameValues(d, s, start + Span(n - 1, Span(channels, bytes)), bytes, channel, channels)
  }

  /** The values of n >= 1 frames: those of the first n - 1 and the last frame's. */
  lemma SoundValuesLast(d: Decoder, s: seq<Byte>, start: nat, n: nat, bytes: nat, channels: nat,
                        channel: int)
    requires Width(d) <= bytes && channel < channels && n >= 1
    requires start + Span(n, Span(channels, bytes)) <= |s|
    ensures SoundValues(d, s, start, n, bytes, channels, channel)
            == SoundValues(d, s, start, n - 1, bytes, channels, channel)
               + FrameValues(d, s, start + Span(n - 1, Span(channels, bytes)), bytes, channel, channels)
  {
  }

  /** Value j of frame k comes right after the values of the k frames before it. */
  lemma SoundValuesLate(d: Decoder, s: seq<Byte>, start: nat, k: nat, bytes: nat, channels: nat,
                        channel: int, j: nat)
    requires Width(d) <= bytes && channel < channels
    requires start + Span(k + 1, Span(channels, bytes)) <= |s|
    requires j < |FrameValues(d, s, start + Span(k, Span(channels, bytes)), bytes, channel, channels)|
    ensures Span(k, PerFrame(channel, channels)) + j < |SoundValues(d, s, start, k + 1, bytes, channels, channel)|
    ensures SoundValues(d, s, start, k + 1, bytes, channels, channel)[Span(k, PerFrame(channel, channels)) + j]
            == FrameValues(d, s, start + Span(k, Span(channels, bytes)), bytes, channel, channels)[j]
  {
    SoundValuesLast(d, s, start, k + 1, bytes, channels, channel);
  }

  /** One more frame read extends the values of the frames before it. */
  lemma SoundValuesSnoc(d: Decoder, s: seq<Byte>, start: nat, n: nat, bytes: nat, channels: nat,
                        channel: int)
    requires Width(d) <= bytes && channel < channels
    requires start + Span(n + 1, Span(channels, bytes)) <= |s|
    ensures SoundValues(d, s, start, n + 1, bytes, channels, channel)
            == SoundValues(d, s, start, n, bytes, channels, channel)
               + FrameValues(d, s, start + Span(n, Span(channels, bytes)), bytes, channel, channels)
  {
  }

  /**
   * The number of frames the read loop asks for: it runs while the count
   * written is below maxlen = len (all channels) or (len / channels) * channels
   * (one channel).
   */
  function FramesWanted(channel: int, len: int, channels: nat): nat
    requires channels >= 1
  {
    if len <= 0 then 0
    else if channel < 0 then (len + channels - 1) / channels
    else len / channels * channels
  }

  datatype SoundRead = SoundRead(ret: int, cursor: nat, values: seq<real>)

  /** A frame holds at least one byte per channel. */
  lemma FrameSizePositive(bytes: nat, channels: nat)
    requires bytes >= 1 && channels >= 1
    ensures Span(channels, bytes) >= 1
  {
    SpanMonotone(1, channels, bytes);
  }

  /**
   * The read loop of `readSound` from its f-th frame on, the file holding
   * whole frames from `start` up to the f-th: it stops with the count so far
   * once `want` frames are in, ends the call on a frame read that comes up
   * short (-1 if that was the first frame, the count so far otherwise, the
   * rest of the file consumed), and reads on otherwise.
   */
  function ReadFrames(d: Decoder, data: seq<Byte>, start: nat, bytes: nat, channels: nat, channel: int,
                      want: nat, f: nat): (r: SoundRead)
    requires Width(d) <= bytes && channel < channels
    requires f <= want && start + Span(f, Span(channels, bytes)) <= |data|
    ensures start + Span(f, Span(channels, bytes)) <= r.cursor <= |data|
    ensures |r.values| <= Span(want, PerFrame(channel, channels))
    decreases want - f
  {
    var fs := Span(channels, bytes);
    var at := start + Span(f, fs);
    SpanMonotone(f, want, PerFrame(channel, channels));
    if f == want then
      SoundRead(Span(f, PerFrame(channel, channels)), at, SoundValues(d, data, start, f, bytes, channels, channel))
    else if |data| - at < fs then
      SoundRead(if Span(f, PerFrame(channel, channels)) == 0 then -1 else Span(f, PerFrame(channel, channels)),
                |data|, SoundValues(d, data, start, f, bytes, channels, channel))
    else
      ReadFrames(d, data, start, bytes, channels, channel, want, f + 1)
  }

  /** One more whole frame is wanted and there: reading goes on with the next frame. */
  lemma ReadFramesStep(d: Decoder, data: seq<Byte>, start: nat, bytes: nat, channels: nat, channel: int,
                       want: nat, f: nat)
    requires Width(d) <= bytes && channel < channels && f < want
    requires start + Span(f + 1, Span(channels, bytes)) <= |data|
    ensures ReadFrames(d, data, start, bytes, channels, channel, want, f)
         == ReadFrames(d, data, start, bytes, channels, channel, want, f + 1)
  {
  }

  /** After f whole frames the read is where it was at the start. */
  lemma {:induction false} ReadFramesSkip(d: Decoder, data: seq<Byte>, start: nat, bytes: nat, channels: nat,
                                          channel: int, want: nat, f: nat)
    requires Width(d) <= bytes && channel < channels && f <= want
    requires start + Span(f, Span(channels, bytes)) <= |data|
    ensures ReadFrames(d, data, start, bytes, channels, channel, want, 0)
         == ReadFrames(d, data, start, bytes, channels, channel, want, f)
  {
    if f > 0 {
      SpanMonotone(f - 1, f, Span(channels, bytes));
      ReadFramesSkip(d, data, start, bytes, channels, channel, want, f - 1);
      ReadFramesStep(d, data, start, bytes, channels, channel, want, f - 1);
    }
  }

  /** f whole frames are read, one more is wanted, but the file ends first. */
  lemma ReadFramesShort(d: Decoder, data: seq<Byte>, start: nat, bytes: nat, channels: nat, channel: int,
                        want: nat, f: nat)
    requires Width(d) <= bytes && channel < channels && f < want
    requires start + Span(f, Span(channels, bytes)) <= |data| < start + Span(f + 1, Span(channels, bytes))
    ensures var n := Span(f, PerFrame(channel, channels));
            (ReadFrames(d, data, start, bytes, channels, channel, want, 0)
             == SoundRead(if n == 0 then -1 else n, |data|, SoundValues(d, data, start, f, bytes, channels, channel)))
  {
    ReadFramesSkip(d, data, start, bytes, channels, channel, want, f);
  }

  /** Every wanted frame was whole. */
  lemma ReadFramesDone(d: Decoder, data: seq<Byte>, start: nat, bytes: nat, channels: nat, channel: int,
                       want: nat)
    requires Width(d) <= bytes && channel < channels
    requires start + Span(want, Span(channels, bytes)) <= |data|
    ensures ReadFrames(d, data, start, bytes, channels, channel, want, 0)
         == SoundRead(Span(want, PerFrame(channel, channels)), start + Span(want, Span(channels, bytes)),
                      SoundValues(d, data, start, want, bytes, channels, channel))
  {
    ReadFramesSkip(d, data, start, bytes, channels, channel, want, want);
  }

  /** `readSound` on a file positioned at `cursor`, for a channel below the channel count. */
  function ReadSoundSpec(d: Decoder, data: seq<Byte>, cursor: nat, bytes: nat, channels: nat,
                         channel: int, len: int): (r: SoundRead)
    requires channels >= 1 && Width(d) <= bytes && cursor <= |data| && channel < channels
    ensures |r.values| <= Span(FramesWanted(channel, len, channels), PerFrame(channel, channels))
    ensures cursor <= r.cursor <= |data|
  {
    ReadFrames(d, data, cursor, bytes, channels, channel, FramesWanted(channel, len, channels), 0)
  }

  /** The whole frames of fs bytes in m bytes. */
  function WholeFrames(m: nat, fs: nat): nat
    requires fs >= 1
  {
    m / fs
  }

  /**
   * The read loop in closed form: it decodes n whole frames, n being the
   * frames wanted or the whole frames left, whichever is fewer.
   */
  lemma {:induction false} ReadFramesClosedForm(d: Decoder, data: seq<Byte>, start: nat, bytes: nat,
                                                channels: nat, channel: int, want: nat, f: nat)
    requires channels >= 1 && Width(d) <= bytes && channel < channels
    requires f <= want && start + Span(f, Span(channels, bytes)) <= |data|
    ensures Span(channels, bytes) >= 1
    ensures var fs := Span(channels, bytes);
      var n := Min(want, WholeFrames(|data| - start, fs));
      var r := ReadFrames(d, data, start, bytes, channels, channel, want, f);
      && start + Span(n, fs) <= |data|
      && r.ret == (if n < want && n == 0 then -1 else Span(n, PerFrame(channel, channels)))
      && r.cursor == (if n < want then |data| else start + Span(n, fs))
      && r.values == SoundValues(d, data, start, n, bytes, channels, channel)
    decreases want - f
  {
    var fs := Span(channels, bytes);
    FrameSizePositive(bytes, channels);
    var at := start + Span(f, fs);
    var m := |data| - start;
    SpanIsProduct(f, fs);
    DivBetween(m, fs, f);
    if f == want {
    } else if |data| - at < fs {
      MulStep(f + 1, fs);
      SpanZero(f, PerFrame(channel, channels));
    } else {
      ReadFramesStep(d, data, start, bytes, channels, channel, want, f);
      ReadFramesClosedForm(d, data, start, bytes, channels, channel, want, f + 1);
    }
  }

  // ---------------------------------------------------------------------
  // Properties of a frame read

  /** -1 exactly when frames were wanted and not even one whole frame is left. */
  lemma ReadSoundEnd(d: Decoder, data: seq<Byte>, cursor: nat, bytes: nat, channels: nat,
                     channel: int, len: int)
    requires channels >= 1 && Width(d) <= bytes && cursor <= |data| && channel < channels
    ensures var r := ReadSoundSpec(d, data, cursor, bytes, channels, channel, len);
      && (r.ret == -1 <==> FramesWanted(channel, len, channels) > 0 && |data| - cursor < bytes * channels)
      && (r.ret == -1 ==> r.values == [] && r.cursor == |data|)
      && (r.ret >= 0 ==> |r.values| == r.ret)
  {
    var fs := Span(channels, bytes);
    var want := FramesWanted(channel, len, channels);
    ReadFramesClosedForm(d, data, cursor, bytes, channels, channel, want, 0);
    var r := ReadSoundSpec(d, data, cursor, bytes, channels, channel, len);
    var n := Min(want, WholeFrames(|data| - cursor, fs));
    assert r.ret == -1 <==> n < want && n == 0;
    SpanIsProduct(channels, bytes);
    assert n == 0 <==> want == 0 || |data| - cursor < fs;
  }

  lemma MulMod(n: nat, c: nat)
    requires c >= 1
    ensures (n * c) % c == 0
  {
    var a := n * c;
    var q, r := a / c, a % c;
    assert (n - q) * c == r;
    if n > q {
      MulMonotone(1, n - q, c);
    } else if n < q {
      MulMonotone(1, q - n, c);
    }
  }

  /** Reading all channels returns whole frames; reading one never exceeds maxlen. */
  lemma ReadSoundCount(d: Decoder, data: seq<Byte>, cursor: nat, bytes: nat, channels: nat,
                       channel: int, len: int)
    requires channels >= 1 && Width(d) <= bytes && cursor <= |data| && channel < channels
    ensures var r := ReadSoundSpec(d, data, cursor, bytes, channels, channel, len);
      && (channel < 0 && r.ret >= 0 ==> r.ret % channels == 0)
      && (channel >= 0 ==> r.ret <= (if len <= 0 then 0 else len / channels * channels))
  {
    var fs := Span(channels, bytes);
    var want := FramesWanted(channel, len, channels);
    ReadFramesClosedForm(d, data, cursor, bytes, channels, channel, want, 0);
    var r := ReadSoundSpec(d, data, cursor, bytes, channels, channel, len);
    var n := Min(want, WholeFrames(|data| - cursor, fs));
    assert r.ret == -1 || r.ret == Span(n, PerFrame(channel, channels));
    SpanIsProduct(n, PerFrame(channel, channels));
    if channel < 0 {
      MulMod(n, channels);
    }
  }

  /** len rounded up to whole frames of c values. */
  lemma RoundedUp(len: nat, c: nat)
    requires c >= 1 && len >= 1
    ensures len <= (len + c - 1) / c * c < len + c
  {
    var q, m := (len + c - 1) / c, (len + c - 1) % c;
    assert len + c - 1 == q * c + m && 0 <= m < c;
  }

  /**
   * Reading all channels writes whole frames until len values are in, so it
   * can write up to channels - 1 values more than len: when the file holds
   * the frames wanted, the count is len rounded up to whole frames.
   */
  lemma ReadSoundAllChannelsOverrun(d: Decoder, data: seq<Byte>, cursor: nat, bytes: nat, channels: nat,
                                    len: int)
    requires channels >= 1 && Width(d) <= bytes && cursor <= |data| && len >= 1
    ensures var r := ReadSoundSpec(d, data, cursor, bytes, channels, -1, len);
      var want := FramesWanted(-1, len, channels);
      && r.ret < len + channels
      && (cursor + Span(want, Span(channels, bytes)) <= |data| ==> len <= r.ret == Span(want, channels))
  {
    var fs := Span(channels, bytes);
    var want := FramesWanted(-1, len, channels);
    ReadFramesClosedForm(d, data, cursor, bytes, channels, -1, want, 0);
    var n := Min(want, WholeFrames(|data| - cursor, fs));
    SpanMonotone(n, want, channels);
    SpanIsProduct(want, channels);
    RoundedUp(len, channels);
    if cursor + Span(want, fs) <= |data| {
      SpanIsProduct(want, fs);
      DivBetween(|data| - cursor, fs, want);
      assert n == want;
    }
  }

  /** Three values of two 8-bit channels asked for, four written. */
  lemma ReadSoundOverrunExample()
    ensures ReadSoundSpec(Linear8, [0x80, 0x80, 0x80, 0x80], 0, 1, 2, -1, 3).ret == 4
  {
    ReadSoundAllChannelsOverrun(Linear8, [0x80, 0x80, 0x80, 0x80], 0, 1, 2, 3);
  }

  lemma {:induction false} FrameValuesNone(d: Decoder, s: seq<Byte>, a: nat, bytes: nat, channel: nat,
                                           j: nat)
    requires Width(d) <= bytes && a + Span(j, bytes) <= |s| && j <= channel
    ensures FrameValues(d, s, a, bytes, channel, j) == []
  {
    if j > 0 {
      FrameValuesNone(d, s, a, bytes, channel, j - 1);
    }
  }

  /** Reading one channel takes slot `channel` of the frame and nothing else. */
  lemma {:induction false} FrameValuesOne(d: Decoder, s: seq<Byte>, a: nat, bytes: nat, channel: nat,
                                          j: nat)
    requires Width(d) <= bytes && a + Span(j, bytes) <= |s| && channel < j
    ensures Span(channel + 1, bytes) <= Span(j, bytes)
    ensures FrameValues(d, s, a, bytes, channel, j) == [Decode(d, s, a + Span(channel, bytes))]
  {
    SpanMonotone(channel + 1, j, bytes);
    SpanMonotone(j - 1, j, bytes);
    var last := if j - 1 == channel then [Decode(d, s, a + Span(j - 1, bytes))] else [];
    assert FrameValues(d, s, a, bytes, channel, j) == FrameValues(d, s, a, bytes, channel, j - 1) + last;
    if channel < j - 1 {
      FrameValuesOne(d, s, a, bytes, channel, j - 1);
    } else {
      FrameValuesNone(d, s, a, bytes, channel, j - 1);
    }
  }

  /** Reading all channels takes slot i as value i of the frame. */
  lemma {:induction false} FrameValuesAll(d: Decoder, s: seq<Byte>, a: nat, bytes: nat, j: nat, i: nat)
    requires Width(d) <= bytes && a + Span(j, bytes) <= |s| && i < j
    ensures Span(i + 1, bytes) <= Span(j, bytes)
    ensures FrameValues(d, s, a, bytes, -1, j)[i] == Decode(d, s, a + Span(i, bytes))
  {
    SpanMonotone(i + 1, j, bytes);
    if i < j - 1 {
      SpanMonotone(j - 1, j, bytes);
      FrameValuesAll(d, s, a, bytes, j - 1, i);
    }
  }

  /** k slots of one value each are k values. */
  lemma {:induction false} SpanOfOne(k: nat)
    ensures Span(k, 1) == k
  {
    if k > 0 {
      SpanOfOne(k - 1);
    }
  }

  /** The values of the first m frames are the start of those of the first n. */
  lemma {:induction false} SoundValuesPrefix(d: Decoder, s: seq<Byte>, start: nat, n: nat, bytes: nat,
                                             channels: nat, channel: int, m: nat)
    requires Width(d) <= bytes && channel < channels && m <= n
    requires start + Span(n, Span(channels, bytes)) <= |s|
    ensures start + Span(m, Span(channels, bytes)) <= |s|
    ensures SoundValues(d, s, start, m, bytes, channels, channel)
            <= SoundValues(d, s, start, n, bytes, channels, channel)
  {
    SpanMonotone(m, n, Span(channels, bytes));
    if m < n {
      SpanMonotone(n - 1, n, Span(channels, bytes));
      SoundValuesPrefix(d, s, start, n - 1, bytes, channels, channel, m);
      SoundValuesLast(d, s, start, n, bytes, channels, channel);
    }
  }

  /** Value j of frame k, for any k before n, is value i of the values of n frames, i counting the values before it. */
  lemma SoundValuesAt(d: Decoder, s: seq<Byte>, start: nat, n: nat, bytes: nat, channels: nat,
                      channel: int, k: nat, j: nat, i: nat)
    requires Width(d) <= bytes && channel < channels
    requires start + Span(n, Span(channels, bytes)) <= |s| && k < n
    requires start + Span(k + 1, Span(channels, bytes)) <= |s|
    requires j < |FrameValues(d, s, start + Span(k, Span(channels, bytes)), bytes, channel, channels)|
    requires i == Span(k, PerFrame(channel, channels)) + j
    ensures i < |SoundValues(d, s, start, n, bytes, channels, channel)|
    ensures SoundValues(d, s, start, n, bytes, channels, channel)[i]
            == FrameValues(d, s, start + Span(k, Span(channels, bytes)), bytes, channel, channels)[j]
  {
    SoundValuesPrefix(d, s, start, n, bytes, channels, channel, k + 1);
    SoundValuesLate(d, s, start, k, bytes, channels, channel, j);
  }

  /** Value k of a one-channel read is slot `channel` of frame k. */
  lemma ChannelSlot(d: Decoder, s: seq<Byte>, start: nat, n: nat, bytes: nat,
                    channels: nat, channel: nat, k: nat)
    requires Width(d) <= bytes && channel < channels
    requires start + Span(n, Span(channels, bytes)) <= |s| && k < n
    ensures && k < |SoundValues(d, s, start, n, bytes, channels, channel)|
            && start + Span(k, Span(channels, bytes)) + Span(channel + 1, bytes) <= |s|
            && SoundValues(d, s, start, n, bytes, channels, channel)[k]
               == Decode(d, s, start + Span(k, Span(channels, bytes)) + Span(channel, bytes))
  {
    var base := start + Span(k, Span(channels, bytes));
    SpanMonotone(k + 1, n, Span(channels, bytes));
    SpanOfOne(k);
    FrameValuesOne(d, s, base, bytes, channel, channels);
    SoundValuesAt(d, s, start, n, bytes, channels, channel, k, 0, k);
  }

  /** Value Span(k, channels) + j of an all-channel read is slot j of frame k. */
  lemma InterleavedSlot(d: Decoder, s: seq<Byte>, start: nat, n: nat, bytes: nat,
                        channels: nat, k: nat, j: nat)
    requires Width(d) <= bytes && start + Span(n, Span(channels, bytes)) <= |s|
    requires k < n && j < channels
    ensures && Span(k, channels) + j < |SoundValues(d, s, start, n, bytes, channels, -1)|
            && start + Span(k, Span(channels, bytes)) + Span(j + 1, bytes) <= |s|
            && SoundValues(d, s, start, n, bytes, channels, -1)[Span(k, channels) + j]
               == Decode(d, s, start + Span(k, Span(channels, bytes)) + Span(j, bytes))
  {
    var base := start + Span(k, Span(channels, bytes));
    SpanMonotone(k + 1, n, Span(channels, bytes));
    SlotFits(j, channels, bytes);
    FrameValuesAll(d, s, base, bytes, channels, j);
    SoundValuesAt(d, s, start, n, bytes, channels, -1, k, j, Span(k, channels) + j);
  }

  /** Byte offset of slot j of frame k, frames being bytes * channels long and slots bytes long. */
  function SampleOffset(start: nat, k: nat, j: nat, bytes: nat, channels: nat): nat
  {
    start + k * (bytes * channels) + j * bytes
  }

  /** The k-th value read from one channel is the sample at byte channel * bytes of frame k. */
  lemma ValuesOfChannel(d: Decoder, s: seq<Byte>, start: nat, n: nat, bytes: nat,
                        channels: nat, channel: nat, k: nat)
    requires Width(d) <= bytes && channel < channels
    requires start + Span(n, Span(channels, bytes)) <= |s| && k < n
    ensures && k < |SoundValues(d, s, start, n, bytes, channels, channel)|
            && SampleOffset(start, k, channel, bytes, channels) + Width(d) <= |s|
            && SoundValues(d, s, start, n, bytes, channels, channel)[k]
               == Decode(d, s, SampleOffset(start, k, channel, bytes, channels))
  {
    ChannelSlot(d, s, start, n, bytes, channels, channel, k);
    SpanIsProduct(k, Span(channels, bytes));
    SpanIsProduct(channels, bytes);
    SpanIsProduct(channel, bytes);
  }

  /** Reading all channels interleaves them: value k * channels + j is slot j of frame k. */
  lemma ValuesOfAllChannels(d: Decoder, s: seq<Byte>, start: nat, n: nat, bytes: nat,
                            channels: nat, k: nat, j: nat)
    requires Width(d) <= bytes && start + Span(n, Span(channels, bytes)) <= |s|
    requires k < n && j < channels
    ensures && k * channels + j < |SoundValues(d, s, start, n, bytes, channels, -1)|
            && SampleOffset(start, k, j, bytes, channels) + Width(d) <= |s|
            && SoundValues(d, s, start, n, bytes, channels, -1)[k * channels + j]
               == Decode(d, s, SampleOffset(start, k, j, bytes, channels))
  {
    InterleavedSlot(d, s, start, n, bytes, channels, k, j);
    SpanIsProduct(k, channels);
    SpanIsProduct(k, Span(channels, bytes));
    SpanIsProduct(channels, bytes);
    SpanIsProduct(j, bytes);
  }

  /** The greatest x with x * fs <= m, pinned from both sides. */
  lemma DivBetween(m: nat, fs: nat, x: nat)
    requires fs >= 1 && x * fs <= m
    ensures x <= m / fs
    ensures m < (x + 1) * fs ==> m / fs == x
  {
    var q := m / fs;
    assert q * fs <= m < (q + 1) * fs;
    if q < x {
      MulMonotone(q + 1, x, fs);
    }
    if m < (x + 1) * fs && x < q {
      MulMonotone(x + 1, q, fs);
    }
  }

  /** The loop bound of `readSound`: maxlen. */
  function MaxLen(channel: int, len: int, channels: nat): int
    requires channels >= 1
  {
    if channel < 0 then len else len / channels * channels
  }

  /** f frames written keep the loop going exactly while f is below FramesWanted. */
  lemma FramesWantedBound(channel: int, len: int, channels: nat, f: nat)
    requires channels >= 1
    ensures f * PerFrame(channel, channels) < MaxLen(channel, len, channels)
            <==> f < FramesWanted(channel, len, channels)
  {
    var c := channels;
    if channel < 0 {
      if len > 0 {
        var w := (len + c - 1) / c;
        assert w * c <= len + c - 1 < (w + 1) * c;
        if f < w {
          MulMonotone(f + 1, w, c);
        } else {
          MulMonotone(w, f, c);
        }
      } else {
        assert f * c >= 0;
      }
    } else if len <= 0 {
      assert len / c <= 0;
      assert len / c * c <= 0 by { MulMonotone(0, -(len / c), c); }
    }
  }

  /** The loop test `retlen < maxlen` after f whole frames, retlen being Span(f, PerFrame). */
  lemma LoopTest(channel: int, len: int, channels: nat, f: nat)
    requires channels >= 1
    ensures Span(f, PerFrame(channel, channels)) < MaxLen(channel, len, channels)
            <==> f < FramesWanted(channel, len, channels)
  {
    SpanIsProduct(f, PerFrame(channel, channels));
    FramesWantedBound(channel, len, channels, f);
  }

  /** A frame copied out of the file decodes as the same bytes in the file. */
  lemma {:induction false} FrameValuesLocal(d: Decoder, frame: seq<Byte>, data: seq<Byte>, a: nat,
                                            bytes: nat, channel: int, j: nat)
    requires Width(d) <= bytes && Span(j, bytes) <= |frame| && a + Span(j, bytes) <= |data|
    requires forall i :: 0 <= i < Span(j, bytes) ==> frame[i] == data[a + i]
    ensures FrameValues(d, frame, 0, bytes, channel, j) == FrameValues(d, data, a, bytes, channel, j)
  {
    if j > 0 {
      var p := Span(j - 1, bytes);
      FrameValuesLocal(d, frame, data, a, bytes, channel, j - 1);
      if channel < 0 || j - 1 == channel {
        DecodeLocal(d, frame, p, data, a + p);
      }
    }
  }

  lemma SliceAgrees(frame: seq<Byte>, data: seq<Byte>, at: nat)
    requires at + |frame| <= |data| && frame == data[at..at + |frame|]
    ensures forall i :: 0 <= i < |frame| ==> frame[i] == data[at + i]
  {
  }

  /** Writing the next value over the first old one. */
  lemma WriteNext(before: seq<real>, done: seq<real>, after: seq<real>, v: real)
    requires |after| >= 1
    ensures (before + done + after)[|before| + |done| := v] == before + (done + [v]) + after[1..]
  {
  }

  /** Stores v at p, right after the values already written from pos on. */
  method PutValue(buf: array<real>, p: nat, v: real, ghost orig: seq<real>, ghost pos: nat,
                  ghost vals: seq<real>)
    requires pos + |vals| == p < |orig| == buf.Length
    requires buf[..] == orig[..pos] + vals + orig[p..]
    modifies buf
    ensures buf[..] == orig[..pos] + (vals + [v]) + orig[p + 1..]
  {
    WriteNext(orig[..pos], vals, orig[p..], v);
    buf[p] := v;
    assert orig[p..][1..] == orig[p + 1..];
  }

  /** The values of the first j + 1 slots: those of the first j and slot j's own. */
  lemma FrameValuesNext(d: Decoder, s: seq<Byte>, a: nat, bytes: nat, channel: int, j: nat)
    requires Width(d) <= bytes && a + Span(j + 1, bytes) <= |s|
    ensures FrameValues(d, s, a, bytes, channel, j + 1)
            == FrameValues(d, s, a, bytes, channel, j)
               + (if channel < 0 || j == channel then [Decode(d, s, a + Span(j, bytes))] else [])
  {
  }

  /**
   * A decoded frame written at pos into a buffer that holds the earlier
   * frames' values after its first off entries and the original a after them.
   */
  lemma FrameStored(a: seq<real>, off: nat, done: seq<real>, frame: seq<real>, w: seq<real>,
                    post: seq<real>, pos: nat, pos': nat)
    requires pos == off + |done| && pos' == pos + |frame| <= |a|
    requires w == a[..off] + done + a[pos..]
    requires post == w[..pos] + frame + w[pos'..]
    ensures post == a[..off] + (done + frame) + a[pos'..]
  {
    assert w[..pos] == a[..off] + done;
    assert w[pos + |frame|..] == a[pos + |frame|..];
  }

  /**
   * Slot j of the frame, at byte bpos of it: decoded and stored at pos'
   * when the read takes it, right after the frame's values so far.
   */
  method DecodeSlot(d: Decoder, bytes: nat, frame: seq<Byte>, channel: int, channels: nat, j: nat, bpos: nat,
                    buf: array<real>, pos: nat, pos': nat, retlen': nat, ghost orig: seq<real>,
                    ghost vals: seq<real>)
    returns (p2: nat, r2: nat, ghost vals2: seq<real>)
    requires Width(d) <= bytes && channel < channels && j < channels && |frame| == Span(channels, bytes)
    requires bpos == Span(j, bytes) && bpos + bytes <= |frame|
    requires vals == FrameValues(d, frame, 0, bytes, channel, j)
    requires pos' == pos + |vals| && pos + PerFrame(channel, channels) <= buf.Length == |orig|
    requires buf[..] == orig[..pos] + vals + orig[pos'..]
    modifies buf
    ensures vals2 == FrameValues(d, frame, 0, bytes, channel, j + 1)
    ensures p2 == pos + |vals2| && r2 + pos' == retlen' + p2
    ensures buf[..] == orig[..pos] + vals2 + orig[p2..]
  {
    FrameValuesNext(d, frame, 0, bytes, channel, j);
    p2, r2, vals2 := pos', retlen', vals;
    if channel < 0 || j == channel {
      var v := Decode(d, frame, bpos);
      PutValue(buf, pos', v, orig, pos, vals);
      vals2 := vals + [v];
      p2 := pos' + 1;
      r2 := retlen' + 1;
    }
  }

  /**
   * One pass of the inner loop of `readSound`: the slots of the frame held
   * in fbuf, the bytes of the file from `at` on, are decoded into buf from
   * pos on, every slot when channel < 0, slot `channel` otherwise.
   */
  method DecodeFrame(d: Decoder, bytes: nat, channels: nat, fbuf: array<Byte>, channel: int,
                     buf: array<real>, pos: nat, retlen: nat, ghost data: seq<Byte>, ghost at: nat)
    returns (pos': nat, retlen': nat)
    requires Width(d) <= bytes && channel < channels && fbuf.Length == Span(channels, bytes)
    requires at + fbuf.Length <= |data| && fbuf[..] == data[at..at + fbuf.Length]
    requires pos + PerFrame(channel, channels) <= buf.Length
    modifies buf
    ensures pos' == pos + PerFrame(channel, channels) && retlen' == retlen + PerFrame(channel, channels)
    ensures buf[..] == old(buf[..pos]) + FrameValues(d, data, at, bytes, channel, channels)
                       + old(buf[pos'..])
  {
    pos', retlen' := pos, retlen;
    ghost var orig := buf[..];
    var frame := fbuf[..];
    var bpos := 0;
    ghost var vals: seq<real> := [];
    for j := 0 to channels
      invariant bpos == Span(j, bytes) <= Span(channels, bytes)
      invariant vals == FrameValues(d, frame, 0, bytes, channel, j)
      invariant pos' == pos + |vals| && retlen' == retlen + |vals|
      invariant buf[..] == orig[..pos] + vals + orig[pos'..]
    {
      SlotFits(j, channels, bytes);
      pos', retlen', vals := DecodeSlot(d, bytes, frame, channel, channels, j, bpos, buf, pos, pos', retlen',
                                        orig, vals);
      bpos := bpos + bytes;
    }
    SliceAgrees(frame, data, at);
    FrameValuesLocal(d, frame, data, at, bytes, channel, channels);
  }

  /** The buffer a with v written over it from off on. */
  function Written(a: seq<real>, off: nat, v: seq<real>): (w: seq<real>)
    requires off + |v| <= |a|
    ensures |w| == |a|
  {
    a[..off] + v + a[off + |v|..]
  }

  /**
   * The state of the `readSound` loop after f whole frames of a read that
   * started at byte c0: the cursor is past them, pos and retlen count their
   * values and b, the output buffer that was a, holds those values from off on.
   */
  ghost predicate Reading(d: Decoder, data: seq<Byte>, bytes: nat, channels: nat, channel: int,
                          c0: nat, f: nat, want: nat, a: seq<real>, off: nat,
                          b: seq<real>, cursor: nat, pos: nat, retlen: nat)
  {
    && Width(d) <= bytes && channels >= 1 && channel < channels && f <= want
    && cursor == c0 + Span(f, Span(channels, bytes)) <= |data|
    && pos == off + Span(f, PerFrame(channel, channels)) && retlen == Span(f, PerFrame(channel, channels))
    && off + Span(want, PerFrame(channel, channels)) <= |a| == |b|
    && pos <= |a|
    && b == a[..off] + SoundValues(d, data, c0, f, bytes, channels, channel) + a[pos..]
  }

  /** What the loop state says of the buffer, in the terms of ReadSound's postcondition. */
  lemma ReadingBuffer(d: Decoder, data: seq<Byte>, bytes: nat, channels: nat, channel: int,
                      c0: nat, f: nat, want: nat, a: seq<real>, off: nat,
                      b: seq<real>, cursor: nat, pos: nat, retlen: nat)
    requires Reading(d, data, bytes, channels, channel, c0, f, want, a, off, b, cursor, pos, retlen)
    ensures var v := SoundValues(d, data, c0, f, bytes, channels, channel);
            |v| == retlen && off + |v| <= |a| && b == Written(a, off, v)
  {
  }

  /** The loop state after frame f when that frame is whole and decoded. */
  lemma ReadingNext(d: Decoder, data: seq<Byte>, bytes: nat, channels: nat, channel: int,
                    c0: nat, f: nat, want: nat, a: seq<real>, off: nat,
                    b: seq<real>, cursor: nat, pos: nat, retlen: nat)
    requires f <= want && Width(d) <= bytes && channels >= 1 && channel < channels && cursor <= |data|
    requires cursor == c0 + Span(f, Span(channels, bytes))
    requires pos == off + Span(f, PerFrame(channel, channels)) && retlen == Span(f, PerFrame(channel, channels))
    requires off + Span(want, PerFrame(channel, channels)) <= |a| == |b| && pos <= |a|
    requires b == a[..off] + SoundValues(d, data, c0, f, bytes, channels, channel) + a[pos..]
    ensures Reading(d, data, bytes, channels, channel, c0, f, want, a, off, b, cursor, pos, retlen)
  {
  }

  /**
   * Frame f of a read from `start`, held in fbuf, decoded after the values
   * of the frames before it, which buf holds from off on.
   */
  method DecodeNextFrame(d: Decoder, bytes: nat, channels: nat, fbuf: array<Byte>, channel: int,
                         buf: array<real>, pos: nat, retlen: nat, ghost data: seq<Byte>,
                         ghost start: nat, ghost f: nat, ghost g: nat, ghost at: nat, ghost a: seq<real>,
                         ghost off: nat)
    returns (pos': nat, retlen': nat)
    requires g == f + 1
    requires Width(d) <= bytes && channel < channels && fbuf.Length == Span(channels, bytes)
    requires at == start + Span(f, Span(channels, bytes)) && at + fbuf.Length <= |data|
    requires fbuf[..] == data[at..at + fbuf.Length]
    requires pos == off + Span(f, PerFrame(channel, channels)) && retlen == Span(f, PerFrame(channel, channels))
    requires pos + PerFrame(channel, channels) <= buf.Length == |a|
    requires buf[..] == a[..off] + SoundValues(d, data, start, f, bytes, channels, channel) + a[pos..]
    modifies buf
    ensures pos' == off + Span(g, PerFrame(channel, channels))
    ensures retlen' == Span(g, PerFrame(channel, channels))
    ensures buf[..] == a[..off] + SoundValues(d, data, start, g, bytes, channels, channel) + a[pos'..]
  {
    ghost var w := buf[..];
    ghost var fv := FrameValues(d, data, at, bytes, channel, channels);
    pos', retlen' := DecodeFrame(d, bytes, channels, fbuf, channel, buf, pos, retlen, data, at);
    FrameStored(a, off, SoundValues(d, data, start, f, bytes, channels, channel), fv, w, buf[..], pos, pos');
    SoundValuesSnoc(d, data, start, f, bytes, channels, channel);
  }

  /** What `readSound` gives back: IllegalChannel where it throws IllegalArgumentException. */
  datatype ReadOutcome = IllegalChannel | Count(n: int)

  /** `WAVInputStream`: the file's bytes, a read cursor into them and the header fields. */
  class WavInputStream {
    const data: seq<Byte>
    var cursor: nat
    var formatId: nat
    var channels: nat
    var samplingRate: nat
    var bits: nat
    var bytes: nat
    var dataSize: int
    var decoder: Option<Decoder>

    /** The header has been read and the fields hold what it says. */
    ghost predicate Valid()
      reads this
    {
      && cursor <= |data|
      && ParseHeader(data).Parsed?
      && var h := ParseHeader(data).header;
      && formatId == h.formatId && channels == h.channels && samplingRate == h.samplingRate
      && bits == h.bits && bytes == h.bytes && dataSize == h.dataSize
      && decoder == Some(h.decoder) && h.dataStart <= cursor
    }

    /**
     * Frames can be decoded: the cursor is inside the file, there is at
     * least one channel and every slot has room for the decoder's sample.
     */
    ghost predicate Decodable()
      reads this
    {
      cursor <= |data| && channels >= 1 && decoder.Some? && Width(decoder.value) <= bytes
    }

    constructor (data: seq<Byte>)
      ensures this.data == data && cursor == 0 && decoder == None
    {
      this.data := data;
      cursor := 0;
      decoder := None;
    }

    /**
     * `read(byte[])`: fills buf from the cursor. -1 at the end of the
     * file; fewer than buf.Length bytes when the file ends earlier, which
     * leaves the tail of buf as it was.
     */
    method ReadInto(buf: array<Byte>) returns (r: int)
      requires cursor <= |data|
      modifies this`cursor, buf
      ensures cursor <= |data|
      ensures buf.Length == 0 ==> r == 0 && cursor == old(cursor)
      ensures buf.Length > 0 && old(cursor) == |data| ==> r == -1 && cursor == |data|
      ensures buf.Length > 0 && old(cursor) < |data| ==>
                && r == Min(buf.Length, |data| - old(cursor))
                && cursor == old(cursor) + r
                && buf[..] == data[old(cursor)..cursor] + old(buf[r..])
      ensures r == buf.Length > 0 ==> buf[..] == data[old(cursor)..cursor]
      ensures 0 <= r < buf.Length ==> cursor == |data|
      ensures r <= 0 ==> buf[..] == old(buf[..])
      ensures old(Valid()) ==> Valid()
    {
      if buf.Length == 0 {
        return 0;
      }
      if cursor == |data| {
        return -1;
      }
      r := Min(buf.Length, |data| - cursor);
      var i := 0;
      while i < r
        invariant 0 <= i <= r && cursor == old(cursor)
        invariant forall k :: 0 <= k < i ==> buf[k] == data[old(cursor) + k]
        invariant forall k :: r <= k < buf.Length ==> buf[k] == old(buf[k])
      {
        buf[i] := data[cursor + i];
        i := i + 1;
      }
      cursor := cursor + r;
      assert buf[..] == data[old(cursor)..cursor] + old(buf[r..]);
    }

    /** `read()`: the next byte, or -1 at the end of the file. */
    method ReadByte() returns (r: int)
      requires cursor <= |data|
      modifies this`cursor
      ensures old(cursor) == |data| ==> r == -1 && cursor == |data|
      ensures old(cursor) < |data| ==> r == data[old(cursor)] && cursor == old(cursor) + 1
    {
      if cursor == |data| {
        return -1;
      }
      r := data[cursor];
      cursor := cursor + 1;
    }

    /** The cursor has read the fixed field ending at p in full, or the file ended before p. */
    ghost predicate ReadUpTo(p: nat)
      reads this
    {
      cursor <= |data| && (cursor == p || (cursor == |data| && |data| < p))
    }

    /**
     * The first five reads of `readHeader`: the "RIFF" tag, the skipped
     * RIFF size, the "WAVE" tag, the "fmt " tag and the skipped chunk size.
     * false where the code throws.
     */
    method ReadChunkTags(buf: array<Byte>) returns (ok: bool)
      requires buf.Length == 4 && buf[..] == [0, 0, 0, 0] && cursor == 0
      modifies this`cursor, buf
      ensures ok ==> ReadUpTo(20)
      ensures ok && |data| >= 16 ==> data[0..4] == RIFF && data[8..12] == WAVE && data[12..16] == FMT
      ensures !ok ==> |data| < SCAN_START || data[0..4] != RIFF || data[8..12] != WAVE || data[12..16] != FMT
    {
      var b := ReadInto(buf);
      if b == -1 || buf[..] != RIFF {
        return false;
      }
      assert ReadUpTo(4) && (|data| >= 4 ==> data[0..4] == RIFF);
      b := ReadInto(buf);
      if b == -1 {
        return false;
      }
      assert ReadUpTo(8);
      b := ReadInto(buf);
      if b == -1 || buf[..] != WAVE {
        return false;
      }
      assert ReadUpTo(12) && (|data| >= 12 ==> data[8..12] == WAVE);
      b := ReadInto(buf);
      if b == -1 || buf[..] != FMT {
        return false;
      }
      assert ReadUpTo(16) && (|data| >= 16 ==> data[12..16] == FMT);
      b := ReadInto(buf);
      if b == -1 {
        return false;
      }
      return true;
    }

    /**
     * The next four reads of `readHeader`: format id and channel count,
     * sampling rate, the skipped byte rate, and bits per sample.
     */
    method ReadFormatFields(buf: array<Byte>) returns (ok: bool)
      requires buf.Length == 4 && ReadUpTo(20)
      modifies this`cursor, this`formatId, this`channels, this`samplingRate, this`bits, buf
      ensures ok ==> ReadUpTo(SCAN_START)
      ensures ok && |data| >= SCAN_START ==>
                && buf[..] == data[32..36]
                && formatId == Le16(data, 20) && channels == data[22]
                && samplingRate == Le24(data, 24) && bits == data[34]
      ensures !ok ==> |data| < SCAN_START
    {
      var b := ReadInto(buf);
      if b == -1 {
        return false;
      }
      assert ReadUpTo(24);
      formatId := Le16(buf[..], 0);
      channels := buf[2];
      assert |data| >= 24 ==> buf[..] == data[20..24];
      b := ReadInto(buf);
      if b == -1 {
        return false;
      }
      assert ReadUpTo(28);
      samplingRate := Le24(buf[..], 0);
      assert |data| >= 28 ==> buf[..] == data[24..28];
      b := ReadInto(buf);
      if b == -1 {
        return false;
      }
      assert ReadUpTo(32);
      b := ReadInto(buf);
      if b == -1 {
        return false;
      }
      bits := buf[2];
      return true;
    }

    /**
     * The byte-by-byte scan of `readHeader`: shifts each byte into the
     * four-byte window until the window reads "data". false at the end of
     * the file.
     */
    method ScanForData(buf: array<Byte>) returns (found: bool)
      requires buf.Length == 4 && ReadUpTo(SCAN_START)
      requires |data| >= SCAN_START ==> buf[..] == data[32..36]
      modifies this`cursor, buf
      ensures cursor <= |data|
      ensures found ==> && |data| >= SCAN_START && SCAN_START < cursor
                        && FindData(data, SCAN_START) == Some(cursor - 1) && buf[..] == DATA
      ensures !found ==> |data| < SCAN_START || FindData(data, SCAN_START).None?
    {
      var c := ReadByte();
      while c != -1
        invariant cursor <= |data|
        invariant |data| < SCAN_START ==> c == -1
        invariant c == -1 ==> cursor == |data| && (|data| >= SCAN_START ==> FindData(data, SCAN_START).None?)
        invariant c != -1 ==> && SCAN_START < cursor && c == data[cursor - 1]
                              && buf[..] == data[cursor - 5..cursor - 1]
                              && FindData(data, SCAN_START) == FindData(data, cursor - 1)
        decreases |data| - cursor, if c == -1 then 0 else 1
      {
        buf[0] := buf[1];
        buf[1] := buf[2];
        buf[2] := buf[3];
        buf[3] := c;
        assert buf[..] == data[cursor - 4..cursor];
        if buf[..] == DATA {
          return true;
        }
        c := ReadByte();
      }
      return false;
    }

    /**
     * The data-size read of `readHeader`, right after the "data" tag that
     * ends at byte k. false when the file ends there.
     */
    method ReadDataSize(buf: array<Byte>, ghost k: nat) returns (ok: bool)
      requires buf.Length == 4 && buf[..] == DATA && cursor == k + 1 <= |data|
      modifies this`cursor, this`dataSize, buf
      ensures ok <==> k + 1 < |data|
      ensures ok ==> dataSize == DataSize(DataSizeField(data, k)) && cursor == Min(k + 5, |data|)
    {
      var b := ReadInto(buf);
      if b == -1 {
        return false;
      }
      SizeFieldRead(data, k, b, buf[..]);
      dataSize := DataSize(buf[..]);
      return true;
    }

    /**
     * `readHeader`, run on a fresh stream: the fields are set as ParseHeader
     * says and the cursor is left on the first sample byte, or the error
     * ParseHeader names is returned. Each part returns false where the code
     * throws.
     */
    method ReadHeader() returns (err: Option<HeaderError>)
      requires cursor == 0
      modifies this
      ensures err.None? <==> ParseHeader(data).Parsed?
      ensures err.Some? ==> ParseHeader(data) == Rejected(err.value)
      ensures err.None? ==> Valid() && cursor == ParseHeader(data).header.dataStart
    {
      var buf := new Byte[4](_ => 0);
      assert buf[..] == [0, 0, 0, 0];
      var ok := ReadChunkTags(buf);
      if !ok {
        HeaderBadContainer(data);
        return Some(BadContainer);
      }
      ok := ReadFormatFields(buf);
      if !ok {
        HeaderBadContainer(data);
        return Some(BadContainer);
      }
      ok := ScanForData(buf);
      if !ok {
        HeaderBadContainer(data);
        return Some(BadContainer);
      }
      ghost var k := cursor - 1;
      ok := ReadDataSize(buf, k);
      if !ok {
        HeaderBadContainer(data);
        return Some(BadContainer);
      }
      bytes := (bits + 7) / 8;
      decoder := GetDecoder(formatId, bytes);
      ParseHeaderFound(data, k);
      ParseFormatDecoder(data, k, formatId, bits);
      if decoder.None? {
        return Some(UnsupportedFormat);
      }
      return None;
    }

    /** The frame buffer: room for one sample of every channel. */
    method NewFrameBuffer() returns (fbuf: array<Byte>)
      ensures fresh(fbuf) && fbuf.Length == Span(channels, bytes)
    {
      SpanIsProduct(channels, bytes);
      fbuf := new Byte[bytes * channels];
    }

    /**
     * One pass of the `readSound` loop: frame f of a read that started at
     * c0 is read into fbuf and, when it is whole, decoded into buf after the
     * values of the frames before it.
     */
    method ReadNextFrame(fbuf: array<Byte>, channel: int, buf: array<real>, pos: nat, retlen: nat,
                         ghost c0: nat, ghost f: nat, ghost want: nat, ghost a: seq<real>, ghost off: nat)
      returns (full: bool, pos': nat, retlen': nat, ghost f': nat)
      requires decoder.Some? && fbuf.Length == Span(channels, bytes) && f < want
      requires Reading(decoder.value, data, bytes, channels, channel, c0, f, want, a, off, buf[..], cursor, pos, retlen)
      modifies this`cursor, fbuf
      modifies buf
      ensures !full ==>
                && pos' == pos && retlen' == retlen && f' == f && buf[..] == old(buf[..])
                && cursor == |data| < c0 + Span(f + 1, Span(channels, bytes))
      ensures full ==>
                && f' == f + 1
                && Reading(decoder.value, data, bytes, channels, channel, c0, f', want, a, off, buf[..], cursor, pos', retlen')
    {
      FrameSizePositive(bytes, channels);
      ghost var before := cursor;
      var n := ReadInto(fbuf);
      full, pos', retlen', f' := false, pos, retlen, f;
      if n >= fbuf.Length {
        full, f' := true, f + 1;
        SpanMonotone(f', want, PerFrame(channel, channels));
        pos', retlen' := DecodeNextFrame(decoder.value, bytes, channels, fbuf, channel, buf, pos, retlen,
                                         data, c0, f, f', before, a, off);
        ReadingNext(decoder.value, data, bytes, channels, channel, c0, f', want, a, off, buf[..], cursor, pos', retlen');
      }
    }

    /**
     * `readSound(channel, buf, off, len)`: decodes whole frames from the
     * cursor into buf from off on, as ReadSoundSpec says, and leaves the
     * rest of buf as it was; a channel at or above the channel count is
     * refused before anything is read.
     */
    method ReadSound(channel: int, buf: array<real>, off: nat, len: int) returns (r: ReadOutcome)
      requires channel < channels ==>
                 && Decodable()
                 && off + Span(FramesWanted(channel, len, channels), PerFrame(channel, channels)) <= buf.Length
      modifies this`cursor, buf
      ensures old(cursor) <= cursor
      ensures channel < channels ==> Decodable()
      ensures channel >= channels ==> r == IllegalChannel && cursor == old(cursor) && buf[..] == old(buf[..])
      ensures channel < channels ==>
                var s := ReadSoundSpec(decoder.value, data, old(cursor), bytes, channels, channel, len);
                && r == Count(s.ret) && cursor == s.cursor
                && off + |s.values| <= buf.Length && buf[..] == Written(old(buf[..]), off, s.values)
    {
      if channel >= channels {
        return IllegalChannel;
      }
      ghost var c0, a := cursor, buf[..];
      ghost var want := FramesWanted(channel, len, channels);
      var pos := off;
      var maxlen := MaxLen(channel, len, channels);
      var retlen: nat := 0;
      var fbuf := NewFrameBuffer();
      ghost var f: nat := 0;
      SpanMonotone(0, want, PerFrame(channel, channels));
      while retlen < maxlen
        invariant decoder.Some? && fbuf.Length == Span(channels, bytes)
        invariant Reading(decoder.value, data, bytes, channels, channel, c0, f, want, a, off, buf[..], cursor, pos, retlen)
        decreases want - f
      {
        LoopTest(channel, len, channels, f);
        ghost var before, b := cursor, buf[..];
        ReadingBuffer(decoder.value, data, bytes, channels, channel, c0, f, want, a, off, b, before, pos, retlen);
        var full;
        full, pos, retlen, f := ReadNextFrame(fbuf, channel, buf, pos, retlen, c0, f, want, a, off);
        if !full {
          ReadFramesShort(decoder.value, data, c0, bytes, channels, channel, want, f);
          return Count(if retlen == 0 then -1 else retlen);
        }
      }
      LoopTest(channel, len, channels, f);
      ReadFramesDone(decoder.value, data, c0, bytes, channels, channel, want);
      ReadingBuffer(decoder.value, data, bytes, channels, channel, c0, f, want, a, off, buf[..], cursor, pos, retlen);
      return Count(retlen);
    }
  }
}

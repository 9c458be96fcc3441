# PAPICOM tape convertor: the signal-decoding core in Dafny

This project models the core of the PC-6001 "PAPICOM" tape convertor and
proves properties of that model. The convertor takes a WAV capture of a
cassette and turns it into the byte stream recorded on the tape. The model
follows the four Java classes that do the decoding, one module each:

- `WavDecoder` (`wav_decoder.dfy`) converts one raw sample to a normalised
  value. It covers linear PCM at 8, 16 and 24 bits, plus A-law and µ-law
  companding. Each decoder is a pure function: an integer numerator over the
  bytes, divided by a power of two.
- `WavInput` (`wav_input.dfy`) holds the RIFF/WAVE reader.
  - The header parser is stated once as the function `ParseHeader`.
  - The class `WavInputStream` implements it field by field, as `readHeader`
    does: the fixed-order tags and fields, the rolling four-byte scan for
    `data`, and the data size.
  - `ReadSound` pulls whole frames from a byte sequence with a cursor. It
    writes the decoded samples into an `array<real>`. The function
    `ReadSoundSpec` states what it does.
- `FskAnalyzer` (`fsk_analyzer.dfy`) is the FSK boundary analyser.
  - It derives three timing offsets from the sampling rate.
  - Its boundary search compares samples against midline thresholds and
    walks forward and then back. `GetNextZeroPosition` is a method with
    loops and is proved equal to the function `ZeroPosition`.
  - It also has the interval classifier, the confidence table for one bit
    and the "worst of" combiner.
- `Ptc` (`ptc_logic.dfy`) is the conversion engine: the class `PtcLogic`
  over a 1024-sample window.
  - The window is refilled in place by moving its upper half down.
  - The engine skips to the requested start, primes the search, and then
    finds leaders and start bits.
  - It assembles bytes least significant bit first. Every mark costs one
    extra boundary search.
  - A countdown of three leaders decides between a normal end and an
    illegal end.
  - The bytes written and the report lines are sequences held in the
    object; the report lines are values of the datatype `Event`.
  - Every boundary search is logged as a `Search` value: the window it
    read, the window's absolute offset `abspos`, the file cursor, and where
    it started and ended in the window. The contracts use this log to talk
    about the intervals that were measured.
  - `Windowed` states that the searches ran one after another on the one
    file: each starts where the one before left the engine, and each probe
    or bit search runs on the window that its `read()` (the function
    `ReadFrom`) made from that spot. `Faithful` states that each search
    returned what the analyser's boundary search gives on its window.
  - `Run` states that every byte written is the value of eight bit searches
    of the log that follow a low-frequency probe, in the order written.

`Common` (`common.dfy`) holds `Option`, `Pow2` and `Min`.

Samples are `real`. Every decoder numerator is an exact integer over a power
of two, and the analyser only compares, halves and averages samples. So the
reals give the same answers the Java floats do, apart from rounding (see
"Left out").

The window indexing is proved safe. Every boundary search must satisfy
`startPos + t94 < 1024`, and in `PtcLogic` two searches can follow a refill
that leaves the cursor at 767 at most. So the proof needs `t94 <= 128`.
`RateLimits` shows that this holds exactly for sampling rates up to 148945 Hz.
It also shows that `t34 >= 1`, which makes every search move on, holds
exactly from 3491 Hz. `Analyze` requires a rate in that range, or a rate
that is not positive, which the code rejects.

The A-law decoder reads a code with bit 7 set as negative. That is the
opposite of the µ-law decoder and of the sign convention of ITU-T
Recommendation G.711. The model follows the code.

## Model

All source paths are under `src/main/java/com/hayatsukikazumi/ptc/`.

| member | source | states |
|---|---|---|
| WavDecoder.GetDecoder | src/main/java/com/hayatsukikazumi/ptc/WAVDecoder.java:37-58 | A decoder exists exactly for format id 1 with 1 to 3 bytes per sample, for id 6 and for id 7; for id 1 it is the linear decoder as wide as the byte count; ids 6 and 7 give A-law and µ-law whatever the byte count |
| WavDecoder.Decode | src/main/java/com/hayatsukikazumi/ptc/WAVDecoder.java:60-120 | `decode(buf, off)` of each decoder: every decoded sample lies in [-1, 1) |
| WavDecoder.DecodeScaled | src/main/java/com/hayatsukikazumi/ptc/WAVDecoder.java:60-120 | Every decoded sample is its integer numerator divided by the decoder's scale (128, 2^15, 2^23, 4096, 8192) |
| WavDecoder.ScaleIsPow2 | src/main/java/com/hayatsukikazumi/ptc/WAVDecoder.java:60-120 | Every divisor is a power of two: 2^(8·width - 1), the full scale of a signed sample, for linear PCM, 2^12 for A-law and 2^13 for µ-law |
| WavDecoder.NumeratorRange | src/main/java/com/hayatsukikazumi/ptc/WAVDecoder.java:60-120 | Every numerator lies in [-scale, scale) |
| WavDecoder.Numerator | src/main/java/com/hayatsukikazumi/ptc/WAVDecoder.java:63-118 | The integer each decoder divides by its scale; it has no contract of its own: NumeratorRange bounds it, Linear16IsTwosComplement and Linear24IsTwosComplement read it as two's complement, ALawFields and MuLawFields split it into sign, exponent and mantissa |
| WavDecoder.DecodeLocal | src/main/java/com/hayatsukikazumi/ptc/WAVDecoder.java:60-120 | A decoder reads only the bytes of its own width at the offset: equal bytes decode to equal samples wherever they sit |
| WavDecoder.Linear8Facts | src/main/java/com/hayatsukikazumi/ptc/WAVDecoder.java:63 | The 8-bit numerator lies in [-128, 127]; 0x80 decodes to exactly 0 and 0x00 to exactly -1 |
| WavDecoder.Linear16IsTwosComplement | src/main/java/com/hayatsukikazumi/ptc/WAVDecoder.java:70 | The 16-bit numerator is the two's-complement value of the little-endian byte pair, in [-2^15, 2^15) |
| WavDecoder.Linear24IsTwosComplement | src/main/java/com/hayatsukikazumi/ptc/WAVDecoder.java:77 | The 24-bit numerator is the two's-complement value of the three little-endian bytes, in [-2^23, 2^23) |
| WavDecoder.Linear16RoundTrip | src/main/java/com/hayatsukikazumi/ptc/WAVDecoder.java:70 | Any 16-bit sample, encoded little-endian, decodes back to itself over 2^15 |
| WavDecoder.Linear24RoundTrip | src/main/java/com/hayatsukikazumi/ptc/WAVDecoder.java:77 | Any 24-bit sample, encoded little-endian, decodes back to itself over 2^23 |
| WavDecoder.ALawFields | src/main/java/com/hayatsukikazumi/ptc/WAVDecoder.java:84-87 | After the XOR with 0x55 the decoder splits the code into sign (bit 7), exponent (bits 4-6) and mantissa (bits 0-3), and the numerator is a function of these three |
| WavDecoder.ALawMagnitudeRange | src/main/java/com/hayatsukikazumi/ptc/WAVDecoder.java:88-96 | The A-law magnitude lies in [1, 4032] |
| WavDecoder.ALawValue | src/main/java/com/hayatsukikazumi/ptc/WAVDecoder.java:88-98 | The A-law numerator of a sign, exponent and mantissa is negative exactly when the sign bit is set, and lies in [-4032, 4031] |
| WavDecoder.ALawMagnitudeIsSegment | src/main/java/com/hayatsukikazumi/ptc/WAVDecoder.java:88-96 | The shifts compute the segment table of G.711 Table 1: 2f+1 in segment 0, (2f+33)·2^(e-1) above |
| WavDecoder.ALawMagnitudeMonotone | src/main/java/com/hayatsukikazumi/ptc/WAVDecoder.java:88-96 | The magnitude strictly grows with the 7-bit code (exponent, mantissa) |
| WavDecoder.ALawRange | src/main/java/com/hayatsukikazumi/ptc/WAVDecoder.java:81-100 | The A-law numerator lies in [-4032, 4031], and code 0x55 decodes to exactly 0 |
| WavDecoder.ALawSignSymmetry | src/main/java/com/hayatsukikazumi/ptc/WAVDecoder.java:98 | Two A-law codes that differ only in bit 7 have numerators n and -n-1 |
| WavDecoder.ALawValueInjective | src/main/java/com/hayatsukikazumi/ptc/WAVDecoder.java:88-98 | Distinct (sign, exponent, mantissa) triples give distinct numerators |
| WavDecoder.ALawInjective | src/main/java/com/hayatsukikazumi/ptc/WAVDecoder.java:81-100 | Distinct A-law codes decode to distinct numerators |
| WavDecoder.MuLawFields | src/main/java/com/hayatsukikazumi/ptc/WAVDecoder.java:105-108 | After the XOR with 0xFF the decoder splits the code into sign, exponent and mantissa, and the numerator is a function of these three |
| WavDecoder.MuLawMagnitudeRange | src/main/java/com/hayatsukikazumi/ptc/WAVDecoder.java:109-112 | The µ-law magnitude ((2m+33)·2^e) - 33 lies in [0, 8031] |
| WavDecoder.MuLawValue | src/main/java/com/hayatsukikazumi/ptc/WAVDecoder.java:109-116 | The µ-law numerator of a sign, exponent and mantissa is negative exactly when the sign bit is set, and lies in [-8032, 8031] |
| WavDecoder.MuLawMagnitudeIsSegment | src/main/java/com/hayatsukikazumi/ptc/WAVDecoder.java:109-112 | The shifts compute the segment table of G.711 Table 2 |
| WavDecoder.MuLawMagnitudeMonotone | src/main/java/com/hayatsukikazumi/ptc/WAVDecoder.java:109-112 | The magnitude strictly grows with the 7-bit code |
| WavDecoder.MuLawRange | src/main/java/com/hayatsukikazumi/ptc/WAVDecoder.java:102-120 | The µ-law numerator lies in [-8032, 8031], and code 0xFF decodes to exactly 0 |
| WavDecoder.MuLawSignSymmetry | src/main/java/com/hayatsukikazumi/ptc/WAVDecoder.java:113-116 | Two µ-law codes that differ only in bit 7 have numerators n and -n-1 |
| WavDecoder.MuLawValueInjective | src/main/java/com/hayatsukikazumi/ptc/WAVDecoder.java:109-116 | Distinct (sign, exponent, mantissa) triples give distinct numerators |
| WavDecoder.MuLawInjective | src/main/java/com/hayatsukikazumi/ptc/WAVDecoder.java:102-120 | Distinct µ-law codes decode to distinct numerators |
| WavInput.LittleEndianRoundTrip | src/main/java/com/hayatsukikazumi/ptc/WAVInputStream.java:183-192 | The k little-endian bytes of any n below 2^(8k) read back as n |
| WavInput.LittleEndianBytesRoundTrip | src/main/java/com/hayatsukikazumi/ptc/WAVInputStream.java:183-192 | Re-encoding the value a byte string reads as gives back the byte string |
| WavInput.LittleEndianFixed | src/main/java/com/hayatsukikazumi/ptc/WAVInputStream.java:183-192 | The masked-and-shifted field assemblies for 2, 3 and 4 bytes are the little-endian value of those bytes |
| WavInput.DataSizeAsWrittenLosesTopByte | src/main/java/com/hayatsukikazumi/ptc/WAVInputStream.java:229-230 | The data-size expression as written reads the 16 MiB size field 00 00 00 01 as 0; the little-endian reading gives 0x1000000 |
| WavInput.DataSizeReadingsAgree | src/main/java/com/hayatsukikazumi/ptc/WAVInputStream.java:229-230 | The expression as written and the little-endian reading agree exactly when the top byte is 0x00 or 0xFF |
| WavInput.DataSizeRoundTrip | src/main/java/com/hayatsukikazumi/ptc/WAVInputStream.java:229-230 | The little-endian reading gives back every size below 2^31 |
| WavInput.FindData | src/main/java/com/hayatsukikazumi/ptc/WAVInputStream.java:208-222 | The scan stops at the first byte, from byte 36 on, at which the last four bytes spell "data", the window being seeded with the bytes before byte 36; no match before it; None exactly when no byte of the rest of the file completes "data" |
| WavInput.SizeFieldRead | src/main/java/com/hayatsukikazumi/ptc/WAVInputStream.java:225-230 | A size read that finds only 1 to 3 bytes overwrites only that many bytes of the buffer and keeps the rest of "data" |
| WavInput.ParseHeader | src/main/java/com/hayatsukikazumi/ptc/WAVInputStream.java:144-238 | A parse succeeds only when the file has the nine fixed fields, with "RIFF", "WAVE" and "fmt " in the first, third and fourth; the samples start after the "data" tag; a file shorter than the fixed fields is a bad container |
| WavInput.ParseFormat | src/main/java/com/hayatsukikazumi/ptc/WAVInputStream.java:225-237 | With "data" ending at byte k, the samples start four bytes later, or at the end of the file when the size field is cut short |
| WavInput.ParsedFields | src/main/java/com/hayatsukikazumi/ptc/WAVInputStream.java:179-237 | A parsed header holds format id b0+256·b1 and channel count b2 of the sixth field, the rate from the three low bytes of the seventh (so below 2^24), the bits from byte 2 of the ninth, bytes per sample (bits+7)/8, frame size bytes·channels, GetDecoder's decoder, and the size field read little-endian |
| WavInput.ParseHeaderFound | src/main/java/com/hayatsukikazumi/ptc/WAVInputStream.java:149-230 | Right tags and a "data" match short of the last byte leave only the format check to decide the parse |
| WavInput.ParseFormatDecoder | src/main/java/com/hayatsukikazumi/ptc/WAVInputStream.java:233-237 | The parse is rejected as an unsupported format exactly when GetDecoder has no decoder for the format id and byte count |
| WavInput.ParseHeaderRejects | src/main/java/com/hayatsukikazumi/ptc/WAVInputStream.java:149-237 | Every way a parse fails: a short file, a wrong tag, no "data", or "data" at the last byte is a bad container; an unsupported format is exactly a good container with no decoder |
| WavInput.HeaderBadContainer | src/main/java/com/hayatsukikazumi/ptc/WAVInputStream.java:149-222 | Each container fault on its own makes the parse a bad container |
| WavInput.CanonicalHeaderScan | src/main/java/com/hayatsukikazumi/ptc/WAVInputStream.java:208-222 | In a canonical 44-byte header whatever follows it, the scan stops at byte 39 |
| WavInput.ParseCanonicalHeader | src/main/java/com/hayatsukikazumi/ptc/WAVInputStream.java:144-238 | A canonical 44-byte header followed by any payload parses back to the format id, channels, rate, bits and size it was built from, whatever its skipped fields hold, with the samples starting at byte 44 |
| WavInput.SoundValuesSnoc | src/main/java/com/hayatsukikazumi/ptc/WAVInputStream.java:116-133 | Reading one more frame appends that frame's values to the values read so far |
| WavInput.ChannelSlot | src/main/java/com/hayatsukikazumi/ptc/WAVInputStream.java:123-132 | Value k of a one-channel read is the sample in slot `channel` of frame k |
| WavInput.InterleavedSlot | src/main/java/com/hayatsukikazumi/ptc/WAVInputStream.java:123-132 | Value k·channels+j of an all-channel read is the sample in slot j of frame k |
| WavInput.ValuesOfChannel | src/main/java/com/hayatsukikazumi/ptc/WAVInputStream.java:123-132 | The same, at byte offset start + k·bytes·channels + channel·bytes |
| WavInput.ValuesOfAllChannels | src/main/java/com/hayatsukikazumi/ptc/WAVInputStream.java:123-132 | The same for all channels, at byte offset start + k·bytes·channels + j·bytes |
| WavInput.ReadFrames | src/main/java/com/hayatsukikazumi/ptc/WAVInputStream.java:116-135 | The read loop from frame f on never moves the cursor back or past the end, and never writes more values than the frames wanted hold |
| WavInput.ReadFramesShort | src/main/java/com/hayatsukikazumi/ptc/WAVInputStream.java:118-121 | A short frame ends the read with -1 if it was the first frame, otherwise with the count so far, and the rest of the file consumed |
| WavInput.ReadFramesDone | src/main/java/com/hayatsukikazumi/ptc/WAVInputStream.java:116-135 | When every wanted frame is whole, the read returns their values and the cursor stops right after them |
| WavInput.ReadFramesClosedForm | src/main/java/com/hayatsukikazumi/ptc/WAVInputStream.java:113-135 | In closed form the read decodes n frames, n being the smaller of the frames wanted and the whole frames left, with its return value and final cursor |
| WavInput.ReadSoundEnd | src/main/java/com/hayatsukikazumi/ptc/WAVInputStream.java:116-121 | The read returns -1 exactly when frames were wanted and less than one frame is left; then nothing is written and the file is consumed; otherwise the count is the number of values written |
| WavInput.ReadSoundSpec | src/main/java/com/hayatsukikazumi/ptc/WAVInputStream.java:112-135 | `readSound` on file values for a channel below the channel count: it returns at most the values of the frames wanted (len, or len rounded down to whole frames for one channel) and leaves the cursor between where it was and the end of the data |
| WavInput.ReadSoundCount | src/main/java/com/hayatsukikazumi/ptc/WAVInputStream.java:113-135 | An all-channel read returns a multiple of the channel count; a one-channel read returns at most (len/channels)·channels |
| WavInput.ReadSoundAllChannelsOverrun | src/main/java/com/hayatsukikazumi/ptc/WAVInputStream.java:113-133 | An all-channel read returns fewer than len + channels values, and when the frames are there it returns len rounded up to whole frames, which can exceed len |
| WavInput.ReadSoundOverrunExample | src/main/java/com/hayatsukikazumi/ptc/WAVInputStream.java:113-133 | Asking two 8-bit channels for 3 values writes 4 |
| WavInput.DecodeSlot | src/main/java/com/hayatsukikazumi/ptc/WAVInputStream.java:124-131 | One slot of the frame loop appends the slot's sample exactly when it is read, and advances pos and retlen together |
| WavInput.DecodeFrame | src/main/java/com/hayatsukikazumi/ptc/WAVInputStream.java:123-132 | Decoding a frame writes its values from pos on, advances pos and retlen by the values per frame, and leaves the rest of the array alone |
| WavInput.DecodeNextFrame | src/main/java/com/hayatsukikazumi/ptc/WAVInputStream.java:123-132 | After frame f+1 the array holds, from off on, the values of the first f+1 frames |
| WavInput.WavInputStream.constructor | src/main/java/com/hayatsukikazumi/ptc/WAVInputStream.java:45-48 | A stream over the file's bytes, positioned at byte 0, with no decoder yet |
| WavInput.WavInputStream.ReadInto | src/main/java/com/hayatsukikazumi/ptc/WAVInputStream.java:118 | `read(byte[])`: -1 at the end of the file; otherwise the bytes from the cursor, fewer than the buffer holds only at the end of the file, with the buffer's tail left as it was |
| WavInput.WavInputStream.ReadByte | src/main/java/com/hayatsukikazumi/ptc/WAVInputStream.java:208 | `read()`: the byte at the cursor, or -1 at the end of the file |
| WavInput.WavInputStream.ReadChunkTags | src/main/java/com/hayatsukikazumi/ptc/WAVInputStream.java:148-176 | The first five field reads succeed only on the three tags; any failure means a short file or a wrong tag |
| WavInput.WavInputStream.ReadFormatFields | src/main/java/com/hayatsukikazumi/ptc/WAVInputStream.java:178-205 | The next four field reads set the format id, channels, rate and bits from their bytes; they fail only on a file shorter than the fixed fields |
| WavInput.WavInputStream.ScanForData | src/main/java/com/hayatsukikazumi/ptc/WAVInputStream.java:207-222 | The byte-by-byte scan stops exactly at FindData's match, or fails exactly when there is none |
| WavInput.WavInputStream.ReadDataSize | src/main/java/com/hayatsukikazumi/ptc/WAVInputStream.java:224-230 | The size read fails exactly at the end of the file, and otherwise stores the size field read little-endian |
| WavInput.WavInputStream.ReadHeader | src/main/java/com/hayatsukikazumi/ptc/WAVInputStream.java:144-238 | `readHeader` succeeds exactly when ParseHeader does, sets the fields as ParseHeader gives them and leaves the cursor at the first sample byte; otherwise it returns ParseHeader's error |
| WavInput.WavInputStream.NewFrameBuffer | src/main/java/com/hayatsukikazumi/ptc/WAVInputStream.java:234 | The frame buffer holds bytes·channels bytes |
| WavInput.WavInputStream.ReadNextFrame | src/main/java/com/hayatsukikazumi/ptc/WAVInputStream.java:116-132 | One loop pass: a short frame changes nothing but the cursor, which goes to the end of the file; a whole frame extends the values written by that frame |
| WavInput.WavInputStream.ReadSound | src/main/java/com/hayatsukikazumi/ptc/WAVInputStream.java:106-136 | A channel at or above the channel count is refused before anything is read; otherwise the count, the cursor and buf agree with ReadSoundSpec, with buf written from off on and every other slot unchanged |
| FskAnalyzer.MinJudge | src/main/java/com/hayatsukikazumi/ptc/FSKBitAnalyzer.java:158-160 | `min` returns one of its two arguments, the one with the larger ordinal |
| FskAnalyzer.MinJudgeCommutative | src/main/java/com/hayatsukikazumi/ptc/FSKBitAnalyzer.java:158-160 | `min` is commutative |
| FskAnalyzer.MinJudgeAssociative | src/main/java/com/hayatsukikazumi/ptc/FSKBitAnalyzer.java:158-160 | `min` is associative |
| FskAnalyzer.MinJudgeIdempotent | src/main/java/com/hayatsukikazumi/ptc/FSKBitAnalyzer.java:158-160 | `min` is idempotent |
| FskAnalyzer.MinJudgeUnits | src/main/java/com/hayatsukikazumi/ptc/FSKBitAnalyzer.java:158-160 | A is the identity of `min` and D absorbs it |
| FskAnalyzer.Truncate | src/main/java/com/hayatsukikazumi/ptc/FSKBitAnalyzer.java:32-34 | The `(int)` cast of a non-negative real is its floor |
| FskAnalyzer.MakeOffsets | src/main/java/com/hayatsukikazumi/ptc/FSKBitAnalyzer.java:26-35 | The constructor's offsets: none exactly when the rate or the frequency is not positive, otherwise 0 <= t34 <= t54 < t94 |
| FskAnalyzer.OffsetsAt44100 | src/main/java/com/hayatsukikazumi/ptc/FSKBitAnalyzer.java:32-34 | At 44100 Hz and 1200 Hz the offsets are 12, 24 and 38 |
| FskAnalyzer.RateLimits | src/main/java/com/hayatsukikazumi/ptc/FSKBitAnalyzer.java:32-34 | For 1200 Hz, t34 >= 1 exactly from 3491 Hz and t94 <= 128 exactly up to 148945 Hz |
| FskAnalyzer.WindowExtremes | src/main/java/com/hayatsukikazumi/ptc/FSKBitAnalyzer.java:46-53 | The scanned max and min bound every sample of the window, including the seed sample, and each is attained |
| FskAnalyzer.MidlinesOrdered | src/main/java/com/hayatsukikazumi/ptc/FSKBitAnalyzer.java:55-57 | The thresholds satisfy min <= low <= avg <= high <= max |
| FskAnalyzer.WindowThresholdsOrdered | src/main/java/com/hayatsukikazumi/ptc/FSKBitAnalyzer.java:46-57 | For any window, low <= avg <= high, and they lie between the window's extremes |
| FskAnalyzer.WindowThresholds | src/main/java/com/hayatsukikazumi/ptc/FSKBitAnalyzer.java:46-57 | The thresholds of the window from startPos to min(startPos + t94, length); it has no contract of its own: WindowThresholdsOrdered states low <= avg <= high between the window's extremes |
| FskAnalyzer.WalkAbove | src/main/java/com/hayatsukikazumi/ptc/FSKBitAnalyzer.java:63-65 | The first walk ends between its start and the limit |
| FskAnalyzer.WalkAboveStops | src/main/java/com/hayatsukikazumi/ptc/FSKBitAnalyzer.java:63-65 | The first walk passes only samples above low, and stops short of the limit only on a sample at or below low |
| FskAnalyzer.WalkBelowStops | src/main/java/com/hayatsukikazumi/ptc/FSKBitAnalyzer.java:68-70 | The second walk passes only samples below high, and stops short of the limit only on a sample at or above high |
| FskAnalyzer.WalkBelow | src/main/java/com/hayatsukikazumi/ptc/FSKBitAnalyzer.java:68-70 | The second walk ends between its start and the limit |
| FskAnalyzer.WalkBackStops | src/main/java/com/hayatsukikazumi/ptc/FSKBitAnalyzer.java:80-82 | The walk back passes only samples at or above avg, and stops above its floor only on a sample below avg |
| FskAnalyzer.WalkBack | src/main/java/com/hayatsukikazumi/ptc/FSKBitAnalyzer.java:80-82 | The walk back ends between its floor spos and its start |
| FskAnalyzer.ForwardStop | src/main/java/com/hayatsukikazumi/ptc/FSKBitAnalyzer.java:60-70 | The forward walks end in [startPos+t34, startPos+t94] |
| FskAnalyzer.ZeroPosition | src/main/java/com/hayatsukikazumi/ptc/FSKBitAnalyzer.java:43-85 | When startPos + t94 lies inside the buffer, the returned position lies in [startPos+t34, startPos+t94] |
| FskAnalyzer.ZeroPositionUnfold | src/main/java/com/hayatsukikazumi/ptc/FSKBitAnalyzer.java:72-84 | The result is the early return one before the limit, or the walk back from the forward stop |
| FskAnalyzer.ZeroPositionCrossing | src/main/java/com/hayatsukikazumi/ptc/FSKBitAnalyzer.java:72-84 | Without the early return, the result is at most the forward stop; above startPos+t34 it is a sample below avg, and every sample after it up to the forward stop is at or above avg |
| FskAnalyzer.ForwardStopShape | src/main/java/com/hayatsukikazumi/ptc/FSKBitAnalyzer.java:60-70 | Before turning back the search passed a stretch above low, then a stretch below high, and stopping short of the window end it stopped on a sample at or above high |
| FskAnalyzer.ZeroPositionFlat | src/main/java/com/hayatsukikazumi/ptc/FSKBitAnalyzer.java:43-85 | On a flat window the search returns exactly startPos + t34 |
| FskAnalyzer.Band | src/main/java/com/hayatsukikazumi/ptc/FSKBitAnalyzer.java:111-147 | A sample falls in one of four bands cut by low, avg and high |
| FskAnalyzer.JudgeMatchesBands | src/main/java/com/hayatsukikazumi/ptc/FSKBitAnalyzer.java:105-150 | With ordered thresholds the judge table is a rule on bands: C for the same band, D when the signal moves against the hint, else A across two bands or more and B across one |
| FskAnalyzer.JudgeSameBand | src/main/java/com/hayatsukikazumi/ptc/FSKBitAnalyzer.java:105-150 | The judge is C exactly when both samples are in the same band, whatever the hint |
| FskAnalyzer.JudgeHintFlip | src/main/java/com/hayatsukikazumi/ptc/FSKBitAnalyzer.java:105-150 | Outside C, flipping the hint turns D into A or B and A or B into D |
| FskAnalyzer.Judge | src/main/java/com/hayatsukikazumi/ptc/FSKBitAnalyzer.java:107-149 | The `judgeBit` table on the samples at t34 and t54 and the hint; it has no contract of its own: JudgeMatchesBands equates it with the independent band rule JudgeByBands, and JudgeSameBand and JudgeHintFlip state its C and hint cases |
| FskAnalyzer.FskBitAnalyzer.constructor | src/main/java/com/hayatsukikazumi/ptc/FSKBitAnalyzer.java:17-35 | The offsets are MakeOffsets', and the thresholds start at 0, -0.1 and 0.1, which are ordered |
| FskAnalyzer.FskBitAnalyzer.Create | src/main/java/com/hayatsukikazumi/ptc/FSKBitAnalyzer.java:26-35 | Construction fails exactly when the rate or the frequency is not positive; otherwise the analyser has MakeOffsets' offsets |
| FskAnalyzer.FskBitAnalyzer.Extremes | src/main/java/com/hayatsukikazumi/ptc/FSKBitAnalyzer.java:46-53 | The min/max loop computes the window's extremes |
| FskAnalyzer.FskBitAnalyzer.WalkAboveLoop | src/main/java/com/hayatsukikazumi/ptc/FSKBitAnalyzer.java:63-65 | The first walk loop computes WalkAbove |
| FskAnalyzer.FskBitAnalyzer.WalkBelowLoop | src/main/java/com/hayatsukikazumi/ptc/FSKBitAnalyzer.java:68-70 | The second walk loop computes WalkBelow |
| FskAnalyzer.FskBitAnalyzer.WalkBackLoop | src/main/java/com/hayatsukikazumi/ptc/FSKBitAnalyzer.java:80-82 | The walk-back loop computes WalkBack |
| FskAnalyzer.FskBitAnalyzer.GetNextZeroPosition | src/main/java/com/hayatsukikazumi/ptc/FSKBitAnalyzer.java:43-85 | `getNextZeroPosition` returns ZeroPosition and leaves the thresholds of its window, ordered, in the object |
| FskAnalyzer.FskBitAnalyzer.JudgeBit | src/main/java/com/hayatsukikazumi/ptc/FSKBitAnalyzer.java:105-150 | `judgeBit` depends only on the samples t34 and t54 past pos1, the hint and the current thresholds (pos2 plays no part), and follows the band rule when the thresholds are ordered |
| FskAnalyzer.FskBitAnalyzer.IsHighFrequency | src/main/java/com/hayatsukikazumi/ptc/FSKBitAnalyzer.java:93-95 | `isHighFrequency(pos1, pos2)`: the interval is at most t54 samples long; it has no contract of its own: IsHighFrequencyMonotone states its monotonicity |
| FskAnalyzer.IsHighFrequencyMonotone | src/main/java/com/hayatsukikazumi/ptc/FSKBitAnalyzer.java:93-95 | An interval no longer than a high-frequency one is high-frequency too, wherever either lies |
| FskAnalyzer.IsHighFrequencyThreshold | src/main/java/com/hayatsukikazumi/ptc/FSKBitAnalyzer.java:93-95 | t54 is the only length t such that exactly the intervals no longer than t are classified high-frequency |
| Ptc.Negated | src/main/java/com/hayatsukikazumi/ptc/PTCLogic.java:145-149 | The negate loop, as a recursion over the samples: it keeps the length and negates every sample at its own index |
| Ptc.NegatedTwice | src/main/java/com/hayatsukikazumi/ptc/PTCLogic.java:145-149 | Negating twice gives the samples back |
| Ptc.HalfFits | src/main/java/com/hayatsukikazumi/ptc/PTCLogic.java:141 | `readSound(0, buf, 512, 512)` writes at most 512 values, so it stays inside the upper half |
| Ptc.RefillOutcome | src/main/java/com/hayatsukikazumi/ptc/PTCLogic.java:141-142 | A refill gets at most 512 values; a positive count moves the file on, and a count of 0 or -1 reads nothing, at the end of the file (or with more than 512 channels) |
| Ptc.WrittenUpper | src/main/java/com/hayatsukikazumi/ptc/PTCLogic.java:136-141 | The half move followed by the refill write gives Refilled's two halves |
| Ptc.Refilled | src/main/java/com/hayatsukikazumi/ptc/PTCLogic.java:136-149 | The window after a refill keeps its 1024 samples |
| Ptc.RefilledContents | src/main/java/com/hayatsukikazumi/ptc/PTCLogic.java:136-149 | After a refill the lower half is the old upper half, the upper half holds the values read followed by the stale tail of the old upper half, and with negate that whole upper half is negated |
| Ptc.ValueOfSnoc | src/main/java/com/hayatsukikazumi/ptc/PTCLogic.java:194-195 | Adding bit i on top adds 2^i exactly when it is a mark, so `value |= 1 << i` is an addition |
| Ptc.ValueOfRange | src/main/java/com/hayatsukikazumi/ptc/PTCLogic.java:187-198 | The value of n bits is below 2^n, so a byte's value is below 256 |
| Ptc.ValueOfBit | src/main/java/com/hayatsukikazumi/ptc/PTCLogic.java:187-198 | Bit i of the value, least significant first, is 1 exactly when the i-th bit read was a mark |
| Ptc.ValueOf | src/main/java/com/hayatsukikazumi/ptc/PTCLogic.java:183-198 | The value of bits least significant first is below 2^n for n bits |
| Ptc.BitJudgeOf | src/main/java/com/hayatsukikazumi/ptc/PTCLogic.java:192-193 | A logged bit search is judged by the table on its window, at t34 and t54 past its start, under that window's thresholds, with the hint its interval gives |
| Ptc.SearchesPerByte | src/main/java/com/hayatsukikazumi/ptc/PTCLogic.java:187-198 | A byte's searches number one per bit plus one per mark |
| Ptc.Marks | src/main/java/com/hayatsukikazumi/ptc/PTCLogic.java:190-195 | The bits the Bit searches read, set where the interval was at most t54; it has no contract of its own: MarksAppended states that each bit's searches add exactly its mark, SearchesPerByte that a byte's searches are its bits plus its marks |
| Ptc.ReportShapeMeaning | src/main/java/com/hayatsukikazumi/ptc/PTCLogic.java:88-121 | In a well-formed report every data line follows a leader line, and every leader line comes first or follows some data since the last one |
| Ptc.ProbeStep | src/main/java/com/hayatsukikazumi/ptc/PTCLogic.java:165-169 | A probe either extends the run of high-frequency probes or is the low-frequency one that ends it |
| Ptc.MarksAppended | src/main/java/com/hayatsukikazumi/ptc/PTCLogic.java:190-197 | A bit's searches add exactly one bit, its mark, to the bits read |
| Ptc.JudgeAppended | src/main/java/com/hayatsukikazumi/ptc/PTCLogic.java:193 | A bit's searches combine its judge into the byte's judge with `min` |
| Ptc.WorstJudge | src/main/java/com/hayatsukikazumi/ptc/PTCLogic.java:182-193 | The `min` of A and the judges of the Bit searches; it has no contract of its own: JudgeAppended states that each bit's searches combine its judge in with `min` |
| Ptc.ShapeAppended | src/main/java/com/hayatsukikazumi/ptc/PTCLogic.java:190-197 | A mark's extra search follows its bit search, and a space has none |
| Ptc.ByteStep | src/main/java/com/hayatsukikazumi/ptc/PTCLogic.java:187-198 | One pass of the bit loop keeps the loop's invariant: the value is ValueOf the bits read and the judge is the worst judge of them |
| Ptc.DataAppended | src/main/java/com/hayatsukikazumi/ptc/PTCLogic.java:200-202 | A data line for the last byte written keeps the report well formed and matching the bytes written |
| Ptc.BlankAppended | src/main/java/com/hayatsukikazumi/ptc/PTCLogic.java:107-110 | A leader line counts one more leader and keeps the report well formed |
| Ptc.Refill | src/main/java/com/hayatsukikazumi/ptc/PTCLogic.java:130-152 | One refill on file values: the window keeps its size and the file cursor never goes back; success moves it on, and failure leaves the upper half copied into both halves, at the end of the file (or with more than 512 channels) |
| Ptc.Refills | src/main/java/com/hayatsukikazumi/ptc/PTCLogic.java:74-80 | n refills in a row, stopping at the first that reads nothing: the window keeps its size, the cursor never goes back and stays inside the file, and n successful ones move it on by at least n |
| Ptc.RefillsStep | src/main/java/com/hayatsukikazumi/ptc/PTCLogic.java:74-80 | A refill as Read performs it, on the window and cursor n successful refills left, gives round n + 1 of Refills |
| Ptc.ChainedJoin | src/main/java/com/hayatsukikazumi/ptc/PTCLogic.java:85-86 | Two chained runs of searches where the second starts at the absolute position the first stopped at form one chained run |
| Ptc.ReadFrom | src/main/java/com/hayatsukikazumi/ptc/PTCLogic.java:130-152 | `read()` from a spot: below 768 the spot stays and the result is true; otherwise a Refill, with pos back by 512 and abspos on by 512, so the absolute position stays, the file never goes back, a refill that reads something moves it on, and one that reads nothing is at the end of the file |
| Ptc.WindowedSnoc | src/main/java/com/hayatsukikazumi/ptc/PTCLogic.java:159-198 | A search from where a log that ran one after another left the engine (a probe or bit search on the window of the refill before it) extends that log, and leaves the engine where it stopped |
| Ptc.WindowedJoin | src/main/java/com/hayatsukikazumi/ptc/PTCLogic.java:90-121 | Two logs, the second run from where the first left the engine, form one log that ran one after another |
| Ptc.WindowedChained | src/main/java/com/hayatsukikazumi/ptc/PTCLogic.java:85-198 | Searches that ran one after another are chained: each starts at the absolute position the one before stopped, the first at the absolute position of the spot they ran from |
| Ptc.UnitWindowed | src/main/java/com/hayatsukikazumi/ptc/PTCLogic.java:188-197 | A bit search right after its refill and, for a mark, the extra search from where it stopped ran one after another, leaving the engine where the last stopped |
| Ptc.RoundJoined | src/main/java/com/hayatsukikazumi/ptc/PTCLogic.java:92-104 | A round's probes, then its bits from where the probes left the engine, ran one after another and are genuine |
| Ptc.ByteAtGrow | src/main/java/com/hayatsukikazumi/ptc/PTCLogic.java:88-121 | A byte read from eight bit searches of the log is still read from them once the log grows |
| Ptc.BytesGrow | src/main/java/com/hayatsukikazumi/ptc/PTCLogic.java:88-121 | All bytes read from the log, in order, are still read from it once the log grows |
| Ptc.ByteLogged | src/main/java/com/hayatsukikazumi/ptc/PTCLogic.java:99-104 | A round that found a low probe and read eight bits after it adds their value, below 256, as the next byte read from the log, after the bytes before it |
| Ptc.PtcLogic.SkipRound | src/main/java/com/hayatsukikazumi/ptc/PTCLogic.java:74-80 | One pass of the skip loop turns the window and cursor of Refills round n into those of round n + 1, moves abspos on by 512 and, on success, restores pos to 1024 |
| Ptc.PtcLogic.PrimeSearch | src/main/java/com/hayatsukikazumi/ptc/PTCLogic.java:85-86 | The two priming searches are genuine searches of the analyser, the first from pos over the current window and the second from where the first stopped, with no refill between; the engine ends where the second stopped |
| Ptc.PtcLogic.AppendBit | src/main/java/com/hayatsukikazumi/ptc/PTCLogic.java:187-198 | One round of the bit loop: when the refill reads something, bit i adds its searches, run from where the engine stood on the window the refill made, adds 2^i exactly for a mark and combines its judge with `min`; a refill that reads nothing changes none of them and leaves the engine where ReadFrom says |
| Ptc.BitAppended | src/main/java/com/hayatsukikazumi/ptc/PTCLogic.java:187-198 | One bit's searches run from where i bits left the engine give i + 1 bits, with the value, the worst judge and the windows the loop keeps |
| Ptc.BreakEnds | src/main/java/com/hayatsukikazumi/ptc/PTCLogic.java:95-102 | A report of the main loop with a break line appended is the report of an illegal end |
| Ptc.BreakBeforeLeader | src/main/java/com/hayatsukikazumi/ptc/PTCLogic.java:94-96 | A break line while three leaders are still to come leaves a report with no leader line |
| Ptc.DataKeepsLoop | src/main/java/com/hayatsukikazumi/ptc/PTCLogic.java:99-104 | The report and bytes after a byte of eight bits is written (ByteWritten: its value and its data line with the worst judge) keep the main loop's report condition, with inLeader cleared |
| Ptc.BlankCounts | src/main/java/com/hayatsukikazumi/ptc/PTCLogic.java:107-113 | A leader line after data counts one leader more in the main loop's report, and the third one gives the report of a normal end |
| Ptc.PtcLogic.constructor | src/main/java/com/hayatsukikazumi/ptc/PTCLogic.java:59-69 | The set-up of `analyze`: a fresh 1024-sample window of silence with its cursor at the end, abspos -1024, nothing written, reported or searched |
| Ptc.PtcLogic.Read | src/main/java/com/hayatsukikazumi/ptc/PTCLogic.java:130-152 | Below 768 nothing changes; otherwise pos drops by 512 and abspos + pos is unchanged, the file is read as ReadSoundSpec says, the result is true exactly when the count is positive, and the window is Refilled, negated only after a successful read; in every case the new spot and result are ReadFrom of the old spot |
| Ptc.PtcLogic.NegateUpper | src/main/java/com/hayatsukikazumi/ptc/PTCLogic.java:145-149 | The loop negates the upper half and keeps the lower half |
| Ptc.PtcLogic.NextZero | src/main/java/com/hayatsukikazumi/ptc/PTCLogic.java:85-86 | A boundary search moves pos to ZeroPosition of the window, t34 to t94 samples on; it logs itself with the window, abspos, its start and its stop, and leaves that window's thresholds in the analyser |
| Ptc.PtcLogic.ProbeOnce | src/main/java/com/hayatsukikazumi/ptc/PTCLogic.java:163-167 | One round of `detectStartBit`: when the refill reads something, one logged probe search that is a genuine search on the window that refill made (Follows the old spot), leaving the engine where it stopped, with its thresholds left in the analyser and high meaning an interval of at most t54; otherwise nothing is logged, the thresholds stay, and the engine stands where ReadFrom says |
| Ptc.PtcLogic.DetectStartBit | src/main/java/com/hayatsukikazumi/ptc/PTCLogic.java:159-173 | START_BIT after high probes and one low probe, LEADER after 28 high probes, STREAM_END after fewer than 28 high probes and only when a refill read nothing: the engine then stands where ReadFrom leaves the spot the last probe left, and the file is used up (or has more than 512 channels); the probes are genuine searches that ran one after another from the old spot, each on the window of the refill before it (Windowed), and for START_BIT and LEADER the engine ends where the last stopped |
| Ptc.PtcLogic.BitSearch | src/main/java/com/hayatsukikazumi/ptc/PTCLogic.java:190-193 | A bit's search over the current window from the old pos to the new one, a genuine search of the analyser: the mark is whether its interval is at most t54, and the judge is the table on that search |
| Ptc.PtcLogic.SearchBit | src/main/java/com/hayatsukikazumi/ptc/PTCLogic.java:190-197 | One bit below the refill point: the bit search over the window from the old pos, then exactly for a mark one extra search from where it stopped to the new pos, both genuine |
| Ptc.PtcLogic.ReadBit | src/main/java/com/hayatsukikazumi/ptc/PTCLogic.java:188-197 | When the refill reads something, one bit whose searches ran one after another from the old spot, the bit search on the window that refill made, ending where the engine stands; otherwise nothing is logged and the engine stands where ReadFrom says |
| Ptc.PtcLogic.ReadBits | src/main/java/com/hayatsukikazumi/ptc/PTCLogic.java:182-198 | Eight bits read give value = ValueOf of their marks, least significant first, below 256, and judge = the worst of their judges from A; the bits' searches are genuine and ran one after another from the old spot (Windowed); fewer than eight bits only when a refill read nothing, the engine then standing where ReadFrom leaves the spot the last bit left |
| Ptc.PtcLogic.ReadAndWriteByte | src/main/java/com/hayatsukikazumi/ptc/PTCLogic.java:180-205 | On success exactly one byte, the value of the eight marks below 256, is written, with one data line carrying its position, index and the worst judge of the bits (ByteWritten); on failure fewer than eight bits were read, nothing is written or reported, and a refill read nothing: the engine stands where ReadFrom leaves the spot the last bit left, and the file is used up (or has more than 512 channels); in both cases the searches are genuine and ran one after another from the old spot |
| Ptc.PtcLogic.WriteByte | src/main/java/com/hayatsukikazumi/ptc/PTCLogic.java:200-202 | The byte is appended, the data line carries the old destpos, and destpos rises by one |
| Ptc.PtcLogic.Skip | src/main/java/com/hayatsukikazumi/ptc/PTCLogic.java:72-81 | After n refills abspos is 512n - 1024 and the window, cursor and result are those of Refills of n rounds from the old window and cursor; success leaves abspos >= topos and pos = abspos - topos in [0, 512), failure pos 512 with the file used up before topos |
| Ptc.PtcLogic.Start | src/main/java/com/hayatsukikazumi/ptc/PTCLogic.java:72-86 | The skip as Skip says; on success one header line at the spot the skip left (2·abspos - topos absolute), three leaders to go and exactly two priming searches, genuine and run one after another from that spot; on failure a single break line at abspos + 512, abspos still below topos + 512, no searches and the file used up |
| Ptc.PtcLogic.OnStartBit | src/main/java/com/hayatsukikazumi/ptc/PTCLogic.java:93-104 | A start bit before the first leader is an illegal end with no reading and one break line; otherwise it succeeds exactly when eight bits were read after the probes, writing their value and a data line with its position, index, value and worst judge (ByteWritten), or else writes nothing and one break line, with the file used up (or more than 512 channels); the probes and bits together ran one after another from the round's spot; it clears inLeader |
| Ptc.PtcLogic.OnByte | src/main/java/com/hayatsukikazumi/ptc/PTCLogic.java:99-104 | A start bit after the first leader: success exactly when eight bits were read, with the byte and its data line (ByteOrBreak) and the loop going on with inLeader cleared; failure is an illegal end with one break line and the file used up; the bits ran one after another from the old spot |
| Ptc.PtcLogic.CloseByte | src/main/java/com/hayatsukikazumi/ptc/PTCLogic.java:99-104 | After `readAndWriteByte()`: a byte written keeps the main loop's report with inLeader cleared and adds no line; a byte not read adds exactly one break line and ends the report illegally; the engine's spot does not move |
| Ptc.PtcLogic.OnLeader | src/main/java/com/hayatsukikazumi/ptc/PTCLogic.java:106-115 | A leader while inLeader changes nothing; otherwise it appends exactly one leader line at the cursor and counts block down, and it finishes exactly when that was the third leader |
| Ptc.PtcLogic.OnKind | src/main/java/com/hayatsukikazumi/ptc/PTCLogic.java:92-120 | The switch on the kind the probes of a round detected: START_BIT as OnStartBit, a failed byte after the first leader only with the file used up; LEADER as OnLeader with inLeader set; STREAM_END, which comes only with the file used up, an illegal end with one break line and nothing written; the probes and any bits ran one after another from the round's spot |
| Ptc.PtcLogic.Step | src/main/java/com/hayatsukikazumi/ptc/PTCLogic.java:90-120 | One round of the main loop: the probes and bits are returned apart and together ran one after another from the round's spot, genuine searches; START_BIT comes after high probes and a low probe and either writes the byte of eight bits with its worst-judge data line (ByteWritten) or ends illegally with one break line, after the first leader only with the file used up; LEADER comes after 28 high probes and behaves as OnLeader; STREAM_END ends illegally with one break line and the file used up (or more than 512 channels) |
| Ptc.PtcLogic.Run | src/main/java/com/hayatsukikazumi/ptc/PTCLogic.java:72-121 | `analyze` after its set-up always ends. A normal end comes after three leader lines, the last line a leader line; an illegal end with fewer leader lines and a break line last. The skip took n refills: when some search ran, the first is a priming search and 512n - 1024 lies in [topos, topos + 512); otherwise the report is exactly one break line at 512n - 512, 512n - 1024 is below topos + 512 and the file is used up. The report opens with a break line exactly when no search ran; every search is genuine and all ran one after another from the spot the n refills of the skip left; byte k written is the value of eight bit searches of the log that follow a low probe, the bytes in log order; an illegal end comes only with the file used up (or more than 512 channels) or with no leader line yet, a start bit before the first leader |
| Ptc.PtcLogic.MainLoop | src/main/java/com/hayatsukikazumi/ptc/PTCLogic.java:88-121 | The main loop after the priming searches always ends, normally after the third leader or illegally with a break line last; the first search and the header line stay; every search is genuine and all ran one after another from the loop's starting spot, the first starting there; byte k written is the value of eight bit searches of the log that follow a low probe, the bytes in log order; an illegal end comes only with the file used up (or more than 512 channels) or with no leader line yet |
| Ptc.PtcLogic.Round | src/main/java/com/hayatsukikazumi/ptc/PTCLogic.java:90-120 | One pass of the main loop: the log and the report only grow, every search stays genuine and run one after another from the loop's spot, byte k written stays the value of eight bit searches of the log after a low probe, the bytes in log order, and an illegal end comes with the file used up or with no leader line yet |
| Ptc.PtcLogic.AppendBreak | src/main/java/com/hayatsukikazumi/ptc/PTCLogic.java:95 | A break line at the current position keeps the leader count and the report's shape |
| Ptc.PtcLogic.BreakOff | src/main/java/com/hayatsukikazumi/ptc/PTCLogic.java:95-96 | A break line at the current position appended to a main-loop report gives the report of an illegal end; the spot, validity and an exhausted file stay |
| Ptc.Analyze | src/main/java/com/hayatsukikazumi/ptc/PTCLogic.java:56-123 | A rate that is not positive is refused with IllegalArgument, without reading the file; otherwise the conversion runs on a silent window and ends with every clause of Run: the skip is Refills of n rounds from the silent window and the stream's cursor at the call, and it stops at 512n - 1024 in [topos, topos + 512) when some search ran, or else with one break line at 512n - 512 and the file used up; an illegal end comes only with the file used up (or more than 512 channels) or before the first leader line |

## Left out

- Output and reports: the `OutputStream` becomes the sequence `written`. The `PrintStream` lines (`PTCReport`) become `Event` values holding the position and the fields printed. The text formatting is not modelled.
- Ptc.Event: the header line does not record the skip time, which the source only prints.
- Floating point: samples, thresholds and offsets are exact reals. Java computes them in `float` and `double`, whose rounding is not modelled. The offsets are the floors of rate·11/38400, rate·21/38400 and rate·33/38400 (+1); the offsets' double rounding is not modelled.
- Ptc.Analyze: takes `topos`, the absolute sample offset `(long)(rate * skip) - 512`, as an integer. The cast from the `double` skip time is not modelled. It requires `topos >= -1024`, i.e. a skip of at least -512 samples, which every non-negative skip meets.
- Ptc.Analyze: requires a sampling rate from 3491 to 148945 Hz, or one that is not positive. Above 148945 Hz, t94 exceeds 128, and a search after a refill can index past the window: an ArrayIndexOutOfBoundsException in the source. Below 3491 Hz, t34 is 0, and a search can return its own start, so the main loop may not end. Neither behaviour is modelled.
- Ptc.Analyze: the fields `analyze` sets up become the `const` fields of a per-call `PtcLogic` object, and `analyze` is the module-level method `Analyze`.
- Ptc.PtcLogic.ReadAndWriteByte: returns its judge as an extra out-parameter, and the value `value |= 1 << i` is modelled as an addition, which `ValueOfSnoc` justifies.
- WavInput.WavInputStream.ReadSound: for a channel inside the frame it requires the stream's invariant `Decodable` and a buffer long enough for the frames asked for. The source has no such guard. With 0 channels and a negative channel it never returns for a positive len (WAVInputStream.java:113, 118-124): the frame buffer is empty, so every read of it returns 0, that is no short frame, and no value is ever counted. With A-law or µ-law at 0 bytes per sample, or with a short buffer, it indexes out of bounds. None of these behaviours is modelled. The only call, the refill in `read()`, meets all three conditions.
- WavInput.WavInputStream.ReadDataSize: stores the corrected size `DataSize`, whereas the source stores the as-written value that `DataSizeAsWritten` models (WAVInputStream.java:229-230). The convertor never reads the field, so the difference shows nowhere else.
- Ptc.Search: each logged search records the window it read and the file cursor. `Windowed` ties every window to the file through ReadFrom, one refill at a time from the spot the skip's Refills left. The model does not state in closed form which samples of the file a given window holds.
- Exceptions: `IllegalEndDetectedException`, `IllegalArgumentException` and `UnsupportedAudioFileException` become the `Outcome`, `ReadOutcome`, `HeaderError` and `Option` values.
- WavInput.WavInputStream.constructor: does not run `readHeader`. The caller runs `ReadHeader` on the fresh stream.
- WavInput.WavInputStream.NewFrameBuffer: the frame buffer is allocated at each `ReadSound` call rather than once in `readHeader`. Its size is the same.
- WavInput.WavInputStream.ReadInto: a `BufferedInputStream` read over the whole file. A read that finds fewer bytes than asked happens only at the end of the file, so a header read with 1 to 3 bytes left behaves like end of input for the tags. The stale bytes such a read leaves are modelled only for the size field (`SizeFieldRead`).
- Java integer widths: header fields are at most 24 bits wide and the data size is a 32-bit pattern (`Int32`). Sample positions are unbounded integers; the source's `int` `_pos` and `long` `_abspos` do not overflow for files the convertor can hold.
- `P6TapeConvertor`, `P6TapeConvertorMain`, `SimpleDialog`, `MultiLabel`, `PTCReport` and the exception classes are not part of this model: they are the user interface, the file handling and the report text.

## Findings

| source | as written | input that shows it | evidently intended | confidence | as-written member | corrected member |
|---|---|---|---|---|---|---|
| src/main/java/com/hayatsukikazumi/ptc/WAVInputStream.java:229-230 | `((buf[3] & 255 << 24))` parses as `buf[3] & (255 << 24)`: the sign-extended top byte adds 0xFF000000 when it is at least 0x80 and nothing otherwise | size field 00 00 00 01 (16 MiB) reads as 0 | `(buf[3] & 255) << 24`, the little-endian 32-bit size | high; not executed | WavInput.DataSizeAsWritten (WavInput.DataSizeAsWrittenLosesTopByte, WavInput.DataSizeReadingsAgree) | WavInput.DataSize (WavInput.DataSizeRoundTrip), which the header stores |

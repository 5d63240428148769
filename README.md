# Serum to Shapeshifter wavetable converter — Dafny model

This project models the integer and byte logic of a two-script tool. The
tool converts a directory of Serum wavetables into the bit-reversed
Shapeshifter wave format. It then splices the result into a container
image at fixed offsets and re-checksums that image.

- `serum_to_shapeshifter.py` is the encoder. For every `.wav` file in name
  order it picks 8 cycles out of the file's `n` cycles of 2048 samples. It
  writes each picked cycle as 512 int16 samples. Every sample becomes two
  bytes, low byte first, and the bits of each byte are reversed. The
  records go to `output.shapewt`. For each file it also appends a name
  record of up to 8 bytes to `names_output.bin` (8 when the file name has
  at least six characters): two spaces and the first six characters of
  the file name, each bit-reversed.
- `wavewriter.py` is the patcher. It checks the start index, the
  name/wave count parity, the wave bank size and the capacity of 127
  waves, in that order. It then overwrites the wave bank at
  `0x10009B + s*8192` and the name bank at `0xF009B + s*8`. Finally it
  drops the last two bytes of the file and appends the CRC-16/IBM-SDLC of
  the rest, little-endian.

Files:

- `outcomes.dfy`: the `Option` and `Result` types.
- `bitrev.dfy` (module `BitReverse`): `reverse_byte`, written the way the
  source computes it. The byte is rendered as 8 binary digits, the string
  is reversed and then parsed back. It is proved against an independent
  definition of bit k.
- `selector.dfy` (module `CycleSelector`): the construction of
  `indices_to_take`. `round(i*(n-1)/7)` is computed exactly as
  `(2*i*(n-1) + 7) / 14`. The value `i*(n-1)/7` is a multiple of 1/7, so it
  is never halfway between two integers. `NearestIsClosest` proves that the
  integer form is within less than 1/2 of it, so Python's rounding rule
  never matters.
- `encoder.dfy` (module `SerumConverter`): name records, sample packing,
  cycle gathering and the per-file loop. The loop is a method over an
  `OutputFiles` object that holds the two output files. It is proved
  against the function `EncodeAll`, which defines the whole run.
- `crc16.dfy` (module `Crc16`): the frame check sequence of RFC 1662,
  Appendix C.2, computed bit by bit. The patcher gets the same value from
  `crccheck.crc.Crc16IbmSdlc`.
- `wavewriter.dfy` (module `WaveWriter`): `main`, as the method `Patch`
  over a `TargetFile` object whose byte content is changed in place. A
  seek past the end followed by a non-empty write zero-fills the gap. An
  empty write changes nothing.

The encoder's bytes are the subset type `Byte` (0..255) because the
script computes them with Python integers (`ord`, `&`, `>>`, `int(…, 2)`).
The patcher's bytes are `bv8` because the CRC of RFC 1662 is defined on
bit operations. The two scripts share no code and exchange only files, so
each keeps its own representation (and its own `Min` or `Max` helper).

Behaviours of the code that the model keeps:

- For `n == 8` the `elif` branch (line 100-101) yields only 7 indices. For
  `n == 0` the padding yields 9. In both cases the assertion at line 107
  aborts the run (`SelectionLength`). For `n == 8` the `elif` branch also
  skips the last cycle, which the comment at line 99 says is always taken.
- The sample-count check (line 112) runs after that assertion. A file
  with 8 whole cycles and a stray sample therefore fails the assertion,
  not the format check (`EncodeEntryErrors`).
- A failing file stops the run, but the wave records of the earlier files
  are already written (`EncodeAllFailsAt`). The names
  file is opened for appending, so new name records are added after
  whatever it already held (`ProcessFilesInDirectory`).
- The patcher compares the name and wave counts before it checks the size
  of the wave bank (`MismatchReportedFirst`). The name bank is only
  counted in whole 8-byte records, so up to 7 trailing bytes are accepted
  and written (`NameBankSlack`).
- The truncation removes the last two bytes of the file after both
  writes. If the wave write reached the end of the file, those are the
  last two bytes of the new wave data (`WaveTailReplaced`).
- `seek(-2, SEEK_END)` raises on a file shorter than two bytes. That can
  only happen when both banks are empty and the target is that short. The
  model reports it as `NoChecksumToRemove`.

## Model

| member | source | states |
|---|---|---|
| `BitReverse.ReverseByte` | serum_to_shapeshifter.py:19-22 | the result is the parse of the reversed 8-digit rendering of `v mod 256`: the +256 step for negative v is the Euclidean remainder |
| `BitReverse.ReverseByteBits` | serum_to_shapeshifter.py:19-22 | bit k of `reverse_byte(v)` is bit 7-k of `v & 0xFF`, for every integer v including negatives |
| `BitReverse.ReverseByteInvolution` | serum_to_shapeshifter.py:19-22 | reversing twice gives back every byte 0..255 |
| `BitReverse.ReverseByteLowByte` | serum_to_shapeshifter.py:20-22 | only `v mod 256` matters; for v in -256..-1 the result equals that of v + 256 |
| `BitReverse.ReverseSpace` | serum_to_shapeshifter.py:61-64 | the space character 0x20 reverses to 0x04 |
| `CycleSelector.Selection` | serum_to_shapeshifter.py:91-105 | the list built for n cycles starts with 0 and has 9 entries for n == 0, 7 for n == 8 and 8 otherwise |
| `CycleSelector.Range` | serum_to_shapeshifter.py:101-103 | `range(lo, hi)`: hi - lo consecutive values from lo, empty when hi <= lo |
| `CycleSelector.Repeat` | serum_to_shapeshifter.py:105 | `[x] * count`: count copies of x, empty for count <= 0 |
| `CycleSelector.Interior` | serum_to_shapeshifter.py:95-97 | the six interior indices for n > 8 |
| `CycleSelector.SelectIndices` | serum_to_shapeshifter.py:91-105 | the append/extend construction builds exactly the selection list for n cycles |
| `CycleSelector.NearestIsClosest` | serum_to_shapeshifter.py:95-97 | the integer index is within less than 1/2 of i*(n-1)/7 on either side, so it is `round`'s result under any tie rule |
| `CycleSelector.NearestMonotone` | serum_to_shapeshifter.py:95-97 | interior indices are non-decreasing in i and lie in [0, n-1] |
| `CycleSelector.SelectionLength` | serum_to_shapeshifter.py:100-107 | the list has 8 entries iff n is neither 0 nor 8; 7 entries for n == 8, 9 for n == 0 |
| `CycleSelector.SelectionWellFormed` | serum_to_shapeshifter.py:91-107 | for n >= 1 and n != 8: 8 entries, first 0, last n-1, all in [0, n-1], non-decreasing |
| `CycleSelector.SelectionSmall` | serum_to_shapeshifter.py:102-105 | for 1 <= n < 8: entry k is k for k < n, then n-1 repeated |
| `CycleSelector.SelectionExamples` | serum_to_shapeshifter.py:91-105 | n = 2 gives [0,1,1,1,1,1,1,1]; n = 8 gives [0..6]; n = 9 gives [0,1,2,3,5,6,7,8] |
| `SerumConverter.ProcessFilename` | serum_to_shapeshifter.py:56-66 | the name record has 2 + min(6, len) bytes |
| `SerumConverter.ProcessFilenameBytes` | serum_to_shapeshifter.py:56-66 | bytes 0 and 1 are 0x04 (two reversed spaces); byte k+2 is the reversed code of character k |
| `SerumConverter.NameRecordFull` | serum_to_shapeshifter.py:56-58 | the name record is 8 bytes iff the file name has at least 6 characters |
| `SerumConverter.PackSample` | serum_to_shapeshifter.py:134-136 | each sample gives exactly two bytes, as `struct.pack('<BB', …)` |
| `SerumConverter.PackSamples` | serum_to_shapeshifter.py:133-136 | the write loop produces two bytes per sample |
| `SerumConverter.PackSampleRoundTrip` | serum_to_shapeshifter.py:133-136 | reversing both bytes of a packed int16 and recombining as lo + 256*hi gives s mod 65536; read as signed it gives s |
| `SerumConverter.PackSamplesLayout` | serum_to_shapeshifter.py:133-136 | sample k is at bytes 2k (reversed low byte) and 2k+1 (reversed high byte); length is twice the sample count |
| `SerumConverter.DecodePackSamples` | serum_to_shapeshifter.py:133-136 | decoding the packed bytes of int16 samples gives the samples back |
| `SerumConverter.WriteSamples` | serum_to_shapeshifter.py:133-136 | the per-sample write loop appends exactly the packed bytes to the wave output |
| `SerumConverter.GatherLayout` | serum_to_shapeshifter.py:116-130 | selected cycle j occupies samples 512j .. 512j+511 of `converted_samples` |
| `SerumConverter.GatherCycles` | serum_to_shapeshifter.py:116-130 | the extend loop builds the selected cycles in selection order |
| `SerumConverter.EncodeEntry` | serum_to_shapeshifter.py:88-136 | a file fails only with the assertion of line 107 or the format error of line 113; an accepted file gives an 8192-byte wave record and a name record of 2 + min(6, len) bytes |
| `SerumConverter.EncodeEntryErrors` | serum_to_shapeshifter.py:88-113 | 0 or 8 whole cycles fail the assertion whatever the sample count; otherwise a file fails iff its sample count is not a multiple of 2048 |
| `SerumConverter.EncodeEntryRecord` | serum_to_shapeshifter.py:107-139 | an accepted file yields an 8192-byte record that decodes to its selected cycles in order, plus its name record |
| `SerumConverter.TwoCycleFile` | serum_to_shapeshifter.py:88-136 | a 4096-sample file yields a record holding cycle 0 once and then cycle 1 seven times |
| `SerumConverter.ProcessFile` | serum_to_shapeshifter.py:84-139 | one loop iteration: a rejected file reports its error with both outputs unchanged; an accepted one appends its 8192-byte record to the wave output and its name record to the names file |
| `SerumConverter.EncodeAll` | serum_to_shapeshifter.py:81-139 | a run writes at most 8192 wave bytes and 8 name bytes per file, and exactly 8192 per file when no file fails |
| `SerumConverter.EncodeAllStops` | serum_to_shapeshifter.py:81-139 | once a file has failed, later files change nothing |
| `SerumConverter.EncodeAllSucceeds` | serum_to_shapeshifter.py:81-139 | an error-free run writes 8192 bytes per file, file k's record at offset 8192k, and at most 8 name bytes per file (exactly 8 when all names have 6+ characters) |
| `SerumConverter.EncodeAllFailsAt` | serum_to_shapeshifter.py:81-139 | if file i is the first to fail, the run reports its error and the 8192*i bytes of files 0..i-1 are already written |
| `SerumConverter.ProcessFilesInDirectory` | serum_to_shapeshifter.py:69-139 | more than 128 files: error with both outputs untouched; otherwise the wave output is exactly the run's records and the names file is its old content followed by the run's name records |
| `Crc16.LittleEndian` | wavewriter.py:75 | `to_bytes(2, 'little')` gives two bytes |
| `Crc16.Shift8Split` | wavewriter.py:68-71 | eight shift steps act on the low octet only; the high octet just moves down by 8 bits |
| `Crc16.UpdateIsTableDriven` | wavewriter.py:68-71 | the bitwise register update equals RFC 1662's table-driven update |
| `Crc16.FcsConcat` | wavewriter.py:68-71 | the register over a concatenation continues from the register over its first part, so the CRC can be computed octet by octet |
| `Crc16.ComplementLeavesGood` | wavewriter.py:68-75 | feeding the complemented register in, low byte first, always leaves 0xF0B8 |
| `Crc16.CheckSequenceVerifies` | wavewriter.py:68-75 | any data followed by its little-endian CRC passes the RFC 1662 receiver check |
| `Crc16.CheckValue` | wavewriter.py:71 | the CRC of ASCII "123456789" is 0x906E |
| `WaveWriter.Overwrite` | wavewriter.py:43-51 | seek+write: the data lands at the offset, other bytes keep their value, a gap past the old end is zero, the length grows only for non-empty data |
| `WaveWriter.TargetFile.SeekWrite` | wavewriter.py:44-51 | the file content becomes the overwrite of the old content |
| `WaveWriter.TargetFile.TruncateChecksum` | wavewriter.py:63-66 | drops the last two bytes, or fails and changes nothing on a shorter file |
| `WaveWriter.TargetFile.Append` | wavewriter.py:73-75 | appends to the content |
| `WaveWriter.Patch` | wavewriter.py:10-75 | a rejected bank reports the first failing check with the target unchanged; an accepted one leaves the two writes followed by the checksum replacement |
| `WaveWriter.Validate` | wavewriter.py:11-41 | the checks only report their four errors, and an accepted bank has a start index in 0..126 |
| `WaveWriter.ValidateAccepts` | wavewriter.py:11-41 | a bank is accepted iff 0 <= s < 127, the wave size is a multiple of 8192, the counts agree and s + waves <= 127 |
| `WaveWriter.MismatchReportedFirst` | wavewriter.py:25-36 | a count mismatch is reported even when the wave size is also invalid |
| `WaveWriter.NameBankSlack` | wavewriter.py:20-27 | a name bank with up to 7 bytes past its last whole record is accepted |
| `WaveWriter.AcceptedSpansDisjoint` | wavewriter.py:39-51 | for accepted banks the name span ends before 0x10009B and the wave span ends within 127 slots, so the two writes never overlap |
| `WaveWriter.Written` | wavewriter.py:43-51 | after the two writes the file reaches the end of each non-empty span and keeps its old length otherwise |
| `WaveWriter.WrittenLayout` | wavewriter.py:43-51 | after both writes: wave bytes and name bytes in their spans, other old bytes unchanged, bytes past the old end zero, length up to the end of each non-empty span |
| `WaveWriter.WithChecksum` | wavewriter.py:63-75 | the truncation and the appended CRC leave the file length unchanged |
| `WaveWriter.ChecksumLayout` | wavewriter.py:63-75 | the checksum step keeps the length and all but the last two bytes, puts the little-endian CRC of those bytes in the last two, and the file passes the RFC 1662 check |
| `WaveWriter.WaveTailReplaced` | wavewriter.py:44-75 | when the wave write reaches the end of the file, the file ends with the wave span and its last two bytes become the CRC |

## Left out

- `resample_waveform` (`scipy.signal.resample_poly`), `apply_ramp` and the `(x * 32767).astype(np.int16)` scaling are floating point inside foreign libraries. Each `Entry` carries every cycle of its file already resampled to 512 int16 samples, so these steps are assumed rather than modelled.
- The float `round(i * interval)` is replaced by the exact integer form. The lemma `NearestIsClosest` shows the two agree on the exact value. Floating-point error in `interval` itself is not modelled.
- `os.listdir`, the `.wav` filter, `files.sort()` and `sf.read` are not modelled. `ProcessFilesInDirectory` takes the entries in the order the sorted listing gives. Multi-channel files are not modelled.
- `plot_waveforms`, every `print`, the `sys.argv` handling and the derivation of the name bank path with `str.replace` are plotting, diagnostics and CLI plumbing.
- File open, close and reopen are not modelled. The patcher's steps run without atomicity, so a crash between them is not modelled either. Each file is a byte sequence held by an object.
- The `crccheck` library is not verified. The CRC is reimplemented from RFC 1662 Appendix C.2, and its standard check value is proved.
- File names are Dafny strings, whose characters are Unicode scalar values. On POSIX systems `os.listdir` returns lone surrogates (U+DC80..U+DCFF) for name bytes that are not valid UTF-8, and `reverse_byte(ord(c))` then reverses their low byte. The model cannot represent such names, so it does not cover name records built from them.
- Running Python with `-O` strips the assertion at line 107. The model keeps the assertion.
- SerumConverter.EncodeAllSucceeds: it bounds the name output's length (exactly 8 bytes per file when names are long enough), but it does not give the offset of each name record when names are shorter than 6 characters.

/**
 * `main` of wavewriter.py: validate a wave bank and its name bank against
 * the capacity of the target container, overwrite the two banks into the
 * container at fixed offsets, drop the container's last two bytes and append
 * the CRC-16/IBM-SDLC of everything before them, low byte first.
 *
 * The target file is a `TargetFile` object whose byte content the file
 * operations change in place. A seek past the end of the file followed by a
 * non-empty write fills the gap with zero bytes; an empty write changes
 * nothing, as with Python's binary files.
 */
module WaveWriter {
  import opened Outcomes
  import opened Crc16

  /** Size of a single wave in bytes: 8 cycles of 512 two-byte samples. */
  const WaveSize := 512 * 2 * 8
  const MaxWaves := 127
  /** Offset of wave 0 in the container. */
  const StartOffset := 0x10009B
  /** Offset of name 0 in the container. */
  const NameOffset := 0xF009B
  const NameSize := 8

  datatype PatchError =
    | StartIndexOutOfBounds   // lines 12-14
    | NameWaveMismatch        // lines 25-27
    | InvalidWavebankSize     // lines 34-36
    | ExceedsMaximum          // lines 39-41
    | NoChecksumToRemove      // line 65: seek(-2, SEEK_END) on a file shorter than two bytes raises

  function Max(a: int, b: int): int { if a >= b then a else b }

  function Zeros(n: nat): (z: seq<bv8>)
    ensures |z| == n
    ensures forall i | 0 <= i < n :: z[i] == 0
  {
    seq(n, _ => 0)
  }

  /** The length of a file after writing `data` at `offset`. */
  function Extent(length: nat, offset: nat, data: seq<bv8>): nat {
    if data == [] then length else Max(length, offset + |data|)
  }

  /**
   * The content of a file after `seek(offset)` and `write(data)`: the data
   * occupies [offset, offset + |data|), every other byte keeps its value,
   * and a gap between the old end of file and the offset reads as zeros.
   */
  function Overwrite(content: seq<bv8>, offset: nat, data: seq<bv8>): (r: seq<bv8>)
    ensures |r| == Extent(|content|, offset, data)
    ensures forall j | 0 <= j < |data| :: r[offset + j] == data[j]
    ensures forall i | 0 <= i < |r| && (i < offset || offset + |data| <= i) ::
      r[i] == if i < |content| then content[i] else 0
  {
    if data == [] then content
    else
      var padded := if offset <= |content| then content else content + Zeros(offset - |content|);
      padded[..offset] + data + (if offset + |data| <= |padded| then padded[offset + |data|..] else [])
  }

  /** The checks of lines 12-41, in their order: the first that fails is reported. */
  function Validate(startIndex: int, waveBytes: nat, nameBytes: nat): (r: Option<PatchError>)
    ensures r != Some(NoChecksumToRemove)
    ensures r.None? ==> 0 <= startIndex < MaxWaves
  {
    if startIndex < 0 || startIndex >= MaxWaves then Some(StartIndexOutOfBounds)
    else if nameBytes / NameSize != waveBytes / WaveSize then Some(NameWaveMismatch)
    else if waveBytes % WaveSize != 0 then Some(InvalidWavebankSize)
    else if startIndex + waveBytes / WaveSize > MaxWaves then Some(ExceedsMaximum)
    else None
  }

  /** The container after the wave write (lines 44-46) and the name write (lines 49-51). */
  function Written(content: seq<bv8>, wavebank: seq<bv8>, namebank: seq<bv8>, startIndex: nat): (r: seq<bv8>)
    ensures |r| == Extent(Extent(|content|, StartOffset + startIndex * WaveSize, wavebank),
                          NameOffset + startIndex * NameSize, namebank)
  {
    var afterWaves := Overwrite(content, StartOffset + startIndex * WaveSize, wavebank);
    Overwrite(afterWaves, NameOffset + startIndex * NameSize, namebank)
  }

  /** Lines 63-75: the last two bytes replaced by the CRC of all bytes before them. */
  function WithChecksum(content: seq<bv8>): (r: seq<bv8>)
    requires |content| >= 2
    ensures |r| == |content|
  {
    var body := content[..|content| - 2];
    body + LittleEndian(Crc(body))
  }

  /** The target file, whose content the patcher changes in place. */
  class TargetFile {
    var content: seq<bv8>

    constructor (initial: seq<bv8>)
      ensures content == initial
    {
      content := initial;
    }

    /** `seek(offset)` then `write(data)` on a file opened with 'r+b'. */
    method SeekWrite(offset: nat, data: seq<bv8>)
      modifies this
      ensures content == Overwrite(old(content), offset, data)
    {
      content := Overwrite(content, offset, data);
    }

    /** `seek(-2, SEEK_END)` then `truncate()`; the seek fails on a file shorter than two bytes. */
    method TruncateChecksum() returns (ok: bool)
      modifies this
      ensures ok == (|old(content)| >= 2)
      ensures content == if ok then old(content)[..|old(content)| - 2] else old(content)
    {
      ok := |content| >= 2;
      if ok {
        content := content[..|content| - 2];
      }
    }

    /** `write(data)` on a file opened with 'a+b'. */
    method Append(data: seq<bv8>)
      modifies this
      ensures content == old(content) + data
    {
      content := content + data;
    }
  }

  /**
   * `main(target_file, wavebank_file, start_index)`, with the two bank files
   * given by their contents. A rejected bank leaves the target untouched;
   * an accepted one is written, and the target is re-checksummed.
   */
  method Patch(target: TargetFile, wavebank: seq<bv8>, namebank: seq<bv8>, startIndex: int)
    returns (error: Option<PatchError>)
    modifies target
    ensures Validate(startIndex, |wavebank|, |namebank|).Some? ==>
      error == Validate(startIndex, |wavebank|, |namebank|) && target.content == old(target.content)
    ensures Validate(startIndex, |wavebank|, |namebank|).None? ==>
      var written := Written(old(target.content), wavebank, namebank, startIndex);
      if |written| < 2 then error == Some(NoChecksumToRemove) && target.content == written
      else error == None && target.content == WithChecksum(written)
  {
    if startIndex < 0 || startIndex >= MaxWaves {
      return Some(StartIndexOutOfBounds);
    }
    var wavebankSize := |wavebank|;
    var numWavesInBank := wavebankSize / WaveSize;
    var namebankSize := |namebank|;
    var numNamesInBank := namebankSize / NameSize;
    if numNamesInBank != numWavesInBank {
      return Some(NameWaveMismatch);
    }
    if wavebankSize % WaveSize != 0 {
      return Some(InvalidWavebankSize);
    }
    if startIndex + numWavesInBank > MaxWaves {
      return Some(ExceedsMaximum);
    }
    target.SeekWrite(StartOffset + startIndex * WaveSize, wavebank);
    target.SeekWrite(NameOffset + startIndex * NameSize, namebank);
    var truncated := target.TruncateChecksum();
    if !truncated {
      return Some(NoChecksumToRemove);
    }
    var fileData := target.content;
    var crcValue := Crc(fileData);
    target.Append(LittleEndian(crcValue));
    return None;
  }

  /** A bank is accepted exactly when all four conditions of lines 12-41 hold. */
  lemma ValidateAccepts(startIndex: int, waveBytes: nat, nameBytes: nat)
    ensures Validate(startIndex, waveBytes, nameBytes).None? <==>
      && 0 <= startIndex < MaxWaves
      && waveBytes % WaveSize == 0
      && nameBytes / NameSize == waveBytes / WaveSize
      && startIndex + waveBytes / WaveSize <= MaxWaves
  {
  }

  /**
   * The count comparison of lines 25-27 runs before the size check of lines
   * 34-36: a bank whose counts differ is reported as a mismatch even when its
   * size is not a multiple of 8192 either.
   */
  lemma MismatchReportedFirst(startIndex: int, waveBytes: nat, nameBytes: nat)
    requires 0 <= startIndex < MaxWaves
    requires nameBytes / NameSize != waveBytes / WaveSize
    ensures Validate(startIndex, waveBytes, nameBytes) == Some(NameWaveMismatch)
  {
  }

  /**
   * Only whole names are counted: a name bank with up to 7 bytes beyond its
   * last full record is accepted, and those bytes are written too.
   */
  lemma NameBankSlack(startIndex: int, waves: nat, extra: nat)
    requires 0 <= startIndex < MaxWaves && startIndex + waves <= MaxWaves && extra < NameSize
    ensures Validate(startIndex, WaveSize * waves, NameSize * waves + extra).None?
  {
    assert (NameSize * waves + extra) / NameSize == waves;
    assert (WaveSize * waves) / WaveSize == waves && (WaveSize * waves) % WaveSize == 0;
  }

  /**
   * For an accepted bank the name span ends before the wave region starts,
   * so the two writes never overlap, and the wave span ends within the 127
   * wave slots.
   */
  lemma AcceptedSpansDisjoint(startIndex: int, waveBytes: nat, nameBytes: nat)
    requires Validate(startIndex, waveBytes, nameBytes).None?
    ensures 0 <= startIndex
    ensures NameOffset <= NameOffset + startIndex * NameSize
    ensures NameOffset + startIndex * NameSize + nameBytes <= StartOffset <= StartOffset + startIndex * WaveSize
    ensures StartOffset + startIndex * WaveSize + waveBytes <= StartOffset + MaxWaves * WaveSize
  {
    var n := waveBytes / WaveSize;
    assert nameBytes < NameSize * (nameBytes / NameSize + 1);
    assert waveBytes == WaveSize * n;
  }

  /**
   * After both writes of an accepted bank: the wave bytes and the name bytes
   * are in their spans, every other byte of the old file is unchanged, bytes
   * past the old end are zero, and the file reaches to the end of each
   * non-empty span.
   */
  lemma WrittenLayout(content: seq<bv8>, wavebank: seq<bv8>, namebank: seq<bv8>, startIndex: int)
    requires Validate(startIndex, |wavebank|, |namebank|).None?
    ensures var written := Written(content, wavebank, namebank, startIndex);
      var waveAt := StartOffset + startIndex * WaveSize;
      var nameAt := NameOffset + startIndex * NameSize;
      && |written| == Extent(Extent(|content|, waveAt, wavebank), nameAt, namebank)
      && (forall j | 0 <= j < |wavebank| :: written[waveAt + j] == wavebank[j])
      && (forall j | 0 <= j < |namebank| :: written[nameAt + j] == namebank[j])
      && (forall i | 0 <= i < |written| && !(waveAt <= i < waveAt + |wavebank|) && !(nameAt <= i < nameAt + |namebank|) ::
            written[i] == if i < |content| then content[i] else 0)
  {
    AcceptedSpansDisjoint(startIndex, |wavebank|, |namebank|);
    var waveAt := StartOffset + startIndex * WaveSize;
    var nameAt := NameOffset + startIndex * NameSize;
    var afterWaves := Overwrite(content, waveAt, wavebank);
    assert Written(content, wavebank, namebank, startIndex) == Overwrite(afterWaves, nameAt, namebank);
    WaveSpanSurvives(content, waveAt, wavebank, nameAt, namebank);
    OtherBytesSurvive(content, waveAt, wavebank, nameAt, namebank);
  }

  /** A name write that ends before the wave span leaves the wave bytes in place. */
  lemma WaveSpanSurvives(content: seq<bv8>, waveAt: nat, wavebank: seq<bv8>, nameAt: nat, namebank: seq<bv8>)
    requires nameAt + |namebank| <= waveAt
    ensures var written := Overwrite(Overwrite(content, waveAt, wavebank), nameAt, namebank);
      forall j | 0 <= j < |wavebank| :: waveAt + j < |written| && written[waveAt + j] == wavebank[j]
  {
    var afterWaves := Overwrite(content, waveAt, wavebank);
    var written := Overwrite(afterWaves, nameAt, namebank);
    forall j | 0 <= j < |wavebank|
      ensures waveAt + j < |written| && written[waveAt + j] == wavebank[j]
    {
      var i := waveAt + j;
      assert afterWaves[i] == wavebank[j];
      assert |afterWaves| == Max(|content|, waveAt + |wavebank|);
      assert i < |afterWaves| <= |written|;
      assert written[i] == afterWaves[i];
    }
  }

  /** Outside both spans the two writes keep the old byte, or leave a zero past the old end. */
  lemma OtherBytesSurvive(content: seq<bv8>, waveAt: nat, wavebank: seq<bv8>, nameAt: nat, namebank: seq<bv8>)
    ensures var written := Overwrite(Overwrite(content, waveAt, wavebank), nameAt, namebank);
      forall i | 0 <= i < |written| && !(waveAt <= i < waveAt + |wavebank|) && !(nameAt <= i < nameAt + |namebank|) ::
        written[i] == if i < |content| then content[i] else 0
  {
    var afterWaves := Overwrite(content, waveAt, wavebank);
    var written := Overwrite(afterWaves, nameAt, namebank);
    forall i | 0 <= i < |written| && !(waveAt <= i < waveAt + |wavebank|) && !(nameAt <= i < nameAt + |namebank|)
      ensures written[i] == if i < |content| then content[i] else 0
    {
      if i < |afterWaves| {
        assert written[i] == afterWaves[i];
        assert afterWaves[i] == if i < |content| then content[i] else 0;
      } else {
        assert written[i] == 0;
        assert |content| <= |afterWaves|;
      }
    }
  }

  /**
   * Replacing the last two bytes by the checksum keeps every byte before
   * them, puts the CRC of those bytes last, low octet first, and the result
   * passes the receiver's check of RFC 1662: the FCS register over the whole
   * file ends at 0xF0B8.
   */
  lemma ChecksumLayout(content: seq<bv8>)
    requires |content| >= 2
    ensures WithChecksum(content)[..|content| - 2] == content[..|content| - 2]
    ensures WithChecksum(content)[|content| - 2..] == LittleEndian(Crc(content[..|content| - 2]))
    ensures Fcs(InitialFcs, WithChecksum(content)) == GoodFcs
  {
    CheckSequenceVerifies(content[..|content| - 2]);
  }

  /**
   * When a non-empty wave write reaches the old end of the file, the
   * truncation removes the last two bytes of the new wave data, not the old
   * checksum: the file ends with the wave span, whose last two bytes are
   * then overwritten by the CRC.
   */
  lemma WaveTailReplaced(content: seq<bv8>, wavebank: seq<bv8>, namebank: seq<bv8>, startIndex: int)
    requires Validate(startIndex, |wavebank|, |namebank|).None?
    requires wavebank != []
    requires StartOffset + startIndex * WaveSize + |wavebank| >= |content|
    ensures var patched := WithChecksum(Written(content, wavebank, namebank, startIndex));
      && |patched| == StartOffset + startIndex * WaveSize + |wavebank|
      && patched[|patched| - 2..] == LittleEndian(Crc(patched[..|patched| - 2]))
  {
    AcceptedSpansDisjoint(startIndex, |wavebank|, |namebank|);
    var written := Written(content, wavebank, namebank, startIndex);
    assert |written| == StartOffset + startIndex * WaveSize + |wavebank|;
    ChecksumLayout(written);
  }
}

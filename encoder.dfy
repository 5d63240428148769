/**
 * The integer part of `process_files_in_directory` in
 * serum_to_shapeshifter.py: the packed name record, the bit-reversed
 * little-endian sample bytes, and the per-file loop that appends one wave
 * record to `output.shapewt` and one name record to `names_output.bin`.
 *
 * Resampling a 2048-sample cycle to 512 samples, the edge ramp and the
 * scaling to int16 are floating point and are not modelled: an `Entry`
 * carries each cycle of its file already in that form.
 */
module SerumConverter {
  import opened Outcomes
  import opened BitReverse
  import opened CycleSelector

  const CycleLength := 2048
  const ResampledLength := 512
  const CyclesPerRecord := 8
  /** Eight cycles of 512 two-byte samples. */
  const RecordSize := 8192
  const MaxFiles := 128
  const NameChars := 6

  function Min(a: int, b: int): int { if a <= b then a else b }

  predicate IsInt16(s: int) { -32768 <= s < 32768 }

  /**
   * One `.wav` file of the directory: its name, the number of samples it
   * holds, and each of its `sampleCount / 2048` whole cycles as 512 int16
   * samples (what `resample_waveform`, `apply_ramp` and the int16 scaling
   * produce for that cycle).
   */
  datatype Entry = Entry(filename: string, sampleCount: nat, cycles: seq<seq<int>>)

  predicate ValidEntry(e: Entry) {
    && |e.cycles| == e.sampleCount / CycleLength
    && forall i | 0 <= i < |e.cycles| :: IsCycle(e.cycles[i])
  }

  /** A resampled cycle: 512 int16 samples. */
  predicate IsCycle(c: seq<int>) {
    |c| == ResampledLength && forall t | 0 <= t < |c| :: IsInt16(c[t])
  }

  datatype EncodeError =
    | TooManyFiles(count: nat)              // the ValueError of line 75
    | SelectionAssertion(filename: string)  // the AssertionError of line 107
    | InvalidFormat(filename: string)       // the ValueError of line 113

  // ---------------------------------------------------------------- names

  /** `process_filename`: two spaces and the first six characters, each bit-reversed. */
  function ProcessFilename(filename: string): (r: seq<Byte>)
    ensures |r| == 2 + Min(NameChars, |filename|)
  {
    var name := "  " + filename[..Min(NameChars, |filename|)];
    seq(|name|, i requires 0 <= i < |name| => ReverseByte(name[i] as int))
  }

  /** A name record is two bit-reversed spaces (0x04 each) and then the bit-reversed characters of the name. */
  lemma ProcessFilenameBytes(filename: string)
    ensures ProcessFilename(filename)[0] == 0x04 && ProcessFilename(filename)[1] == 0x04
    ensures forall k | 0 <= k < Min(NameChars, |filename|) ::
      ProcessFilename(filename)[k + 2] == ReverseByte(filename[k] as int)
  {
    ReverseSpace();
  }

  /** A name record has the full 8 bytes exactly when the file name has at least 6 characters. */
  lemma NameRecordFull(filename: string)
    ensures |ProcessFilename(filename)| == 8 <==> |filename| >= NameChars
  {
  }

  // -------------------------------------------------------------- samples

  /** Lines 134-136: low byte then high byte of a sample, each bit-reversed. */
  function PackSample(s: int): (r: seq<Byte>)
    ensures |r| == 2
  {
    [ReverseByte(s % 256), ReverseByte(s / 256 % 256)]
  }

  /** The bytes lines 133-136 write for a list of samples. */
  function PackSamples(samples: seq<int>): (r: seq<Byte>)
    ensures |r| == 2 * |samples|
  {
    if samples == [] then []
    else PackSamples(samples[..|samples| - 1]) + PackSample(samples[|samples| - 1])
  }

  /** The reading the destination makes of a byte pair: reverse both, recombine, reinterpret as signed. */
  function UnpackSample(lo: Byte, hi: Byte): (s: int)
    ensures IsInt16(s)
  {
    var u := ReverseByte(lo) + 256 * ReverseByte(hi);
    if u >= 32768 then u - 65536 else u
  }

  function DecodeSamples(bytes: seq<Byte>): (samples: seq<int>)
    requires |bytes| % 2 == 0
    ensures |samples| == |bytes| / 2
  {
    seq(|bytes| / 2, i requires 0 <= i < |bytes| / 2 => UnpackSample(bytes[2 * i], bytes[2 * i + 1]))
  }

  lemma DecodeSamplesAt(bytes: seq<Byte>, k: nat)
    requires |bytes| % 2 == 0 && k < |bytes| / 2
    ensures DecodeSamples(bytes)[k] == UnpackSample(bytes[2 * k], bytes[2 * k + 1])
  {
  }

  /**
   * Reversing both bytes of a packed int16 sample and recombining them as
   * lo + 256 * hi gives the sample modulo 65536; read as signed it is the sample.
   */
  lemma PackSampleRoundTrip(s: int)
    requires IsInt16(s)
    ensures ReverseByte(PackSample(s)[0]) + 256 * ReverseByte(PackSample(s)[1]) == s % 65536
    ensures UnpackSample(PackSample(s)[0], PackSample(s)[1]) == s
  {
    var lo, hi := s % 256, s / 256 % 256;
    ReverseByteInvolution(lo);
    ReverseByteInvolution(hi);
    var p := PackSample(s);
    assert ReverseByte(p[0]) == lo && ReverseByte(p[1]) == hi;
    SplitInt16(s);
  }

  /** The low byte and the high byte of an int16 recombine to its value modulo 65536. */
  lemma SplitInt16(s: int)
    requires IsInt16(s)
    ensures s % 256 + 256 * (s / 256 % 256) == s % 65536
    ensures var u := s % 65536; (if u >= 32768 then u - 65536 else u) == s
  {
    var q := s / 256;
    assert s == 256 * q + s % 256;
    if q >= 0 {
      assert q / 256 == 0;
      assert s / 256 % 256 == q;
      assert s % 65536 == s;
    } else {
      assert s / 256 % 256 == q + 256;
      assert s % 65536 == s + 65536;
    }
  }

  /** Each sample k occupies bytes 2k (low) and 2k + 1 (high). */
  lemma {:induction false} PackSamplesLayout(samples: seq<int>)
    ensures |PackSamples(samples)| == 2 * |samples|
    ensures forall k | 0 <= k < |samples| ::
      PackSamples(samples)[2 * k] == ReverseByte(samples[k] % 256) &&
      PackSamples(samples)[2 * k + 1] == ReverseByte(samples[k] / 256 % 256)
  {
    if samples != [] {
      var init := samples[..|samples| - 1];
      PackSamplesLayout(init);
      forall k | 0 <= k < |init|
        ensures samples[k] == init[k]
      {
      }
    }
  }

  /** Decoding the packed bytes of int16 samples gives the samples back. */
  lemma DecodePackSamples(samples: seq<int>)
    requires forall k | 0 <= k < |samples| :: IsInt16(samples[k])
    ensures |PackSamples(samples)| == 2 * |samples|
    ensures DecodeSamples(PackSamples(samples)) == samples
  {
    PackSamplesLayout(samples);
    var bytes := PackSamples(samples);
    var decoded := DecodeSamples(bytes);
    forall k | 0 <= k < |samples|
      ensures decoded[k] == samples[k]
    {
      var pair := PackSample(samples[k]);
      assert bytes[2 * k] == pair[0] && bytes[2 * k + 1] == pair[1];
      DecodeSamplesAt(bytes, k);
      PackSampleRoundTrip(samples[k]);
    }
  }

  /** Lines 133-136: one two-byte write per sample, appended to the wave output. */
  method WriteSamples(out: OutputFiles, samples: seq<int>)
    modifies out`wave
    ensures out.wave == old(out.wave) + PackSamples(samples)
  {
    var i := 0;
    while i < |samples|
      invariant 0 <= i <= |samples|
      invariant out.wave == old(out.wave) + PackSamples(samples[..i])
    {
      var sample := samples[i];
      var loByte := ReverseByte(sample % 256);
      var hiByte := ReverseByte(sample / 256 % 256);
      out.wave := out.wave + [loByte, hiByte];
      assert samples[..i + 1][..i] == samples[..i];
      i := i + 1;
    }
    assert samples[..i] == samples;
  }

  // --------------------------------------------------------------- cycles

  /** The selected cycles one after the other: `converted_samples` of lines 116-130. */
  function Gather(cycles: seq<seq<int>>, indices: seq<int>): seq<int>
    requires forall j | 0 <= j < |indices| :: 0 <= indices[j] < |cycles|
  {
    if indices == [] then []
    else Gather(cycles, indices[..|indices| - 1]) + cycles[indices[|indices| - 1]]
  }

  /** Cycle j of the selection occupies samples 512j .. 512j + 511. */
  lemma {:induction false} GatherLayout(cycles: seq<seq<int>>, indices: seq<int>)
    requires forall j | 0 <= j < |indices| :: 0 <= indices[j] < |cycles|
    requires forall i | 0 <= i < |cycles| :: |cycles[i]| == ResampledLength
    ensures |Gather(cycles, indices)| == ResampledLength * |indices|
    ensures forall j, t | 0 <= j < |indices| && 0 <= t < ResampledLength ::
      Gather(cycles, indices)[ResampledLength * j + t] == cycles[indices[j]][t]
  {
    if indices != [] {
      var init := indices[..|indices| - 1];
      GatherLayout(cycles, init);
      var front := Gather(cycles, init);
      var back := cycles[indices[|indices| - 1]];
      assert Gather(cycles, indices) == front + back;
      forall j, t | 0 <= j < |indices| && 0 <= t < ResampledLength
        ensures Gather(cycles, indices)[ResampledLength * j + t] == cycles[indices[j]][t]
      {
        if j < |init| {
          assert indices[j] == init[j];
          assert ResampledLength * j + t < |front|;
          assert (front + back)[ResampledLength * j + t] == front[ResampledLength * j + t];
        } else {
          assert ResampledLength * j + t == |front| + t;
        }
      }
    }
  }

  /** Gathering int16 cycles gives int16 samples. */
  lemma {:induction false} GatherInt16(cycles: seq<seq<int>>, indices: seq<int>)
    requires forall j | 0 <= j < |indices| :: 0 <= indices[j] < |cycles|
    requires forall i | 0 <= i < |cycles| :: IsCycle(cycles[i])
    ensures forall k | 0 <= k < |Gather(cycles, indices)| :: IsInt16(Gather(cycles, indices)[k])
  {
    if indices != [] {
      GatherInt16(cycles, indices[..|indices| - 1]);
    }
  }

  /** Lines 116-130: extend `converted_samples` with each selected cycle in turn. */
  method GatherCycles(cycles: seq<seq<int>>, indices: seq<int>) returns (converted: seq<int>)
    requires forall j | 0 <= j < |indices| :: 0 <= indices[j] < |cycles|
    ensures converted == Gather(cycles, indices)
  {
    converted := [];
    var j := 0;
    while j < |indices|
      invariant 0 <= j <= |indices|
      invariant converted == Gather(cycles, indices[..j])
    {
      converted := converted + cycles[indices[j]];
      assert indices[..j + 1][..j] == indices[..j];
      j := j + 1;
    }
    assert indices[..j] == indices;
  }

  // ---------------------------------------------------------------- files

  /** What one file contributes: its wave record and name record, or the error it raises. */
  function EncodeEntry(e: Entry): (r: Result<(seq<Byte>, seq<Byte>), EncodeError>)
    requires ValidEntry(e)
    ensures r.Failure? ==> r.error == SelectionAssertion(e.filename) || r.error == InvalidFormat(e.filename)
    ensures r.Success? ==> |r.value.0| == RecordSize && |r.value.1| == 2 + Min(NameChars, |e.filename|)
  {
    var n := e.sampleCount / CycleLength;
    var indices := Selection(n);
    if |indices| != CyclesPerRecord then Failure(SelectionAssertion(e.filename))
    else if e.sampleCount % CycleLength != 0 then Failure(InvalidFormat(e.filename))
    else
      SelectionLength(n);
      SelectionWellFormed(n);
      GatherLayout(e.cycles, indices);
      Success((PackSamples(Gather(e.cycles, indices)), ProcessFilename(e.filename)))
  }

  /**
   * A file fails the length assertion when it has 0 or 8 whole cycles,
   * whatever its sample count; otherwise it fails the format check exactly
   * when its sample count is not a multiple of 2048.
   */
  lemma EncodeEntryErrors(e: Entry)
    requires ValidEntry(e)
    ensures var n := e.sampleCount / CycleLength;
      && ((n == 0 || n == 8) ==> EncodeEntry(e) == Failure(SelectionAssertion(e.filename)))
      && (n != 0 && n != 8 ==>
            (EncodeEntry(e).Failure? <==> e.sampleCount % CycleLength != 0) &&
            (EncodeEntry(e).Failure? ==> EncodeEntry(e) == Failure(InvalidFormat(e.filename))))
  {
    SelectionLength(e.sampleCount / CycleLength);
  }

  /**
   * A file that passes both checks gives an 8192-byte wave record that
   * decodes to its selected cycles in selection order, and its name record.
   */
  lemma EncodeEntryRecord(e: Entry)
    requires ValidEntry(e)
    requires EncodeEntry(e).Success?
    ensures var n := e.sampleCount / CycleLength;
      && |Selection(n)| == CyclesPerRecord
      && (forall j | 0 <= j < CyclesPerRecord :: 0 <= Selection(n)[j] < |e.cycles|)
      && |EncodeEntry(e).value.0| == RecordSize
      && |DecodeSamples(EncodeEntry(e).value.0)| == CyclesPerRecord * ResampledLength
      && (forall j, t | 0 <= j < CyclesPerRecord && 0 <= t < ResampledLength ::
            DecodeSamples(EncodeEntry(e).value.0)[ResampledLength * j + t] == e.cycles[Selection(n)[j]][t])
      && EncodeEntry(e).value.1 == ProcessFilename(e.filename)
  {
    var n := e.sampleCount / CycleLength;
    var indices := Selection(n);
    SelectionLength(n);
    SelectionWellFormed(n);
    var samples := Gather(e.cycles, indices);
    var record := EncodeEntry(e).value;
    assert record == (PackSamples(samples), ProcessFilename(e.filename));
    GatherLayout(e.cycles, indices);
    GatherInt16(e.cycles, indices);
    DecodePackSamples(samples);
  }

  /** The outputs of a run over a list of files, and the error that stopped it, if any. */
  datatype Run = Run(wave: seq<Byte>, names: seq<Byte>, error: Option<EncodeError>)

  /** The files are taken in order; the first failing file stops the run, and what was written before it stays. */
  function EncodeAll(files: seq<Entry>): (r: Run)
    requires forall e | e in files :: ValidEntry(e)
    ensures |r.wave| <= RecordSize * |files| && |r.names| <= 8 * |files|
    ensures r.error.None? ==> |r.wave| == RecordSize * |files|
  {
    if files == [] then Run([], [], None)
    else
      var prev := EncodeAll(files[..|files| - 1]);
      if prev.error.Some? then prev
      else match EncodeEntry(files[|files| - 1])
        case Failure(err) => Run(prev.wave, prev.names, Some(err))
        case Success(record) => Run(prev.wave + record.0, prev.names + record.1, None)
  }

  /** Once a prefix of the files has failed, the rest of the files change nothing. */
  lemma {:induction false} EncodeAllStops(files: seq<Entry>, i: nat)
    requires forall e | e in files :: ValidEntry(e)
    requires i <= |files|
    requires EncodeAll(files[..i]).error.Some?
    ensures EncodeAll(files) == EncodeAll(files[..i])
  {
    if i < |files| {
      var init := files[..|files| - 1];
      assert init[..i] == files[..i];
      EncodeAllStops(init, i);
    } else {
      assert files[..i] == files;
    }
  }

  /**
   * A run in which no file fails writes one 8192-byte record per file, file
   * k's at offset 8192k, and at most 8 name bytes per file (exactly 8 when
   * every file name has at least six characters).
   */
  lemma EncodeAllSucceeds(files: seq<Entry>)
    requires forall e | e in files :: ValidEntry(e)
    requires EncodeAll(files).error.None?
    ensures forall k | 0 <= k < |files| :: EncodeEntry(files[k]).Success?
    ensures |EncodeAll(files).wave| == RecordSize * |files|
    ensures forall k | 0 <= k < |files| ::
      EncodeAll(files).wave[RecordSize * k .. RecordSize * (k + 1)] == EncodeEntry(files[k]).value.0
    ensures |EncodeAll(files).names| <= 8 * |files|
    ensures (forall k | 0 <= k < |files| :: |files[k].filename| >= NameChars) ==>
      |EncodeAll(files).names| == 8 * |files|
  {
    EncodeAllRecords(files);
    EncodeAllNameBytes(files);
  }

  /** The wave output of an error-free run is the files' records, 8192 bytes each, in order. */
  lemma {:induction false} EncodeAllRecords(files: seq<Entry>)
    requires forall e | e in files :: ValidEntry(e)
    requires EncodeAll(files).error.None?
    ensures forall k | 0 <= k < |files| :: EncodeEntry(files[k]).Success?
    ensures |EncodeAll(files).wave| == RecordSize * |files|
    ensures forall k | 0 <= k < |files| ::
      EncodeAll(files).wave[RecordSize * k .. RecordSize * (k + 1)] == EncodeEntry(files[k]).value.0
  {
    if files != [] {
      var init := files[..|files| - 1];
      var last := files[|files| - 1];
      var prev := EncodeAll(init);
      assert prev.error.None? && EncodeEntry(last).Success?;
      var record := EncodeEntry(last).value;
      var run := EncodeAll(files);
      assert run.wave == prev.wave + record.0;
      EncodeAllRecords(init);
      forall k | 0 <= k < |files|
        ensures EncodeEntry(files[k]).Success?
        ensures run.wave[RecordSize * k .. RecordSize * (k + 1)] == EncodeEntry(files[k]).value.0
      {
        if k < |init| {
          assert files[k] == init[k];
        }
        SliceOfConcat(prev.wave, record.0, RecordSize * k, RecordSize * (k + 1));
      }
    }
  }

  /** An error-free run writes at most 8 name bytes per file, exactly 8 when every name has 6 or more characters. */
  lemma {:induction false} EncodeAllNameBytes(files: seq<Entry>)
    requires forall e | e in files :: ValidEntry(e)
    requires EncodeAll(files).error.None?
    ensures |EncodeAll(files).names| <= 8 * |files|
    ensures (forall k | 0 <= k < |files| :: |files[k].filename| >= NameChars) ==>
      |EncodeAll(files).names| == 8 * |files|
  {
    if files != [] {
      var init := files[..|files| - 1];
      var last := files[|files| - 1];
      var prev := EncodeAll(init);
      assert prev.error.None? && EncodeEntry(last).Success?;
      var record := EncodeEntry(last).value;
      assert EncodeAll(files).names == prev.names + record.1;
      EncodeAllNameBytes(init);
      if forall k | 0 <= k < |files| :: |files[k].filename| >= NameChars {
        forall k | 0 <= k < |init|
          ensures |init[k].filename| >= NameChars
        {
          assert init[k] == files[k];
        }
      }
    }
  }

  /** Regrouping a three-part append; a separate lemma keeps the step out of the loop's proof obligation. */
  lemma AppendAssociates<T>(a: seq<T>, b: seq<T>, c: seq<T>)
    ensures (a + b) + c == a + (b + c)
  {
  }

  /** A slice of a concatenation that lies within one of its parts. */
  lemma SliceOfConcat<T>(a: seq<T>, b: seq<T>, lo: nat, hi: nat)
    requires lo <= hi <= |a| + |b|
    ensures hi <= |a| ==> (a + b)[lo..hi] == a[lo..hi]
    ensures lo == |a| && hi == |a| + |b| ==> (a + b)[lo..hi] == b
  {
  }

  /**
   * When file i is the first to fail, the run reports its error, and the
   * records of files 0 .. i-1 (8192 bytes each) are already in the wave output.
   */
  lemma {:induction false} EncodeAllFailsAt(files: seq<Entry>, i: nat)
    requires forall e | e in files :: ValidEntry(e)
    requires i < |files|
    requires forall k | 0 <= k < i :: EncodeEntry(files[k]).Success?
    requires EncodeEntry(files[i]).Failure?
    ensures EncodeAll(files).error == Some(EncodeEntry(files[i]).error)
    ensures EncodeAll(files).wave == EncodeAll(files[..i]).wave
    ensures |EncodeAll(files).wave| == RecordSize * i
  {
    PrefixSucceeds(files[..i]);
    EncodeAllFail(files, i, EncodeEntry(files[i]).error);
  }

  /** A file that succeeds after an error-free prefix appends its two records. */
  lemma EncodeAllAppend(files: seq<Entry>, i: nat, record: (seq<Byte>, seq<Byte>))
    requires forall e | e in files :: ValidEntry(e)
    requires i < |files|
    requires EncodeAll(files[..i]).error.None?
    requires EncodeEntry(files[i]) == Success(record)
    ensures EncodeAll(files[..i + 1]) ==
      Run(EncodeAll(files[..i]).wave + record.0, EncodeAll(files[..i]).names + record.1, None)
  {
    assert files[..i + 1][..i] == files[..i];
  }

  /** A file that fails after an error-free prefix stops the run with its error. */
  lemma EncodeAllFail(files: seq<Entry>, i: nat, err: EncodeError)
    requires forall e | e in files :: ValidEntry(e)
    requires i < |files|
    requires EncodeAll(files[..i]).error.None?
    requires EncodeEntry(files[i]) == Failure(err)
    ensures EncodeAll(files) == Run(EncodeAll(files[..i]).wave, EncodeAll(files[..i]).names, Some(err))
  {
    EncodeAllFailStep(files, i, err);
    EncodeAllStops(files, i + 1);
  }

  /** The prefix that ends with the first failing file carries its error. */
  lemma EncodeAllFailStep(files: seq<Entry>, i: nat, err: EncodeError)
    requires forall e | e in files :: ValidEntry(e)
    requires i < |files|
    requires EncodeAll(files[..i]).error.None?
    requires EncodeEntry(files[i]) == Failure(err)
    ensures EncodeAll(files[..i + 1]) == Run(EncodeAll(files[..i]).wave, EncodeAll(files[..i]).names, Some(err))
  {
    assert files[..i + 1][..i] == files[..i];
  }

  /** A list of files that each succeed runs without error. */
  lemma {:induction false} PrefixSucceeds(files: seq<Entry>)
    requires forall e | e in files :: ValidEntry(e)
    requires forall k | 0 <= k < |files| :: EncodeEntry(files[k]).Success?
    ensures EncodeAll(files).error.None?
  {
    if files != [] {
      var init := files[..|files| - 1];
      forall k | 0 <= k < |init|
        ensures EncodeEntry(init[k]).Success?
      {
        assert init[k] == files[k];
      }
      PrefixSucceeds(init);
    }
  }

  /** The two output files: `output.shapewt` and the append-mode `names_output.bin`. */
  class OutputFiles {
    var wave: seq<Byte>
    var names: seq<Byte>

    constructor (wave0: seq<Byte>, names0: seq<Byte>)
      ensures wave == wave0 && names == names0
    {
      wave, names := wave0, names0;
    }
  }

  /**
   * The body of the loop of lines 79-139 for one file: assert the selection,
   * check the sample count, then write the wave record and append the name
   * record. A failing file writes nothing.
   */
  method ProcessFile(e: Entry, out: OutputFiles) returns (error: Option<EncodeError>)
    requires ValidEntry(e)
    modifies out
    ensures EncodeEntry(e).Failure? ==>
      error == Some(EncodeEntry(e).error) && out.wave == old(out.wave) && out.names == old(out.names)
    ensures EncodeEntry(e).Success? ==>
      && error.None?
      && out.wave == old(out.wave) + EncodeEntry(e).value.0
      && out.names == old(out.names) + EncodeEntry(e).value.1
  {
    var numWaveforms := e.sampleCount / CycleLength;
    var indices := SelectIndices(numWaveforms);
    if |indices| != CyclesPerRecord {
      return Some(SelectionAssertion(e.filename));
    }
    if e.sampleCount % CycleLength != 0 {
      return Some(InvalidFormat(e.filename));
    }
    SelectionLength(numWaveforms);
    SelectionWellFormed(numWaveforms);
    var converted := GatherCycles(e.cycles, indices);
    WriteSamples(out, converted);
    out.names := out.names + ProcessFilename(e.filename);
    error := None;
  }

  /**
   * `process_files_in_directory` over the sorted `.wav` files. More than 128
   * files is refused before any output file is opened; otherwise the wave
   * output is truncated, and file by file the selection is asserted, the
   * sample count is checked, the wave record is written and the name record
   * is appended to whatever the names file already holds.
   */
  method ProcessFilesInDirectory(files: seq<Entry>, out: OutputFiles) returns (error: Option<EncodeError>)
    requires forall e | e in files :: ValidEntry(e)
    modifies out
    ensures |files| > MaxFiles ==>
      error == Some(TooManyFiles(|files|)) && out.wave == old(out.wave) && out.names == old(out.names)
    ensures |files| <= MaxFiles ==>
      && error == EncodeAll(files).error
      && out.wave == EncodeAll(files).wave
      && out.names == old(out.names) + EncodeAll(files).names
  {
    if |files| > MaxFiles {
      return Some(TooManyFiles(|files|));
    }
    out.wave := [];
    error := None;
    var i := 0;
    while i < |files|
      invariant 0 <= i <= |files|
      invariant EncodeAll(files[..i]).error.None? && error.None?
      invariant out.wave == EncodeAll(files[..i]).wave
      invariant out.names == old(out.names) + EncodeAll(files[..i]).names
    {
      assert files[i] in files;
      ghost var result := EncodeEntry(files[i]);
      error := ProcessFile(files[i], out);
      if error.Some? {
        assert result == Failure(error.value);
        EncodeAllFail(files, i, error.value);
        return;
      }
      assert result == Success(result.value);
      EncodeAllAppend(files, i, result.value);
      AppendAssociates(old(out.names), EncodeAll(files[..i]).names, result.value.1);
      i := i + 1;
    }
    assert files[..i] == files;
  }

  /** Sample k of the wave record is sample k mod 512 of selected cycle k / 512. */
  lemma RecordSampleAt(e: Entry, k: nat)
    requires ValidEntry(e) && EncodeEntry(e).Success?
    requires k < CyclesPerRecord * ResampledLength
    ensures var n := e.sampleCount / CycleLength;
      && |Selection(n)| == CyclesPerRecord
      && 0 <= Selection(n)[k / ResampledLength] < |e.cycles|
      && |EncodeEntry(e).value.0| == RecordSize
      && DecodeSamples(EncodeEntry(e).value.0)[k] == e.cycles[Selection(n)[k / ResampledLength]][k % ResampledLength]
  {
    EncodeEntryRecord(e);
    var j, t := k / ResampledLength, k % ResampledLength;
    assert k == ResampledLength * j + t;
  }

  /**
   * A file of 4096 samples (two cycles) succeeds; its record holds cycle 0
   * once and then cycle 1 seven times.
   */
  lemma TwoCycleFile(e: Entry)
    requires ValidEntry(e) && e.sampleCount == 4096
    ensures EncodeEntry(e).Success?
    ensures |EncodeEntry(e).value.0| == RecordSize
    ensures forall k | 0 <= k < ResampledLength :: DecodeSamples(EncodeEntry(e).value.0)[k] == e.cycles[0][k]
    ensures forall k | ResampledLength <= k < CyclesPerRecord * ResampledLength ::
      DecodeSamples(EncodeEntry(e).value.0)[k] == e.cycles[1][k % ResampledLength]
  {
    SelectionSmall(2);
    EncodeEntryErrors(e);
    var selection := Selection(2);
    var decoded := DecodeSamples(EncodeEntry(e).value.0);
    forall k | 0 <= k < ResampledLength
      ensures decoded[k] == e.cycles[0][k]
    {
      RecordSampleAt(e, k);
      assert selection[k / ResampledLength] == 0;
    }
    forall k | ResampledLength <= k < CyclesPerRecord * ResampledLength
      ensures decoded[k] == e.cycles[1][k % ResampledLength]
    {
      RecordSampleAt(e, k);
      assert selection[k / ResampledLength] == 1;
    }
  }
}

/**
 * The in-memory audio sinks: the player that keeps a whole utterance in
 * memory and writes it as one file, the one that converts 16-bit audio to
 * 8 bits and writes one numbered file per utterance, and the one that
 * only counts what it is given. Bytes are kept unsigned (0..255); a Java
 * `byte` b is the unsigned value b & 0xFF.
 */
module AudioPlayers {
  import opened Wrappers
  import opened JavaLang

  /** javax.sound.sampled.AudioFormat, by the fields a player sets. */
  datatype AudioFormat = AudioFormat(sampleRate: real, sampleSizeInBits: int, channels: int, signed: bool, bigEndian: bool)

  /** AudioFileFormat.Type, known by its file extension. */
  datatype FileType = FileType(extension: JString)

  const DOT: JChar := 0x2E  // '.'

  /** Whether `System.arraycopy(src, srcPos, dest, destPos, length)` stays inside both arrays. */
  predicate CopyInBounds(srcLength: int, srcPos: int, destLength: int, destPos: int, length: int) {
    0 <= srcPos && 0 <= destPos && 0 <= length && srcPos + length <= srcLength && destPos + length <= destLength
  }

  /**
   * `System.arraycopy` on arrays known to be non-null and ranges known to
   * fit: as if through a temporary copy, so `src` and `dest` may be one array.
   */
  method ArrayCopy(src: array<Byte>, srcPos: int, dest: array<Byte>, destPos: int, length: int)
    requires CopyInBounds(src.Length, srcPos, dest.Length, destPos, length)
    modifies dest
    ensures dest[..] == old(dest[..])[..destPos] + old(src[..])[srcPos..srcPos + length] + old(dest[..])[destPos + length..]
  {
    ghost var d := dest[..];
    ghost var s := src[..];
    forall k | 0 <= k < length {
      dest[destPos + k] := src[srcPos + k];
    }
    assert dest[..] == d[..destPos] + s[srcPos..srcPos + length] + d[destPos + length..];
  }

  /** The value of a byte read as a signed Java `byte`. */
  function SignedByte(b: Byte): int {
    if b < 0x80 then b else b - 0x100
  }

  /**
   * The 8-bit unsigned samples for 16-bit audio: one per pair of bytes,
   * the signed first byte of the pair moved up by 128.
   */
  function EightBit(samples: seq<Byte>): (r: seq<Byte>)
    ensures |r| == |samples| / 2
    ensures forall j :: 0 <= j < |r| ==> r[j] == SignedByte(samples[2 * j]) + 128
  {
    seq(|samples| / 2, j requires 0 <= j < |samples| / 2 => (samples[2 * j] as int + 128) % 0x100)
  }

  /**
   * `convert16To8Bits`: the 8-bit samples of `samples16Bit` in a new array.
   * An odd length runs the loop one pair past the output and throws.
   */
  method Convert16To8Bits(samples16Bit: array<Byte>) returns (r: Result<array<Byte>, JavaError>)
    ensures r.Ok? <==> samples16Bit.Length % 2 == 0
    ensures r.Ok? ==> fresh(r.value) && r.value[..] == EightBit(samples16Bit[..])
    ensures r.Err? ==> r.error == IndexOutOfBounds
  {
    var samples8Bit := new Byte[samples16Bit.Length / 2];
    var i, j := 0, 0;
    while i < samples16Bit.Length
      invariant 0 <= j <= samples8Bit.Length && i == 2 * j
      invariant forall k :: 0 <= k < j ==> samples8Bit[k] == (samples16Bit[2 * k] as int + 128) % 0x100
    {
      if j >= samples8Bit.Length {
        return Err(IndexOutOfBounds);
      }
      var sample := samples16Bit[i];
      samples8Bit[j] := (sample as int + 128) % 0x100;
      i, j := i + 2, j + 1;
    }
    r := Ok(samples8Bit);
  }

  /** The fixed output format of the 8-bit player: 8 kHz, 8 bits, mono, unsigned, little-endian. */
  const EIGHT_BIT_FORMAT: AudioFormat := AudioFormat(8000.0, 8, 1, false, false)

  /**
   * MultiFile8BitAudioPlayer: each utterance is collected, converted to
   * 8-bit samples, in `outputData` and written to its own numbered file.
   */
  class MultiFile8BitAudioPlayer {
    const baseName: JString
    const outputType: FileType
    var fileCount: int
    var outputData: array?<Byte>
    var curIndex: int

    /** The file counter is an int and the write position lies inside the buffer. */
    ghost predicate Valid()
      reads this
    {
      IsInt32(fileCount) && 0 <= curIndex && (outputData != null ==> curIndex <= outputData.Length)
    }

    constructor (baseName: JString, outputType: FileType)
      ensures Valid()
      ensures this.baseName == baseName && this.outputType == outputType
      ensures fileCount == 0 && outputData == null && curIndex == 0
    {
      this.baseName := baseName;
      this.outputType := outputType;
      fileCount := 0;
      outputData := null;
      curIndex := 0;
    }

    /** `getAudioFormat`: always the fixed format; `setAudioFormat` does nothing. */
    function GetAudioFormat(): AudioFormat {
      EIGHT_BIT_FORMAT
    }

    /** The name `end` writes the utterance to when the counter is `count`. */
    function FileName(count: int): JString {
      baseName + IntToString(count) + [DOT] + outputType.extension
    }

    /** The counter can be read back from the name of its file. */
    lemma FileNameCount(count: int)
      requires IsInt32(count)
      ensures ParseInt(FileName(count)[|baseName|..|FileName(count)| - 1 - |outputType.extension|]) == Some(count)
    {
      var name := FileName(count);
      assert name == baseName + IntToString(count) + ([DOT] + outputType.extension);
      assert name[|baseName|..|name| - 1 - |outputType.extension|] == IntToString(count);
      ParseIntToString(count);
    }

    /** Different counter values name different files. */
    lemma FileNamesDiffer(a: int, b: int)
      requires IsInt32(a) && IsInt32(b) && a != b
      ensures FileName(a) != FileName(b)
    {
      FileNameCount(a);
      FileNameCount(b);
    }

    /**
     * `begin(size)`: a new zeroed buffer for `size / 2` converted bytes,
     * written from the start; a negative length throws.
     */
    method Begin(size: int) returns (r: Result<(), JavaError>)
      requires Valid()
      modifies this
      ensures Valid() && fileCount == old(fileCount)
      ensures JDiv(size, 2) < 0 ==> r == Err(NegativeArraySize) && outputData == old(outputData) && curIndex == old(curIndex)
      ensures JDiv(size, 2) >= 0 ==>
        && r == Ok(()) && outputData != null && fresh(outputData)
        && outputData[..] == seq(JDiv(size, 2), _ => 0) && curIndex == 0
    {
      var n := JDiv(size, 2);
      if n < 0 {
        return Err(NegativeArraySize);
      }
      outputData := new Byte[n](_ => 0);
      curIndex := 0;
      r := Ok(());
    }

    /**
     * `write(bytes, offset, size)`: converts `bytes` to 8 bits and copies
     * `size / 2` of the converted bytes, starting at the unhalved `offset`,
     * to the buffer at the write position, which then moves past them.
     * Nothing else in the buffer changes. An odd-length input, a missing
     * buffer or a range outside either array throws and changes nothing.
     */
    method Write(bytes: array<Byte>, offset: int, size: int) returns (r: Result<bool, JavaError>)
      requires Valid()
      modifies this, outputData
      ensures Valid() && fileCount == old(fileCount) && outputData == old(outputData)
      ensures bytes.Length % 2 != 0 ==> r == Err(IndexOutOfBounds)
      ensures bytes.Length % 2 == 0 && outputData == null ==> r == Err(NullPointer)
      ensures bytes.Length % 2 == 0 && outputData != null ==>
        (r.Ok? <==> CopyInBounds(bytes.Length / 2, offset, outputData.Length, old(curIndex), JDiv(size, 2)))
      ensures r.Err? ==> curIndex == old(curIndex) && (outputData != null ==> outputData[..] == old(outputData[..]))
      ensures r.Err? && bytes.Length % 2 == 0 && outputData != null ==> r.error == IndexOutOfBounds
      ensures r.Ok? ==>
        && outputData != null && r.value
        && curIndex == old(curIndex) + JDiv(size, 2)
        && outputData[..] == old(outputData[..])[..old(curIndex)]
                             + EightBit(old(bytes[..]))[offset..offset + JDiv(size, 2)]
                             + old(outputData[..])[old(curIndex) + JDiv(size, 2)..]
    {
      var converted := Convert16To8Bits(bytes);
      if converted.Err? {
        return Err(converted.error);
      }
      var half := JDiv(size, 2);
      if outputData == null {
        return Err(NullPointer);
      }
      if !CopyInBounds(converted.value.Length, offset, outputData.Length, curIndex, half) {
        return Err(IndexOutOfBounds);
      }
      ArrayCopy(converted.value, offset, outputData, curIndex, half);
      curIndex := curIndex + half;
      r := Ok(true);
    }

    /**
     * `end()`: writes the buffer to the file named by the counter and then
     * counts the file. Without a buffer it throws before naming a file; a
     * file type the audio system refuses throws an IOException and the
     * counter stays. `accepted` says whether the audio system takes the type.
     */
    method End(accepted: bool) returns (r: Result<bool, JavaError>, name: Option<JString>)
      requires Valid()
      modifies this
      ensures Valid() && outputData == old(outputData) && curIndex == old(curIndex)
      ensures outputData == null ==> r == Err(NullPointer) && name == None && fileCount == old(fileCount)
      ensures outputData != null ==> name == Some(FileName(old(fileCount)))
      ensures outputData != null && !accepted ==> r == Err(IOCause(IllegalArgument)) && fileCount == old(fileCount)
      ensures outputData != null && accepted ==> r == Ok(true) && fileCount == WrapInt32(old(fileCount) + 1)
    {
      if outputData == null {
        return Err(NullPointer), None;
      }
      name := Some(baseName + IntToString(fileCount) + [DOT] + outputType.extension);
      if !accepted {
        return Err(IOCause(IllegalArgument)), name;
      }
      fileCount := WrapInt32(fileCount + 1);
      r := Ok(true);
    }
  }

  /** The sum of the lengths of the buffers in `list`. */
  function TotalLength(list: seq<array<Byte>>): nat {
    if list == [] then 0 else TotalLength(list[..|list| - 1]) + list[|list| - 1].Length
  }

  /**
   * SingleFileAudioPlayer: every utterance is collected in `outputData` and
   * appended to `outputList`; `close` writes them all as one file.
   */
  class SingleFileAudioPlayer {
    var currentFormat: Option<AudioFormat>
    const baseName: JString
    var outputData: array?<Byte>
    var curIndex: int
    var totBytes: int
    const outputType: FileType
    var outputList: seq<array<Byte>>

    /** `totBytes` counts (as an int) the bytes of the buffers kept so far; the write position lies inside the buffer. */
    ghost predicate Valid()
      reads this
    {
      totBytes == WrapInt32(TotalLength(outputList)) && 0 <= curIndex && (outputData != null ==> curIndex <= outputData.Length)
    }

    /** The output file is named by the base name and the type's extension. */
    constructor (baseName: JString, outputType: FileType)
      ensures Valid()
      ensures this.baseName == baseName + [DOT] + outputType.extension && this.outputType == outputType
      ensures currentFormat == None && outputData == null && curIndex == 0 && totBytes == 0 && outputList == []
    {
      this.baseName := baseName + [DOT] + outputType.extension;
      this.outputType := outputType;
      currentFormat := None;
      outputData := null;
      curIndex := 0;
      totBytes := 0;
      outputList := [];
    }

    /** `setAudioFormat`: the format is stored and `getAudioFormat` returns it. */
    method SetAudioFormat(format: AudioFormat)
      modifies this
      ensures currentFormat == Some(format)
      ensures outputData == old(outputData) && curIndex == old(curIndex) && totBytes == old(totBytes) && outputList == old(outputList)
    {
      currentFormat := Some(format);
    }

    function GetAudioFormat(): Option<AudioFormat>
      reads this
    {
      currentFormat
    }

    /** `begin(size)`: a new zeroed buffer of exactly `size` bytes, written from the start. */
    method Begin(size: int) returns (r: Result<(), JavaError>)
      requires Valid()
      modifies this
      ensures Valid() && totBytes == old(totBytes) && outputList == old(outputList) && currentFormat == old(currentFormat)
      ensures size < 0 ==> r == Err(NegativeArraySize) && outputData == old(outputData) && curIndex == old(curIndex)
      ensures size >= 0 ==>
        r == Ok(()) && outputData != null && fresh(outputData) && outputData[..] == seq(size, _ => 0) && curIndex == 0
    {
      if size < 0 {
        return Err(NegativeArraySize);
      }
      outputData := new Byte[size](_ => 0);
      curIndex := 0;
      r := Ok(());
    }

    /**
     * `end()`: keeps the current buffer and counts its full length, however
     * much of it was written. Without a buffer it throws.
     */
    method End() returns (r: Result<bool, JavaError>)
      requires Valid()
      modifies this
      ensures Valid() && outputData == old(outputData) && curIndex == old(curIndex) && currentFormat == old(currentFormat)
      ensures outputData == null ==> r == Err(NullPointer) && outputList == old(outputList) && totBytes == old(totBytes)
      ensures outputData != null ==>
        && r == Ok(true) && outputList == old(outputList) + [outputData]
        && totBytes == WrapInt32(old(totBytes) + outputData.Length)
    {
      if outputData == null {
        return Err(NullPointer);
      }
      WrapInt32Add(TotalLength(outputList), outputData.Length);
      assert (outputList + [outputData])[..|outputList|] == outputList;
      outputList := outputList + [outputData];
      totBytes := WrapInt32(totBytes + outputData.Length);
      r := Ok(true);
    }

    /**
     * `write(bytes, offset, size)`: copies `bytes[offset..offset + size]` to
     * the buffer at the write position, which then moves past them; nothing
     * else in the buffer changes. A missing buffer or a range outside
     * either array throws and changes nothing.
     */
    method Write(bytes: array<Byte>, offset: int, size: int) returns (r: Result<bool, JavaError>)
      requires Valid()
      modifies this, outputData
      ensures Valid() && outputData == old(outputData) && totBytes == old(totBytes)
      ensures outputList == old(outputList) && currentFormat == old(currentFormat)
      ensures outputData == null ==> r == Err(NullPointer)
      ensures outputData != null ==> (r.Ok? <==> CopyInBounds(bytes.Length, offset, outputData.Length, old(curIndex), size))
      ensures r.Err? ==> curIndex == old(curIndex) && (outputData != null ==> outputData[..] == old(outputData[..]))
      ensures r.Err? && outputData != null ==> r.error == IndexOutOfBounds
      ensures r.Ok? ==>
        && outputData != null && r.value && curIndex == old(curIndex) + size
        && outputData[..] == old(outputData[..])[..old(curIndex)]
                             + old(bytes[..])[offset..offset + size]
                             + old(outputData[..])[old(curIndex) + size..]
    {
      if outputData == null {
        return Err(NullPointer);
      }
      if !CopyInBounds(bytes.Length, offset, outputData.Length, curIndex, size) {
        return Err(IndexOutOfBounds);
      }
      ArrayCopy(bytes, offset, outputData, curIndex, size);
      curIndex := curIndex + size;
      r := Ok(true);
    }

    /** `write(audioData)`: the whole array, as `write(audioData, 0, audioData.length)`. */
    method WriteAll(audioData: array<Byte>) returns (r: Result<bool, JavaError>)
      requires Valid()
      modifies this, outputData
      ensures Valid() && outputData == old(outputData) && totBytes == old(totBytes)
      ensures outputList == old(outputList) && currentFormat == old(currentFormat)
      ensures outputData == null ==> r == Err(NullPointer)
      ensures outputData != null ==> (r.Ok? <==> old(curIndex) + audioData.Length <= outputData.Length)
      ensures r.Err? ==> curIndex == old(curIndex) && (outputData != null ==> outputData[..] == old(outputData[..]))
      ensures r.Ok? ==>
        && outputData != null && curIndex == old(curIndex) + audioData.Length
        && outputData[..] == old(outputData[..])[..old(curIndex)] + old(audioData[..])
                             + old(outputData[..])[old(curIndex) + audioData.Length..]
    {
      r := Write(audioData, 0, audioData.Length);
      assert old(audioData[..])[0..audioData.Length] == old(audioData[..]);
    }
  }

  /** The sum of `xs`. */
  function Sum(xs: seq<int>): int {
    if xs == [] then 0 else Sum(xs[..|xs| - 1]) + xs[|xs| - 1]
  }

  /**
   * NullAudioPlayer: discards the audio and counts the bytes and the
   * writes. `sizes` records the size of every write so far.
   */
  class NullAudioPlayer {
    var volume: real
    var audioFormat: Option<AudioFormat>
    var firstSound: bool
    var totalBytes: int
    var totalWrites: int
    ghost var sizes: seq<int>

    /** The counters hold, as ints, the total size and the number of the writes so far. */
    ghost predicate Valid()
      reads this
    {
      totalBytes == WrapInt32(Sum(sizes)) && totalWrites == WrapInt32(|sizes|)
    }

    constructor ()
      ensures Valid() && sizes == []
      ensures volume == 1.0 && audioFormat == None && firstSound && totalBytes == 0 && totalWrites == 0
    {
      volume := 1.0;
      audioFormat := None;
      firstSound := true;
      totalBytes := 0;
      totalWrites := 0;
      sizes := [];
    }

    /**
     * `write(bytes, offset, size)`: counts `size` bytes and one write, ends
     * the first-sound wait and accepts; the bytes are not looked at.
     */
    method Write(bytes: array<Byte>, offset: int, size: int) returns (r: bool)
      requires Valid()
      modifies this
      ensures Valid() && sizes == old(sizes) + [size]
      ensures totalBytes == WrapInt32(old(totalBytes) + size) && totalWrites == WrapInt32(old(totalWrites) + 1)
      ensures !firstSound && r
      ensures volume == old(volume) && audioFormat == old(audioFormat)
    {
      WrapInt32Add(Sum(sizes), size);
      WrapInt32Add(|sizes|, 1);
      assert (sizes + [size])[..|sizes|] == sizes;
      totalBytes := WrapInt32(totalBytes + size);
      totalWrites := WrapInt32(totalWrites + 1);
      sizes := sizes + [size];
      if firstSound {
        firstSound := false;
      }
      r := true;
    }

    /** `write(audioData)`: as `write(audioData, 0, audioData.length)`. */
    method WriteAll(audioData: array<Byte>) returns (r: bool)
      requires Valid()
      modifies this
      ensures Valid() && sizes == old(sizes) + [audioData.Length]
      ensures totalBytes == WrapInt32(old(totalBytes) + audioData.Length) && totalWrites == WrapInt32(old(totalWrites) + 1)
      ensures !firstSound && r
      ensures volume == old(volume) && audioFormat == old(audioFormat)
    {
      r := Write(audioData, 0, audioData.Length);
    }

    /** `startFirstSampleTimer`: the next write is the first sound again. */
    method StartFirstSampleTimer()
      modifies this
      ensures firstSound
      ensures volume == old(volume) && audioFormat == old(audioFormat)
      ensures totalBytes == old(totalBytes) && totalWrites == old(totalWrites) && sizes == old(sizes)
    {
      firstSound := true;
    }

    /** `setVolume`: the value is kept as given, without clamping. */
    method SetVolume(volume: real)
      modifies this
      ensures this.volume == volume
      ensures audioFormat == old(audioFormat) && firstSound == old(firstSound)
      ensures totalBytes == old(totalBytes) && totalWrites == old(totalWrites) && sizes == old(sizes)
    {
      this.volume := volume;
    }

    function GetVolume(): real
      reads this
    {
      volume
    }

    /** `setAudioFormat`: the format is kept and `getAudioFormat` returns it. */
    method SetAudioFormat(format: AudioFormat)
      modifies this
      ensures audioFormat == Some(format)
      ensures volume == old(volume) && firstSound == old(firstSound)
      ensures totalBytes == old(totalBytes) && totalWrites == old(totalWrites) && sizes == old(sizes)
    {
      audioFormat := Some(format);
    }

    function GetAudioFormat(): Option<AudioFormat>
      reads this
    {
      audioFormat
    }
  }

  /**
   * After any run of writes from a fresh player the counters are the
   * total size and the number of writes, as ints.
   */
  lemma {:induction false} CountersAfterWrites(sizes: seq<int>)
    ensures WriteTotals(sizes) == (WrapInt32(Sum(sizes)), WrapInt32(|sizes|))
  {
    if sizes != [] {
      var init := sizes[..|sizes| - 1];
      CountersAfterWrites(init);
      WrapInt32Add(Sum(init), sizes[|sizes| - 1]);
      WrapInt32Add(|init|, 1);
    }
  }

  /** The counters as the player updates them, write by write, from zero. */
  function WriteTotals(sizes: seq<int>): (int, int) {
    if sizes == [] then (0, 0)
    else
      var t := WriteTotals(sizes[..|sizes| - 1]);
      (WrapInt32(t.0 + sizes[|sizes| - 1]), WrapInt32(t.1 + 1))
  }
}

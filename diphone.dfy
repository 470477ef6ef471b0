/**
 * A diphone of a diphone voice database: a named run of samples split at
 * a mid point into the part before and the part after the phone boundary,
 * the residual counts of both parts, the search for the sample nearest to
 * a residual offset, and the binary record a diphone database stores per
 * diphone (a plain diphone or an alias naming another one).
 */
module Diphones {
  import opened Wrappers
  import opened JavaLang
  import opened Streams

  const MAGIC: int := 0xFACE0FF
  const ALIAS_MAGIC: int := 0xBABAF00
  /** The chars of a name field. */
  const NAME_LENGTH: nat := 8
  /** The bytes of a name field: one `writeChar` per char. */
  const NAME_BYTES: nat := 16
  const BAD_MAGIC: JString := Lit("Bad magic number in diphone")
  const EIGHT_SPACES: JString := [SPACE, SPACE, SPACE, SPACE, SPACE, SPACE, SPACE, SPACE]

  /**
   * What a diphone uses of its samples (`Sample` is not part of this
   * model): the residual count, `Sample.loadBinary`, `dumpBinary` and
   * `compare`.
   */
  datatype SampleOps<!S> = SampleOps(
    residualSize: S -> Int32,
    read: Decoder<S>,
    write: S -> seq<Byte>,
    compare: (S, S) -> bool)

  /** A diphone as the public constructor leaves it. */
  datatype Diphone<S> = Diphone(
    name: JString,
    midPoint: Int32,
    samples: seq<S>,
    unitSizePart1: Int32,
    unitSizePart2: Int32)

  /** What `loadBinary` returns: a diphone, or an alias of one. */
  datatype Loaded<S> =
    | Plain(diphone: Diphone<S>)
    | Alias(name: JString, origName: JString)

  // ---------------------------------------------------------------------
  // Java int sums

  lemma Congruent(x: int, y: int)
    requires (x - y) % TWO_32 == 0
    ensures WrapInt32(x) == WrapInt32(y)
  {
    var k := (x - y) / TWO_32;
    assert x == y + k * TWO_32;
    ShiftMod(y, k);
  }

  lemma {:induction false} ShiftMod(y: int, k: int)
    ensures (y + k * TWO_32) % TWO_32 == y % TWO_32
    decreases if k < 0 then -k else k
  {
    if k > 0 {
      ShiftMod(y, k - 1);
      assert y + k * TWO_32 == (y + (k - 1) * TWO_32) + TWO_32;
    } else if k < 0 {
      ShiftMod(y, k + 1);
      assert y + k * TWO_32 == (y + (k + 1) * TWO_32) - TWO_32;
    }
  }

  /** Adding to a wrapped int and wrapping again is wrapping the exact sum. */
  lemma WrapAdd(a: int, b: int)
    ensures WrapInt32(WrapInt32(a) + b) == WrapInt32(a + b)
  {
    Congruent(WrapInt32(a) + b, a + b);
  }

  /** Wrapping both operands of a sum first changes nothing once the sum is wrapped. */
  lemma WrapSum(a: int, b: int)
    ensures WrapInt32(WrapInt32(a) + WrapInt32(b)) == WrapInt32(a + b)
  {
    WrapAdd(b, WrapInt32(a));
    WrapAdd(a, b);
  }

  /** The residual counts of `ss`, added up exactly. */
  function ResidualSum<S>(size: S -> Int32, ss: seq<S>): int {
    if |ss| == 0 then 0 else ResidualSum(size, ss[..|ss| - 1]) + size(ss[|ss| - 1])
  }

  lemma {:induction false} ResidualSumAppend<S>(size: S -> Int32, a: seq<S>, b: seq<S>)
    ensures ResidualSum(size, a + b) == ResidualSum(size, a) + ResidualSum(size, b)
    decreases |b|
  {
    if |b| == 0 {
      assert a + b == a;
    } else {
      ResidualSumAppend(size, a, b[..|b| - 1]);
      assert (a + b)[..|a + b| - 1] == a + b[..|b| - 1];
    }
  }

  lemma ResidualSumSnoc<S>(size: S -> Int32, ss: seq<S>, i: nat, j: nat)
    requires i <= j < |ss|
    ensures ResidualSum(size, ss[i..j + 1]) == ResidualSum(size, ss[i..j]) + size(ss[j])
  {
    assert ss[i..j + 1][..j - i] == ss[i..j];
  }

  /** One more sample in a running residual count. */
  lemma ResidualSumNext<S>(size: S -> Int32, ss: seq<S>, i: nat, j: nat)
    requires i <= j < |ss|
    ensures WrapInt32(ResidualSum(size, ss[i..j + 1]))
         == WrapInt32(WrapInt32(ResidualSum(size, ss[i..j])) + size(ss[j]))
  {
    ResidualSumSnoc(size, ss, i, j);
    WrapAdd(ResidualSum(size, ss[i..j]), size(ss[j]));
  }

  // ---------------------------------------------------------------------
  // Construction

  /** Every sample up to the mid point exists. */
  predicate WellFormed<S>(d: Diphone<S>) {
    0 <= d.midPoint <= |d.samples|
  }

  /**
   * `new Diphone(name, samples, midPoint)`: the residual counts of the two
   * parts in `int` arithmetic; a mid point outside `0..samples.length`
   * indexes past the array on the way.
   */
  function Build<S>(name: JString, samples: seq<S>, midPoint: Int32, size: S -> Int32): (r: Result<Diphone<S>, JavaError>)
    ensures r.Ok? <==> 0 <= midPoint <= |samples|
    ensures r.Err? ==> r.error == IndexOutOfBounds
    ensures r.Ok? ==>
      && WellFormed(r.value)
      && r.value.name == name && r.value.midPoint == midPoint && r.value.samples == samples
  {
    if 0 <= midPoint <= |samples| then
      Ok(Diphone(name, midPoint, samples,
        WrapInt32(ResidualSum(size, samples[..midPoint])),
        WrapInt32(ResidualSum(size, samples[midPoint..]))))
    else
      Err(IndexOutOfBounds)
  }

  method NewDiphone<S>(name: JString, samples: seq<S>, midPoint: Int32, size: S -> Int32) returns (r: Result<Diphone<S>, JavaError>)
    ensures r == Build(name, samples, midPoint, size)
  {
    var part1 := SumRange(samples, 0, midPoint, size);
    if part1.Err? {
      return Err(part1.error);
    }
    var part2 := SumRange(samples, midPoint, |samples|, size);
    if part2.Err? {
      return Err(part2.error);
    }
    assert samples[..midPoint] == samples[0..midPoint];
    assert samples[midPoint..] == samples[midPoint..|samples|];
    assert midPoint == |samples| ==> samples[midPoint..] == [];
    r := Ok(Diphone(name, midPoint, samples, part1.value, part2.value));
  }

  /**
   * The residual sizes of the samples from index `from` up to `to`, added
   * in `int` arithmetic; an index past either end of the array on the way
   * is an exception.
   */
  method SumRange<S>(samples: seq<S>, from: int, to: int, size: S -> Int32) returns (r: Result<Int32, JavaError>)
    ensures from < to && (from < 0 || to > |samples|) ==> r == Err(IndexOutOfBounds)
    ensures to <= from ==> r == Ok(0)
    ensures 0 <= from < to <= |samples| ==> r == Ok(WrapInt32(ResidualSum(size, samples[from..to])))
  {
    var sum := 0;
    var i := from;
    while i < to
      invariant from <= i && (i == from || i <= to)
      invariant from < i ==> 0 <= from && i <= |samples|
      invariant from < i ==> sum == WrapInt32(ResidualSum(size, samples[from..i]))
      invariant from == i ==> sum == 0
    {
      if i < 0 || i >= |samples| {
        return Err(IndexOutOfBounds);
      }
      ResidualSumNext(size, samples, from, i);
      sum := WrapInt32(sum + size(samples[i]));
      i := i + 1;
    }
    r := Ok(sum);
  }

  /** `getUnitSize(unitPart)`: part 1, or part 2 for any other number. */
  function UnitSize<S>(d: Diphone<S>, unitPart: int): Int32 {
    if unitPart == 1 then d.unitSizePart1 else d.unitSizePart2
  }

  lemma SplitSum<S>(size: S -> Int32, a: seq<S>, b: seq<S>)
    ensures WrapInt32(WrapInt32(ResidualSum(size, a)) + WrapInt32(ResidualSum(size, b)))
         == WrapInt32(ResidualSum(size, a + b))
  {
    var x, y := ResidualSum(size, a), ResidualSum(size, b);
    ResidualSumAppend(size, a, b);
    WrapSum(x, y);
  }

  /**
   * The two unit sizes of a constructed diphone add up, in `int`
   * arithmetic, to the residual count of all its samples.
   */
  lemma UnitSizesAddUp<S>(d: Diphone<S>, size: S -> Int32)
    requires Build(d.name, d.samples, d.midPoint, size) == Ok(d)
    ensures WrapInt32(UnitSize(d, 1) + UnitSize(d, 2)) == WrapInt32(ResidualSum(size, d.samples))
  {
    var a, b := d.samples[..d.midPoint], d.samples[d.midPoint..];
    assert d.unitSizePart1 == WrapInt32(ResidualSum(size, a));
    assert d.unitSizePart2 == WrapInt32(ResidualSum(size, b));
    assert d.samples == a + b;
    SplitSum(size, a, b);
  }

  // ---------------------------------------------------------------------
  // nearestSample

  function RAbs(x: real): real { if x < 0.0 then -x else x }

  /** The residual offset `a` lies strictly nearer to `u` than `b` does. */
  predicate Closer(u: real, a: int, b: int) {
    RAbs(u - a as real) < RAbs(u - b as real)
  }

  /**
   * The running residual count of the search loop, in `int` arithmetic,
   * from sample `start` up to sample `j`.
   */
  function Offset<S>(size: S -> Int32, ss: seq<S>, start: nat, j: nat): int
    requires start <= j <= |ss|
    decreases j
  {
    if j == start then 0 else WrapInt32(Offset(size, ss, start, j - 1) + size(ss[j - 1]))
  }

  /** The running count is the residual count of the samples passed, wrapped. */
  lemma {:induction false} OffsetIsSum<S>(size: S -> Int32, ss: seq<S>, start: nat, j: nat)
    requires start <= j <= |ss|
    ensures Offset(size, ss, start, j) == WrapInt32(ResidualSum(size, ss[start..j]))
    decreases j
  {
    if j > start {
      var a, b := ResidualSum(size, ss[start..j - 1]), size(ss[j - 1]);
      OffsetIsSum(size, ss, start, j - 1);
      assert Offset(size, ss, start, j) == WrapInt32(WrapInt32(a) + b);
      WrapAdd(a, b);
      ResidualSumSnoc(size, ss, start, j - 1);
      assert ResidualSum(size, ss[start..j]) == a + b;
    }
  }

  /** Sample `j` is the one whose span of residuals starts nearer to `u` than it ends. */
  predicate Stops<S>(size: S -> Int32, ss: seq<S>, u: real, start: nat, j: nat)
    requires start <= j < |ss|
  {
    Closer(u, Offset(size, ss, start, j), Offset(size, ss, start, j + 1))
  }

  /** The search loop of `nearestSample` from sample `i` on: the first sample that stops it. */
  function FirstStop<S>(size: S -> Int32, ss: seq<S>, u: real, start: nat, i: nat, end: nat): (r: Option<nat>)
    requires start <= i && end <= |ss|
    ensures r.Some? ==> i <= r.value < end
    decreases end - i
  {
    if i >= end then None
    else if Stops(size, ss, u, start, i) then Some(i)
    else FirstStop(size, ss, u, start, i + 1, end)
  }

  /** One iteration of the search loop. */
  lemma SearchStep<S>(size: S -> Int32, ss: seq<S>, u: real, start: nat, i: nat, end: nat, iSize: int)
    requires start <= i < end <= |ss| && iSize == Offset(size, ss, start, i)
    ensures var nSize := WrapInt32(iSize + size(ss[i]));
      && nSize == Offset(size, ss, start, i + 1)
      && FirstStop(size, ss, u, start, i, end)
         == if Closer(u, iSize, nSize) then Some(i) else FirstStop(size, ss, u, start, i + 1, end)
  {
  }

  function PartStart<S>(d: Diphone<S>, unitPart: int): nat
    requires WellFormed(d)
  {
    if unitPart == 1 then 0 else d.midPoint
  }

  function PartEnd<S>(d: Diphone<S>, unitPart: int): nat
    requires WellFormed(d)
  {
    if unitPart == 1 then d.midPoint else |d.samples|
  }

  /**
   * The index of the sample `nearestSample(uIndex, unitPart)` returns: the
   * first sample of the part that stops the search, else the sample just
   * before the part's end.
   */
  function NearestIndex<S>(d: Diphone<S>, size: S -> Int32, u: real, unitPart: int): (r: Result<nat, JavaError>)
    requires WellFormed(d)
    ensures r.Ok? ==> r.value < |d.samples|
  {
    var start, end := PartStart(d, unitPart), PartEnd(d, unitPart);
    match FirstStop(size, d.samples, u, start, start, end)
    case Some(i) => Ok(i)
    case None => if end == 0 then Err(IndexOutOfBounds) else Ok(end - 1)
  }

  method NearestSample<S>(d: Diphone<S>, size: S -> Int32, uIndex: real, unitPart: int) returns (r: Result<S, JavaError>)
    requires WellFormed(d)
    ensures match NearestIndex(d, size, uIndex, unitPart)
      case Ok(i) => r == Ok(d.samples[i])
      case Err(e) => r == Err(e)
  {
    var start, end := PartStart(d, unitPart), PartEnd(d, unitPart);
    var iSize := 0;
    var i := start;
    while i < end
      invariant start <= i <= end
      invariant iSize == Offset(size, d.samples, start, i)
      invariant FirstStop(size, d.samples, uIndex, start, start, end)
             == FirstStop(size, d.samples, uIndex, start, i, end)
    {
      SearchStep(size, d.samples, uIndex, start, i, end, iSize);
      var nSize := WrapInt32(iSize + size(d.samples[i]));
      if Closer(uIndex, iSize, nSize) {
        return Ok(d.samples[i]);
      }
      iSize := nSize;
      i := i + 1;
    }
    if end == 0 {
      return Err(IndexOutOfBounds);
    }
    r := Ok(d.samples[end - 1]);
  }

  /** The search loop stops at the first sample from `i` on that stops it. */
  lemma {:induction false} FirstStopIsFirst<S>(size: S -> Int32, ss: seq<S>, u: real, start: nat, i: nat, end: nat)
    requires start <= i <= end <= |ss|
    ensures var r := FirstStop(size, ss, u, start, i, end);
      && (r.Some? ==>
            && Stops(size, ss, u, start, r.value)
            && forall j :: i <= j < r.value ==> !Stops(size, ss, u, start, j))
      && (r.None? ==> forall j :: i <= j < end ==> !Stops(size, ss, u, start, j))
    decreases end - i
  {
    if i < end {
      FirstStopIsFirst(size, ss, u, start, i + 1, end);
    }
  }

  /**
   * `nearestSample` returns the first sample of the part whose residual
   * span starts nearer to `u` than it ends; when there is none, the sample
   * just before the part's end; when the part ends at index 0, an
   * ArrayIndexOutOfBoundsException.
   */
  lemma NearestIsFirstStop<S>(d: Diphone<S>, size: S -> Int32, u: real, unitPart: int)
    requires WellFormed(d)
    ensures var start, end := PartStart(d, unitPart), PartEnd(d, unitPart);
      match NearestIndex(d, size, u, unitPart)
      case Ok(i) =>
        || (start <= i < end && Stops(size, d.samples, u, start, i)
            && forall j :: start <= j < i ==> !Stops(size, d.samples, u, start, j))
        || (i == end - 1 && forall j :: start <= j < end ==> !Stops(size, d.samples, u, start, j))
      case Err(e) => e == IndexOutOfBounds && end == 0
  {
    var start := PartStart(d, unitPart);
    FirstStopIsFirst(size, d.samples, u, start, start, PartEnd(d, unitPart));
  }

  /**
   * Asking for part 2 of a diphone whose mid point is its last index + 1
   * returns the last sample of part 1.
   */
  lemma NearestOfEmptySecondPart<S>(d: Diphone<S>, size: S -> Int32, u: real)
    requires WellFormed(d) && 0 < d.midPoint == |d.samples|
    ensures NearestIndex(d, size, u, 2) == Ok(|d.samples| - 1)
    ensures |d.samples| - 1 < d.midPoint
  {
  }

  /** A diphone compared with another one with `compare`. */
  predicate SameDiphone<S>(a: Diphone<S>, b: Diphone<S>, compare: (S, S) -> bool) {
    && a.name == b.name
    && a.midPoint == b.midPoint
    && |a.samples| == |b.samples|
    && forall i :: 0 <= i < |a.samples| ==> compare(a.samples[i], b.samples[i])
  }

  /** `d.compare(other)`: names, mid points, sample counts and each pair of samples. */
  method Compare<S>(d: Diphone<S>, other: Diphone<S>, compare: (S, S) -> bool) returns (r: bool)
    ensures r == SameDiphone(d, other, compare)
  {
    if d.name != other.name || d.midPoint != other.midPoint || |d.samples| != |other.samples| {
      return false;
    }
    var i := 0;
    while i < |d.samples|
      invariant 0 <= i <= |d.samples|
      invariant forall k :: 0 <= k < i ==> compare(d.samples[k], other.samples[k])
    {
      if !compare(d.samples[i], other.samples[i]) {
        return false;
      }
      i := i + 1;
    }
    r := true;
  }

  /** With a reflexive sample comparison, every diphone compares equal to itself. */
  lemma SameDiphoneReflexive<S>(d: Diphone<S>, compare: (S, S) -> bool)
    requires forall s :: compare(s, s)
    ensures SameDiphone(d, d, compare)
  {
  }

  // ---------------------------------------------------------------------
  // The binary record

  /** The name field: the name padded with eight spaces and cut to eight chars. */
  function NameField(name: JString): (r: JString)
    ensures |r| == NAME_LENGTH
  {
    (name + EIGHT_SPACES)[..NAME_LENGTH]
  }

  /** What `dumpBinary` writes for a diphone. */
  function DiphoneBytes<S>(d: Diphone<S>, write: S -> seq<Byte>): seq<Byte> {
    HeadBytes(d) + EncodeMany(write, d.samples)
  }

  /** The magic number, the name field, the mid point and the sample count. */
  function HeadBytes<S>(d: Diphone<S>): (r: seq<Byte>)
    ensures |r| == 12 + NAME_BYTES
  {
    IntBytes(MAGIC) + CharsBytes(NameField(d.name)) + IntBytes(d.midPoint) + IntBytes(WrapInt32(|d.samples|))
  }

  method DumpDiphone<S>(os: DataOutput, d: Diphone<S>, write: S -> seq<Byte>)
    modifies os
    ensures os.bytes == old(os.bytes) + DiphoneBytes(d, write)
  {
    WriteHead(os, d);
    WriteRecords(os, write, d.samples);
  }

  method WriteHead<S>(os: DataOutput, d: Diphone<S>)
    modifies os
    ensures os.bytes == old(os.bytes) + HeadBytes(d)
  {
    os.WriteInt(MAGIC);
    WriteNameField(os, d.name);
    os.WriteInt(d.midPoint);
    os.WriteInt(WrapInt32(|d.samples|));
  }

  /** The first eight chars of the name padded with spaces, one `writeChar` each. */
  method WriteNameField(os: DataOutput, name: JString)
    modifies os
    ensures os.bytes == old(os.bytes) + CharsBytes(NameField(name))
  {
    var nameArray := name + EIGHT_SPACES;
    var i := 0;
    while i < NAME_LENGTH
      invariant 0 <= i <= NAME_LENGTH
      invariant os.bytes == old(os.bytes) + CharsBytes(nameArray[..i])
    {
      assert nameArray[..i + 1][..i] == nameArray[..i];
      os.WriteChar(nameArray[i]);
      i := i + 1;
    }
  }

  /** The chars of `s` that are not whitespace, in order. */
  function NonWhite(s: JString): JString {
    if |s| == 0 then []
    else if IsWhitespace(s[|s| - 1]) then NonWhite(s[..|s| - 1])
    else NonWhite(s[..|s| - 1]) + [s[|s| - 1]]
  }

  lemma NonWhiteNext(s: JString, c: JChar)
    ensures NonWhite(s + [c]) == if IsWhitespace(c) then NonWhite(s) else NonWhite(s) + [c]
  {
    assert (s + [c])[..|s|] == s;
  }

  /** The name a name field reads as: its whitespace dropped, then trimmed. */
  function NameOf(field: JString): JString {
    Trim(NonWhite(field))
  }

  /** The chars of the name field at the front of `bs`. */
  function FieldChars(bs: seq<Byte>): (r: JString)
    requires |bs| >= NAME_BYTES
    ensures |r| == NAME_LENGTH
  {
    BytesChars(bs[..NAME_BYTES])
  }

  /** `Diphone.loadBinary(dis)` over the bytes still to be read. */
  function ParseDiphone<S>(bs: seq<Byte>, ops: SampleOps<S>): (r: Result<(Loaded<S>, nat), JavaError>)
    ensures r.Ok? ==> r.value.1 <= |bs|
  {
    if |bs| < 4 then Err(EndOfStream)
    else
      var magic := BytesInt(bs[..4]);
      if magic == ALIAS_MAGIC then
        if |bs| < 4 + 2 * NAME_BYTES then Err(EndOfStream)
        else Ok((Alias(NameOf(FieldChars(bs[4..])), NameOf(FieldChars(bs[4 + NAME_BYTES..]))), 4 + 2 * NAME_BYTES))
      else if magic != MAGIC then Err(Fatal(BAD_MAGIC))
      else
        After(PlainAfterMagic(bs[4..], ops), 4)
  }

  /** The chars of the first `i + 1` pairs of bytes: one more `readChar`. */
  lemma CharsNext(bs: seq<Byte>, i: nat)
    requires 2 * i + 2 <= |bs|
    ensures BytesChars(bs[..2 * i + 2]) == BytesChars(bs[..2 * i]) + [BytesChar(bs[2 * i..][..2])]
  {
    var next := bs[..2 * i + 2];
    assert next[..2 * i] == bs[..2 * i];
    assert next[2 * i..] == bs[2 * i..][..2];
  }

  /** One more char of a name field read and, unless it is whitespace, kept. */
  lemma NameStep(bs: seq<Byte>, i: nat, c: JChar, sb: JString)
    requires 2 * i + 2 <= |bs| && c == BytesChar(bs[2 * i..][..2])
    requires sb == NonWhite(BytesChars(bs[..2 * i]))
    ensures (if IsWhitespace(c) then sb else sb + [c]) == NonWhite(BytesChars(bs[..2 * i + 2]))
  {
    var cs := BytesChars(bs[..2 * i]);
    CharsNext(bs, i);
    assert BytesChars(bs[..2 * i + 2]) == cs + [c];
    NonWhiteNext(cs, c);
  }

  /** Reads a name field and keeps the chars that are not whitespace. */
  method ReadNameField(dis: DataInput) returns (r: Option<JString>)
    requires dis.Valid()
    modifies dis
    ensures dis.Valid()
    ensures NAME_BYTES <= |old(dis.Remaining())| ==>
      r == Some(NonWhite(FieldChars(old(dis.Remaining())))) && dis.pos == old(dis.pos) + NAME_BYTES
    ensures NAME_BYTES > |old(dis.Remaining())| ==> r == None
  {
    ghost var bs := dis.Remaining();
    ghost var p0 := dis.pos;
    var sb: JString := [];
    var i := 0;
    while i < NAME_LENGTH
      invariant 0 <= i <= NAME_LENGTH && dis.Valid() && dis.pos == p0 + 2 * i
      invariant 2 * i <= |bs| && dis.Remaining() == bs[2 * i..]
      invariant sb == NonWhite(BytesChars(bs[..2 * i]))
    {
      var c := dis.ReadChar();
      if c.None? {
        return None;
      }
      NameStep(bs, i, c.value, sb);
      if !IsWhitespace(c.value) {
        sb := sb + [c.value];
      }
      i := i + 1;
      assert dis.Remaining() == bs[2 * i..];
    }
    r := Some(sb);
  }

  /** Reads the two name fields of an alias. */
  method LoadAlias<S>(dis: DataInput) returns (r: Result<Loaded<S>, JavaError>)
    requires dis.Valid()
    modifies dis
    ensures dis.Valid()
    ensures 2 * NAME_BYTES <= |old(dis.Remaining())| ==>
      var bs := old(dis.Remaining());
      && r == Ok(Alias(NameOf(FieldChars(bs)), NameOf(FieldChars(bs[NAME_BYTES..]))))
      && dis.pos == old(dis.pos) + 2 * NAME_BYTES
    ensures 2 * NAME_BYTES > |old(dis.Remaining())| ==> r == Err(EndOfStream)
  {
    ghost var bs := dis.Remaining();
    var name := ReadNameField(dis);
    if name.None? {
      return Err(EndOfStream);
    }
    assert dis.Remaining() == bs[NAME_BYTES..];
    var origName := ReadNameField(dis);
    if origName.None? {
      return Err(EndOfStream);
    }
    r := Ok(Alias(Trim(name.value), Trim(origName.value)));
  }

  /** Reads what follows the magic number of a plain diphone. */
  method LoadPlain<S>(dis: DataInput, ops: SampleOps<S>) returns (r: Result<Loaded<S>, JavaError>)
    requires dis.Valid()
    modifies dis
    ensures dis.Valid()
    ensures match PlainAfterMagic(old(dis.Remaining()), ops)
      case Ok((x, n)) => r == Ok(x) && dis.pos == old(dis.pos) + n
      case Err(e) => r == Err(e)
  {
    ghost var bs := dis.Remaining();
    ghost var p0 := dis.pos;
    var name := ReadNameField(dis);
    if name.None? {
      return Err(EndOfStream);
    }
    assert dis.Remaining() == bs[NAME_BYTES..];
    var midPoint := dis.ReadInt();
    if midPoint.None? {
      return Err(EndOfStream);
    }
    assert bs[NAME_BYTES..][..4] == bs[NAME_BYTES..NAME_BYTES + 4];
    assert dis.Remaining() == bs[NAME_BYTES + 4..];
    var count := dis.ReadInt();
    if count.None? {
      return Err(EndOfStream);
    }
    assert dis.Remaining() == bs[NAME_BYTES + 8..];
    r := LoadSamples(dis, Trim(name.value), midPoint.value, count.value, ops);
  }

  /** Reads the samples of a plain diphone and constructs it. */
  method LoadSamples<S>(dis: DataInput, name: JString, midPoint: Int32, count: Int32, ops: SampleOps<S>) returns (r: Result<Loaded<S>, JavaError>)
    requires dis.Valid()
    modifies dis
    ensures dis.Valid()
    ensures match SamplesThen(name, midPoint, count, old(dis.Remaining()), ops)
      case Ok((x, n)) => r == Ok(x) && dis.pos == old(dis.pos) + n
      case Err(e) => r == Err(e)
  {
    if count < 0 {
      return Err(NegativeArraySize);
    }
    var samples := ReadRecords(dis, ops.read, count);
    if samples.Err? {
      return Err(samples.error);
    }
    var d := NewDiphone(name, samples.value, midPoint, ops.residualSize);
    if d.Err? {
      return Err(d.error);
    }
    r := Ok(Plain(d.value));
  }

  /** `ParseDiphone` past a plain diphone's magic number. */
  function PlainAfterMagic<S>(bs: seq<Byte>, ops: SampleOps<S>): (r: Result<(Loaded<S>, nat), JavaError>)
    ensures r.Ok? ==> r.value.1 <= |bs|
  {
    if |bs| < NAME_BYTES + 8 then Err(EndOfStream)
    else
      var name := NameOf(FieldChars(bs));
      var midPoint := BytesInt(bs[NAME_BYTES..][..4]);
      var count := BytesInt(bs[4 + NAME_BYTES..][..4]);
      After(SamplesThen(name, midPoint, count, bs[8 + NAME_BYTES..], ops), 8 + NAME_BYTES)
  }

  /** `new Sample[count]`, the loop filling it, and the constructor. */
  function SamplesThen<S>(name: JString, midPoint: Int32, count: Int32, bs: seq<Byte>, ops: SampleOps<S>): (r: Result<(Loaded<S>, nat), JavaError>)
    ensures r.Ok? ==> r.value.1 <= |bs|
  {
    if count < 0 then Err(NegativeArraySize)
    else
      match ParseMany(ops.read, bs, count)
      case Err(e) => Err(e)
      case Ok((samples, n)) =>
        match Build(name, samples, midPoint, ops.residualSize)
        case Err(e) => Err(e)
        case Ok(d) => Ok((Plain(d), n))
  }

  /** `Diphone.loadBinary(dis)`. */
  method LoadDiphone<S>(dis: DataInput, ops: SampleOps<S>) returns (r: Result<Loaded<S>, JavaError>)
    requires dis.Valid()
    modifies dis
    ensures dis.Valid()
    ensures match ParseDiphone(old(dis.Remaining()), ops)
      case Ok((x, n)) => r == Ok(x) && dis.pos == old(dis.pos) + n
      case Err(e) => r == Err(e)
  {
    ghost var bs := dis.Remaining();
    var magic := dis.ReadInt();
    if magic.None? {
      return Err(EndOfStream);
    }
    assert dis.Remaining() == bs[4..];
    if magic.value == ALIAS_MAGIC {
      r := LoadAlias(dis);
    } else if magic.value != MAGIC {
      r := Err(Fatal(BAD_MAGIC));
    } else {
      r := LoadPlain(dis, ops);
    }
  }

  // ---------------------------------------------------------------------
  // Round trips

  /** A name made only of chars above U+0020 that are not whitespace, at most eight of them. */
  predicate StoredName(name: JString) {
    |name| <= NAME_LENGTH && forall i :: 0 <= i < |name| ==> name[i] > SPACE && !IsWhitespace(name[i])
  }

  lemma {:induction false} NonWhiteAppend(a: JString, b: JString)
    ensures NonWhite(a + b) == NonWhite(a) + NonWhite(b)
    decreases |b|
  {
    if |b| == 0 {
      assert a + b == a;
    } else {
      var init := b[..|b| - 1];
      assert (a + b)[..|a + b| - 1] == a + init;
      NonWhiteAppend(a, init);
    }
  }

  lemma {:induction false} NonWhiteKeeps(s: JString)
    requires forall i :: 0 <= i < |s| ==> !IsWhitespace(s[i])
    ensures NonWhite(s) == s
  {
    if |s| > 0 {
      NonWhiteKeeps(s[..|s| - 1]);
    }
  }

  lemma {:induction false} NonWhiteDrops(s: JString)
    requires forall i :: 0 <= i < |s| ==> IsWhitespace(s[i])
    ensures NonWhite(s) == []
  {
    if |s| > 0 {
      NonWhiteDrops(s[..|s| - 1]);
    }
  }

  lemma TrimKeeps(s: JString)
    requires forall i :: 0 <= i < |s| ==> s[i] > SPACE
    ensures Trim(s) == s
  {
    assert TrimStart(s) == s;
  }

  /** A stored name reads back from its name field unchanged. */
  lemma NameFieldRoundTrip(name: JString)
    requires StoredName(name)
    ensures NameOf(NameField(name)) == name
  {
    var pad := EIGHT_SPACES[..NAME_LENGTH - |name|];
    assert NameField(name) == name + pad;
    NonWhiteAppend(name, pad);
    NonWhiteKeeps(name);
    NonWhiteDrops(pad);
    assert name + [] == name;
    TrimKeeps(name);
  }

  /** A record opening with `MAGIC` is read as a plain diphone. */
  lemma MagicThen<S>(x: seq<Byte>, ops: SampleOps<S>)
    ensures ParseDiphone(IntBytes(MAGIC) + x, ops) == After(PlainAfterMagic(x, ops), 4)
  {
    var all := IntBytes(MAGIC) + x;
    assert all[..4] == IntBytes(MAGIC) && all[4..] == x;
    BytesIntOfIntBytes(MAGIC);
  }

  /** The name field, the mid point and the sample count, read back. */
  lemma FieldsThen<S>(f: JString, m: Int32, c: Int32, x: seq<Byte>, ops: SampleOps<S>)
    requires |f| == NAME_LENGTH
    ensures PlainAfterMagic(CharsBytes(f) + IntBytes(m) + IntBytes(c) + x, ops)
         == After(SamplesThen(NameOf(f), m, c, x, ops), 8 + NAME_BYTES)
  {
    var field, mb, cb := CharsBytes(f), IntBytes(m), IntBytes(c);
    var all := field + mb + cb + x;
    var after := mb + (cb + x);
    AppendAssoc(field + mb, cb, x);
    AppendAssoc(field, mb, cb + x);
    assert all[..NAME_BYTES] == field;
    assert all[NAME_BYTES..] == after;
    assert after[..4] == mb && after[4..] == cb + x;
    assert all[4 + NAME_BYTES..] == cb + x;
    assert (cb + x)[..4] == cb && (cb + x)[4..] == x;
    BytesCharsOfCharsBytes(f);
    BytesIntOfIntBytes(m);
    BytesIntOfIntBytes(c);
  }

  /** The samples a write loop wrote, read back and handed to the constructor. */
  lemma SamplesRoundTrip<S(!new)>(d: Diphone<S>, ops: SampleOps<S>, name: JString, rest: seq<Byte>)
    requires Build(d.name, d.samples, d.midPoint, ops.residualSize) == Ok(d)
    requires |d.samples| <= INT_MAX && Decodes(ops.read, ops.write, _ => true)
    ensures SamplesThen(name, d.midPoint, |d.samples|, EncodeMany(ops.write, d.samples) + rest, ops)
         == Ok((Plain(d.(name := name)), |EncodeMany(ops.write, d.samples)|))
  {
    ParseEncodeMany(ops.read, ops.write, _ => true, d.samples, rest);
    Renamed(d, ops.residualSize, name);
  }

  /** The name plays no part in the sizes the constructor computes. */
  lemma Renamed<S>(d: Diphone<S>, size: S -> Int32, name: JString)
    requires Build(d.name, d.samples, d.midPoint, size) == Ok(d)
    ensures Build(name, d.samples, d.midPoint, size) == Ok(d.(name := name))
  {
  }

  /**
   * `loadBinary` reads back what `dumpBinary` wrote, whatever follows it:
   * the same diphone, under the name its name field reads as.
   */
  lemma LoadDumpedDiphone<S(!new)>(d: Diphone<S>, ops: SampleOps<S>, rest: seq<Byte>)
    requires Build(d.name, d.samples, d.midPoint, ops.residualSize) == Ok(d)
    requires |d.samples| <= INT_MAX && Decodes(ops.read, ops.write, _ => true)
    ensures ParseDiphone(DiphoneBytes(d, ops.write) + rest, ops)
         == Ok((Plain(d.(name := NameOf(NameField(d.name)))), |DiphoneBytes(d, ops.write)|))
  {
    var f := NameField(d.name);
    var em := EncodeMany(ops.write, d.samples);
    var magic, field, mb, cb := IntBytes(MAGIC), CharsBytes(f), IntBytes(d.midPoint), IntBytes(|d.samples|);
    var fields := field + mb + cb;
    AppendAssoc(HeadBytes(d), em, rest);
    AppendAssoc(magic, field, mb);
    AppendAssoc(magic, field + mb, cb);
    AppendAssoc(magic, fields, em + rest);
    assert DiphoneBytes(d, ops.write) + rest == magic + (fields + (em + rest));
    MagicThen(fields + (em + rest), ops);
    FieldsThen(f, d.midPoint, |d.samples|, em + rest, ops);
    SamplesRoundTrip(d, ops, NameOf(f), rest);
  }

  /** A diphone with a stored name reads back as itself. */
  lemma LoadDumpedStoredName<S(!new)>(d: Diphone<S>, ops: SampleOps<S>, rest: seq<Byte>)
    requires Build(d.name, d.samples, d.midPoint, ops.residualSize) == Ok(d) && StoredName(d.name)
    requires |d.samples| <= INT_MAX && Decodes(ops.read, ops.write, _ => true)
    ensures ParseDiphone(DiphoneBytes(d, ops.write) + rest, ops) == Ok((Plain(d), |DiphoneBytes(d, ops.write)|))
  {
    LoadDumpedDiphone(d, ops, rest);
    NameFieldRoundTrip(d.name);
  }

  /** The two name fields of an alias read back as the names stored in them. */
  lemma LoadAliasRecord<S>(name: JString, origName: JString, ops: SampleOps<S>, rest: seq<Byte>)
    requires StoredName(name) && StoredName(origName)
    ensures var bs := IntBytes(ALIAS_MAGIC) + CharsBytes(NameField(name)) + CharsBytes(NameField(origName));
      ParseDiphone(bs + rest, ops) == Ok((Alias(name, origName), |bs|))
  {
    var f1, f2 := CharsBytes(NameField(name)), CharsBytes(NameField(origName));
    var all := IntBytes(ALIAS_MAGIC) + f1 + f2 + rest;
    assert all[..4] == IntBytes(ALIAS_MAGIC);
    BytesIntOfIntBytes(ALIAS_MAGIC);
    assert all[4..][..NAME_BYTES] == f1;
    assert all[4 + NAME_BYTES..][..NAME_BYTES] == f2;
    BytesCharsOfCharsBytes(NameField(name));
    BytesCharsOfCharsBytes(NameField(origName));
    NameFieldRoundTrip(name);
    NameFieldRoundTrip(origName);
  }

  /** A record opening with neither magic number is the Error `loadBinary` throws. */
  lemma BadMagicRejected<S>(bs: seq<Byte>, ops: SampleOps<S>)
    requires |bs| >= 4 && BytesInt(bs[..4]) != MAGIC && BytesInt(bs[..4]) != ALIAS_MAGIC
    ensures ParseDiphone(bs, ops) == Err(Fatal(BAD_MAGIC))
  {
  }
}

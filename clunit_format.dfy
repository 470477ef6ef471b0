/**
 * The two file forms of a cluster unit database, as values: the state a
 * ClusterUnitDatabase holds, the join-weight shift rule, the binary layout
 * `dumpBinary` writes and `loadBinary` reads, and the tag-per-line text
 * layout `loadText` reads. The sample sets and CARTs inside a database are
 * kept opaque: their readers and writers are parameters.
 */
module ClusterUnitFormat {
  import opened Wrappers
  import opened JavaLang
  import opened Streams
  import opened Utilities
  import opened ClusterUnitRecords

  /** The first two ints of every binary database. */
  const MAGIC: Int32 := 0xf0cacc1a - 0x1_0000_0000
  const VERSION: Int32 := 0x1000

  /** How loading a database fails. */
  datatype LoadError =
    | NoDatabase                                // "Can't load cluster db file."
    | UnsupportedTag(tag: JString, line: JString)
    | MissingToken                              // a NoSuchElementException, rethrown as Error
    | BadNumber(line: JString)                  // a NumberFormatException, rethrown as Error
    | BadMagic                                  // "Bad magic in db"
    | BadVersion                                // "Bad VERSION in db"
    | Thrown(cause: JavaError)                  // an exception the loader lets through

  /** Everything a ClusterUnitDatabase holds besides its debug origins. */
  datatype DbImage<SS, C> = DbImage(
    units: seq<DatabaseClusterUnit>,
    unitTypes: seq<UnitType>,
    sts: Option<SS>,
    mcep: Option<SS>,
    continuityWeight: Int32,
    optimalCoupling: Int32,
    extendSelections: Int32,
    joinMethod: Int32,
    joinWeights: Option<seq<Int32>>,
    joinWeightShift: Int32,
    cartMap: map<JString, C>,
    defaultCart: Option<C>)

  /** The state of a database before anything is loaded: Java's field defaults. */
  function EmptyImage<SS, C>(): DbImage<SS, C> {
    DbImage([], [], None, None, 0, 0, 0, 0, None, 0, map[], None)
  }

  // ---------------------------------------------------------------------
  // calcJoinWeightShift

  /**
   * The join-weight shift, stated by ranges: 0 unless every weight equals
   * the first; then 1 when 65536 / first is 2, 2 when it is 4, 0 otherwise.
   * No weights is an index error, a zero weight a division by zero.
   */
  function JoinWeightShift(w: seq<Int32>): Result<Int32, JavaError> {
    if |w| == 0 then Err(IndexOutOfBounds)
    else if exists i :: 0 <= i < |w| && w[i] != w[0] then Ok(0)
    else if w[0] == 0 then Err(Arithmetic)
    else if 21846 <= w[0] <= 32768 then Ok(1)
    else if 13108 <= w[0] <= 16384 then Ok(2)
    else Ok(0)
  }

  /** `a / b` is `q` exactly when `q` whole `b`s fit in `a` and one more does not. */
  lemma DivIs(a: int, b: int, q: int)
    requires b > 0 && b * q <= a < b * q + b
    ensures a / b == q
  {
    var q', r' := a / b, a % b;
    assert a == b * q' + r' && 0 <= r' < b;
    var d := q - q';
    assert b * q - b * q' == b * d;
  }

  /** The two divisors `calcJoinWeightShift` looks for, as ranges of the first weight. */
  lemma ShiftDivisor(first: int)
    requires first != 0
    ensures JDiv(65536, first) == 2 <==> 21846 <= first <= 32768
    ensures JDiv(65536, first) == 4 <==> 13108 <= first <= 16384
  {
    if first > 0 {
      var q := 65536 / first;
      assert JDiv(65536, first) == q;
      if 21846 <= first <= 32768 { DivIs(65536, first, 2); }
      if 13108 <= first <= 16384 { DivIs(65536, first, 4); }
      if q == 2 { assert first * 2 <= 65536 < first * 3; }
      if q == 4 { assert first * 4 <= 65536 < first * 5; }
    } else {
      assert JDiv(65536, first) <= 0;
    }
  }

  // ---------------------------------------------------------------------
  // Binary layout

  /** A binary database in file order; the CARTs are (name, cart) pairs. */
  datatype BinaryImage<SS, C> = BinaryImage(
    continuityWeight: Int32,
    optimalCoupling: Int32,
    extendSelections: Int32,
    joinMethod: Int32,
    joinWeightShift: Int32,
    joinWeights: seq<Int32>,
    units: seq<DatabaseClusterUnit>,
    unitTypes: seq<UnitType>,
    sts: SS,
    mcep: SS,
    carts: seq<(JString, C)>)

  /** The readers and writers of the opaque parts: `SampleSet` and `CARTImpl`. */
  datatype BinaryCodec<!SS, !C> = BinaryCodec(
    readSampleSet: Decoder<SS>,
    writeSampleSet: SS -> seq<Byte>,
    readCart: Decoder<C>,
    writeCart: C -> seq<Byte>)

  /** The five header ints after MAGIC and VERSION. */
  datatype Header = Header(
    continuityWeight: Int32, optimalCoupling: Int32, extendSelections: Int32,
    joinMethod: Int32, joinWeightShift: Int32)

  function HeaderBytes(h: Header): (r: seq<Byte>)
    ensures |r| == 28
  {
    IntBytes(MAGIC) + IntBytes(VERSION) + IntBytes(h.continuityWeight) + IntBytes(h.optimalCoupling)
      + IntBytes(h.extendSelections) + IntBytes(h.joinMethod) + IntBytes(h.joinWeightShift)
  }

  /** The magic and version check, then the five header ints. */
  function ParseHeader(bs: seq<Byte>): (r: Result<(Header, nat), LoadError>)
    ensures r.Ok? ==> r.value.1 == 28 <= |bs|
  {
    if |bs| < 4 then Err(Thrown(EndOfStream))
    else if BytesInt(bs[0..4]) != MAGIC then Err(BadMagic)
    else if |bs| < 8 then Err(Thrown(EndOfStream))
    else if BytesInt(bs[4..8]) != VERSION then Err(BadVersion)
    else if |bs| < 28 then Err(Thrown(EndOfStream))
    else
      Ok((Header(BytesInt(bs[8..12]), BytesInt(bs[12..16]), BytesInt(bs[16..20]),
                 BytesInt(bs[20..24]), BytesInt(bs[24..28])), 28))
  }

  lemma ParseHeaderBytes(h: Header, rest: seq<Byte>)
    ensures ParseHeader(HeaderBytes(h) + rest) == Ok((h, 28))
  {
    var bs := HeaderBytes(h) + rest;
    assert bs[0..4] == IntBytes(MAGIC);
    assert bs[4..8] == IntBytes(VERSION);
    assert bs[8..12] == IntBytes(h.continuityWeight);
    assert bs[12..16] == IntBytes(h.optimalCoupling);
    assert bs[16..20] == IntBytes(h.extendSelections);
    assert bs[20..24] == IntBytes(h.joinMethod);
    assert bs[24..28] == IntBytes(h.joinWeightShift);
    BytesIntOfIntBytes(MAGIC);
    BytesIntOfIntBytes(VERSION);
    BytesIntOfIntBytes(h.continuityWeight);
    BytesIntOfIntBytes(h.optimalCoupling);
    BytesIntOfIntBytes(h.extendSelections);
    BytesIntOfIntBytes(h.joinMethod);
    BytesIntOfIntBytes(h.joinWeightShift);
  }

  /**
   * An int count, then that many records: how the weights, units and unit
   * types are read. A negative count fails when the array is allocated.
   */
  function ParseArray<T>(item: Decoder<T>, bs: seq<Byte>): (r: Result<(seq<T>, nat), JavaError>)
    ensures r.Ok? ==> 4 <= r.value.1 <= |bs|
  {
    if |bs| < 4 then Err(EndOfStream)
    else
      var n := BytesInt(bs[..4]);
      if n < 0 then Err(NegativeArraySize)
      else
        match ParseMany(item, bs[4..], n)
        case Err(e) => Err(e)
        case Ok((xs, k)) => Ok((xs, 4 + k))
  }

  /** The bytes of an array of records: its length, then the records. */
  function ArrayBytes<T>(enc: T -> seq<Byte>, xs: seq<T>): seq<Byte> {
    IntBytes(WrapInt32(|xs|)) + EncodeMany(enc, xs)
  }

  lemma ParseArrayBytes<T(!new)>(item: Decoder<T>, enc: T -> seq<Byte>, ok: T -> bool, xs: seq<T>, rest: seq<Byte>)
    requires |xs| <= INT_MAX
    requires Decodes(item, enc, ok) && forall i :: 0 <= i < |xs| ==> ok(xs[i])
    ensures ParseArray(item, ArrayBytes(enc, xs) + rest) == Ok((xs, |ArrayBytes(enc, xs)|))
  {
    var bs := ArrayBytes(enc, xs) + rest;
    assert bs[..4] == IntBytes(|xs|);
    BytesIntOfIntBytes(|xs|);
    assert bs[4..] == EncodeMany(enc, xs) + rest;
    ParseEncodeMany(item, enc, ok, xs, rest);
  }

  /** One CART entry of the binary form: its name, then the CART itself. */
  function CartEntry<C>(readCart: Decoder<C>, bs: seq<Byte>): Result<((JString, C), nat), JavaError> {
    match ParseString(bs)
    case Err(e) => Err(e)
    case Ok((name, k)) =>
      match Step(readCart, bs[k..])
      case Err(e) => Err(e)
      case Ok((cart, m)) => Ok(((name, cart), k + m))
  }

  function CartEntryItem<C>(readCart: Decoder<C>): Decoder<(JString, C)> {
    bs => CartEntry(readCart, bs)
  }

  /** A CART entry never claims bytes past the end. */
  lemma CartEntryStep<C>(readCart: Decoder<C>, bs: seq<Byte>)
    ensures Step(CartEntryItem(readCart), bs) == CartEntry(readCart, bs)
  {
  }

  function CartEntryBytes<C>(writeCart: C -> seq<Byte>): ((JString, C)) -> seq<Byte> {
    (e: (JString, C)) => StringBytes(e.0) + writeCart(e.1)
  }

  predicate ShortKey<C>(e: (JString, C)) {
    |e.0| <= 0x7FFF
  }

  lemma CartEntryBytesDecode<C>(readCart: Decoder<C>, writeCart: C -> seq<Byte>, e: (JString, C), rest: seq<Byte>)
    requires ShortKey(e)
    requires readCart(writeCart(e.1) + rest) == Ok((e.1, |writeCart(e.1)|))
    ensures CartEntryItem(readCart)(CartEntryBytes(writeCart)(e) + rest) == Ok((e, |CartEntryBytes(writeCart)(e)|))
  {
    var bs := StringBytes(e.0) + writeCart(e.1) + rest;
    assert bs == StringBytes(e.0) + (writeCart(e.1) + rest);
    ParseStringBytes(e.0, writeCart(e.1) + rest);
    assert bs[2 + 2 * |e.0|..] == writeCart(e.1) + rest;
  }

  lemma CartEntryDecodes<C(!new)>(readCart: Decoder<C>, writeCart: C -> seq<Byte>)
    requires Decodes(readCart, writeCart, _ => true)
    ensures Decodes(CartEntryItem(readCart), CartEntryBytes(writeCart), ShortKey)
  {
    forall e: (JString, C), rest: seq<Byte> | ShortKey(e)
      ensures CartEntryItem(readCart)(CartEntryBytes(writeCart)(e) + rest)
        == Ok((e, |CartEntryBytes(writeCart)(e)|))
    {
      CartEntryBytesDecode(readCart, writeCart, e, rest);
    }
  }

  /** An int count, then that many records; unlike ParseArray, a negative count reads none. */
  function ParseCounted<T>(item: Decoder<T>, bs: seq<Byte>): (r: Result<(seq<T>, nat), JavaError>)
    ensures r.Ok? ==> 4 <= r.value.1 <= |bs|
  {
    if |bs| < 4 then Err(EndOfStream)
    else
      var n := BytesInt(bs[..4]);
      match ParseMany(item, bs[4..], if n < 0 then 0 else n)
      case Err(e) => Err(e)
      case Ok((xs, k)) => Ok((xs, 4 + k))
  }

  lemma ParseCountedBytes<T(!new)>(item: Decoder<T>, enc: T -> seq<Byte>, ok: T -> bool, xs: seq<T>, rest: seq<Byte>)
    requires |xs| <= INT_MAX
    requires Decodes(item, enc, ok) && forall i :: 0 <= i < |xs| ==> ok(xs[i])
    ensures ParseCounted(item, ArrayBytes(enc, xs) + rest) == Ok((xs, |ArrayBytes(enc, xs)|))
  {
    var bs := ArrayBytes(enc, xs) + rest;
    assert bs[..4] == IntBytes(|xs|);
    BytesIntOfIntBytes(|xs|);
    assert bs[4..] == EncodeMany(enc, xs) + rest;
    ParseEncodeMany(item, enc, ok, xs, rest);
  }

  /** The CART section: a count, then each name followed by its CART. */
  function ParseCarts<C>(readCart: Decoder<C>, bs: seq<Byte>): (r: Result<(seq<(JString, C)>, nat), JavaError>) {
    ParseCounted(CartEntryItem(readCart), bs)
  }

  function Lift<T>(r: Result<T, JavaError>): Result<T, LoadError> {
    match r
    case Ok(x) => Ok(x)
    case Err(e) => Err(Thrown(e))
  }


  // ---------------------------------------------------------------------
  // The sections of the binary form

  /** A reader of one section: what it read and how many bytes, or why loading fails. */
  type SectionReader<!T> = seq<Byte> -> Result<(T, nat), LoadError>

  /** How `loadBinary` reads each section. */
  datatype Readers<!SS, !C> = Readers(
    header: SectionReader<Header>,
    joinWeights: SectionReader<seq<Int32>>,
    units: SectionReader<seq<DatabaseClusterUnit>>,
    unitTypes: SectionReader<seq<UnitType>>,
    sampleSet: SectionReader<SS>,
    carts: SectionReader<seq<(JString, C)>>)

  /** How `dumpBinary` writes each section. */
  datatype Writers<!SS, !C> = Writers(
    header: Header -> seq<Byte>,
    joinWeights: seq<Int32> -> seq<Byte>,
    units: seq<DatabaseClusterUnit> -> seq<Byte>,
    unitTypes: seq<UnitType> -> seq<Byte>,
    sampleSet: SS -> seq<Byte>,
    carts: seq<(JString, C)> -> seq<Byte>)

  function BinaryReaders<SS, C>(codec: BinaryCodec<SS, C>): Readers<SS, C> {
    Readers(
      ParseHeader,
      bs => Lift(ParseArray(IntItem, bs)),
      bs => Lift(ParseArray(UnitItem, bs)),
      bs => Lift(ParseArray(UnitTypeItem, bs)),
      bs => Lift(codec.readSampleSet(bs)),
      bs => Lift(ParseCarts(codec.readCart, bs)))
  }

  function BinaryWriters<SS, C>(codec: BinaryCodec<SS, C>): Writers<SS, C> {
    Writers(
      HeaderBytes,
      ws => ArrayBytes(IntEnc, ws),
      us => ArrayBytes(UnitBytes, us),
      ts => ArrayBytes(UnitTypeBytes, ts),
      codec.writeSampleSet,
      cs => ArrayBytes(CartEntryBytes(codec.writeCart), cs))
  }

  /** One section read; claiming bytes past the end is an EOF. */
  function Read<T>(reader: SectionReader<T>, bs: seq<Byte>): (r: Result<(T, nat), LoadError>)
    ensures r.Ok? ==> r.value.1 <= |bs|
  {
    match reader(bs)
    case Err(e) => Err(e)
    case Ok((x, n)) => if n <= |bs| then Ok((x, n)) else Err(Thrown(EndOfStream))
  }

  /** What `loadBinary` has read before the sample sets. */
  datatype Sections = Sections(
    header: Header, joinWeights: seq<Int32>, units: seq<DatabaseClusterUnit>, unitTypes: seq<UnitType>)

  const NoSections: Sections := Sections(Header(0, 0, 0, 0, 0), [], [], [])

  // The rest of `loadBinary` from each section on, with `read` already read.

  function ParseFromHeader<SS, C>(rd: Readers<SS, C>, read: Sections, bs: seq<Byte>)
    : (r: Result<(BinaryImage<SS, C>, nat), LoadError>)
    ensures r.Ok? ==> r.value.1 <= |bs|
  {
    match Read(rd.header, bs)
    case Err(e) => Err(e)
    case Ok((h, k)) => After(ParseFromJoinWeights(rd, read.(header := h), bs[k..]), k)
  }

  function ParseFromJoinWeights<SS, C>(rd: Readers<SS, C>, read: Sections, bs: seq<Byte>)
    : (r: Result<(BinaryImage<SS, C>, nat), LoadError>)
    ensures r.Ok? ==> r.value.1 <= |bs|
  {
    match Read(rd.joinWeights, bs)
    case Err(e) => Err(e)
    case Ok((ws, k)) => After(ParseFromUnits(rd, read.(joinWeights := ws), bs[k..]), k)
  }

  function ParseFromUnits<SS, C>(rd: Readers<SS, C>, read: Sections, bs: seq<Byte>)
    : (r: Result<(BinaryImage<SS, C>, nat), LoadError>)
    ensures r.Ok? ==> r.value.1 <= |bs|
  {
    match Read(rd.units, bs)
    case Err(e) => Err(e)
    case Ok((us, k)) => After(ParseFromUnitTypes(rd, read.(units := us), bs[k..]), k)
  }

  function ParseFromUnitTypes<SS, C>(rd: Readers<SS, C>, read: Sections, bs: seq<Byte>)
    : (r: Result<(BinaryImage<SS, C>, nat), LoadError>)
    ensures r.Ok? ==> r.value.1 <= |bs|
  {
    match Read(rd.unitTypes, bs)
    case Err(e) => Err(e)
    case Ok((ts, k)) => After(ParseFromSampleSets(rd, read.(unitTypes := ts), bs[k..]), k)
  }

  /** The two sample sets, then the CARTs. */
  function ParseFromSampleSets<SS, C>(rd: Readers<SS, C>, read: Sections, bs: seq<Byte>)
    : (r: Result<(BinaryImage<SS, C>, nat), LoadError>)
    ensures r.Ok? ==> r.value.1 <= |bs|
  {
    match Read(rd.sampleSet, bs)
    case Err(e) => Err(e)
    case Ok((sts, k1)) =>
      match Read(rd.sampleSet, bs[k1..])
      case Err(e) => Err(e)
      case Ok((mcep, k2)) =>
        match Read(rd.carts, bs[k1..][k2..])
        case Err(e) => Err(e)
        case Ok((carts, k3)) => Ok((Complete(read, sts, mcep, carts), k1 + k2 + k3))
  }

  /** The image once the sample sets and CARTs follow what `read` holds. */
  function Complete<SS, C>(read: Sections, sts: SS, mcep: SS, carts: seq<(JString, C)>): BinaryImage<SS, C> {
    var h := read.header;
    BinaryImage(h.continuityWeight, h.optimalCoupling, h.extendSelections, h.joinMethod,
                h.joinWeightShift, read.joinWeights, read.units, read.unitTypes, sts, mcep, carts)
  }

  /** What `loadBinary` reads, and how many bytes it consumes. */
  function ParseImage<SS, C>(bs: seq<Byte>, codec: BinaryCodec<SS, C>)
    : (r: Result<(BinaryImage<SS, C>, nat), LoadError>)
    ensures r.Ok? ==> r.value.1 <= |bs|
  {
    ParseFromHeader(BinaryReaders(codec), NoSections, bs)
  }

  function HeaderOf<SS, C>(d: BinaryImage<SS, C>): Header {
    Header(d.continuityWeight, d.optimalCoupling, d.extendSelections, d.joinMethod, d.joinWeightShift)
  }

  /** The sections of `d` in file order, each as `wr` writes it. */
  function Layout<SS, C>(wr: Writers<SS, C>, d: BinaryImage<SS, C>): seq<Byte> {
    wr.header(HeaderOf(d))
      + (wr.joinWeights(d.joinWeights)
      + (wr.units(d.units)
      + (wr.unitTypes(d.unitTypes)
      + (wr.sampleSet(d.sts)
      + (wr.sampleSet(d.mcep)
      + wr.carts(d.carts))))))
  }

  /** What `dumpBinary` writes. */
  function ImageBytes<SS, C>(d: BinaryImage<SS, C>, codec: BinaryCodec<SS, C>): seq<Byte> {
    Layout(BinaryWriters(codec), d)
  }

  /** An array Java can hold: its length fits in an int. */
  predicate Fits<T>(xs: seq<T>) {
    |xs| <= INT_MAX
  }

  predicate ShortNames(ts: seq<UnitType>) {
    Fits(ts) && forall i :: 0 <= i < |ts| ==> ShortName(ts[i])
  }

  predicate ShortKeys<C>(cs: seq<(JString, C)>) {
    Fits(cs) && forall i :: 0 <= i < |cs| ==> ShortKey(cs[i])
  }

  /** What `dumpBinary` can write so that `loadBinary` reads it back. */
  predicate Dumpable<SS, C>(d: BinaryImage<SS, C>) {
    Fits(d.joinWeights) && Fits(d.units) && ShortNames(d.unitTypes) && ShortKeys(d.carts)
  }

  /** Each section reader reads back what its writer wrote. */
  ghost predicate SectionsRoundTrip<SS(!new), C(!new)>(rd: Readers<SS, C>, wr: Writers<SS, C>) {
    && Decodes(rd.header, wr.header, _ => true)
    && Decodes(rd.joinWeights, wr.joinWeights, Fits)
    && Decodes(rd.units, wr.units, Fits)
    && Decodes(rd.unitTypes, wr.unitTypes, ShortNames)
    && Decodes(rd.sampleSet, wr.sampleSet, _ => true)
    && Decodes(rd.carts, wr.carts, ShortKeys)
  }

  /** The collaborators read back what they write. */
  ghost predicate CodecRoundTrips<SS(!new), C(!new)>(codec: BinaryCodec<SS, C>) {
    && Decodes(codec.readSampleSet, codec.writeSampleSet, _ => true)
    && Decodes(codec.readCart, codec.writeCart, _ => true)
  }

  // Each section in terms of the next one, which starts `k` bytes into `bs` at `t`.

  lemma HeaderThen<SS, C>(rd: Readers<SS, C>, read: Sections, bs: seq<Byte>, k: nat, t: seq<Byte>, h: Header,
                          img: BinaryImage<SS, C>, n: nat)
    requires Read(rd.header, bs) == Ok((h, k)) && bs[k..] == t
    requires ParseFromJoinWeights(rd, read.(header := h), t) == Ok((img, n))
    ensures ParseFromHeader(rd, read, bs) == Ok((img, k + n))
  {
  }

  lemma WeightsThen<SS, C>(rd: Readers<SS, C>, read: Sections, bs: seq<Byte>, k: nat, t: seq<Byte>,
                           ws: seq<Int32>, img: BinaryImage<SS, C>, n: nat)
    requires Read(rd.joinWeights, bs) == Ok((ws, k)) && bs[k..] == t
    requires ParseFromUnits(rd, read.(joinWeights := ws), t) == Ok((img, n))
    ensures ParseFromJoinWeights(rd, read, bs) == Ok((img, k + n))
  {
  }

  lemma UnitsThen<SS, C>(rd: Readers<SS, C>, read: Sections, bs: seq<Byte>, k: nat, t: seq<Byte>,
                         us: seq<DatabaseClusterUnit>, img: BinaryImage<SS, C>, n: nat)
    requires Read(rd.units, bs) == Ok((us, k)) && bs[k..] == t
    requires ParseFromUnitTypes(rd, read.(units := us), t) == Ok((img, n))
    ensures ParseFromUnits(rd, read, bs) == Ok((img, k + n))
  {
  }

  lemma UnitTypesThen<SS, C>(rd: Readers<SS, C>, read: Sections, bs: seq<Byte>, k: nat, t: seq<Byte>,
                             ts: seq<UnitType>, img: BinaryImage<SS, C>, n: nat)
    requires Read(rd.unitTypes, bs) == Ok((ts, k)) && bs[k..] == t
    requires ParseFromSampleSets(rd, read.(unitTypes := ts), t) == Ok((img, n))
    ensures ParseFromUnitTypes(rd, read, bs) == Ok((img, k + n))
  {
  }

  lemma TailThen<SS, C>(rd: Readers<SS, C>, read: Sections, bs: seq<Byte>, k1: nat, t1: seq<Byte>,
                        k2: nat, t2: seq<Byte>, sts: SS, mcep: SS, carts: seq<(JString, C)>, k3: nat)
    requires Read(rd.sampleSet, bs) == Ok((sts, k1)) && bs[k1..] == t1
    requires Read(rd.sampleSet, t1) == Ok((mcep, k2)) && t1[k2..] == t2
    requires Read(rd.carts, t2) == Ok((carts, k3))
    ensures ParseFromSampleSets(rd, read, bs)
      == Ok((Complete(read, sts, mcep, carts), k1 + k2 + k3))
  {
  }

  /** A section reads back what its writer wrote, and the next one starts where it ends. */
  lemma ReadBack<T(!new)>(reader: SectionReader<T>, write: T -> seq<Byte>, ok: T -> bool, x: T, rest: seq<Byte>)
    requires Decodes(reader, write, ok) && ok(x)
    ensures Read(reader, write(x) + rest) == Ok((x, |write(x)|))
    ensures (write(x) + rest)[|write(x)|..] == rest
  {
    AppendDrop(write(x), rest);
  }

  /** The sections compose, given what each reads where the previous one stopped. */
  lemma ParseSectionsParts<SS, C>(rd: Readers<SS, C>, d: BinaryImage<SS, C>,
                                  t0: seq<Byte>, k0: nat, t1: seq<Byte>, k1: nat, t2: seq<Byte>, k2: nat,
                                  t3: seq<Byte>, k3: nat, t4: seq<Byte>, k4: nat, t5: seq<Byte>, k5: nat,
                                  t6: seq<Byte>, k6: nat, n: nat)
    requires Read(rd.header, t0) == Ok((HeaderOf(d), k0)) && t0[k0..] == t1
    requires Read(rd.joinWeights, t1) == Ok((d.joinWeights, k1)) && t1[k1..] == t2
    requires Read(rd.units, t2) == Ok((d.units, k2)) && t2[k2..] == t3
    requires Read(rd.unitTypes, t3) == Ok((d.unitTypes, k3)) && t3[k3..] == t4
    requires Read(rd.sampleSet, t4) == Ok((d.sts, k4)) && t4[k4..] == t5
    requires Read(rd.sampleSet, t5) == Ok((d.mcep, k5)) && t5[k5..] == t6
    requires Read(rd.carts, t6) == Ok((d.carts, k6)) && n == k0 + (k1 + (k2 + (k3 + (k4 + k5 + k6))))
    ensures ParseFromHeader(rd, NoSections, t0) == Ok((d, n))
  {
    var s1 := NoSections.(header := HeaderOf(d));
    var s2 := s1.(joinWeights := d.joinWeights);
    var s3 := s2.(units := d.units);
    var s4 := s3.(unitTypes := d.unitTypes);
    assert Complete(s4, d.sts, d.mcep, d.carts) == d;
    TailThen(rd, s4, t4, k4, t5, k5, t6, d.sts, d.mcep, d.carts, k6);
    UnitTypesThen(rd, s3, t3, k3, t4, d.unitTypes, d, k4 + k5 + k6);
    UnitsThen(rd, s2, t2, k2, t3, d.units, d, k3 + (k4 + k5 + k6));
    WeightsThen(rd, s1, t1, k1, t2, d.joinWeights, d, k2 + (k3 + (k4 + k5 + k6)));
    HeaderThen(rd, NoSections, t0, k0, t1, HeaderOf(d), d, k1 + (k2 + (k3 + (k4 + k5 + k6))));
  }

  /** Sections that read back what was written compose into an image that does. */
  lemma ParseLayout<SS(!new), C(!new)>(rd: Readers<SS, C>, wr: Writers<SS, C>, d: BinaryImage<SS, C>,
                                        rest: seq<Byte>)
    requires SectionsRoundTrip(rd, wr) && Dumpable(d)
    ensures ParseFromHeader(rd, NoSections, Layout(wr, d) + rest) == Ok((d, |Layout(wr, d)|))
  {
    var p0 := wr.header(HeaderOf(d));
    var p1 := wr.joinWeights(d.joinWeights);
    var p2 := wr.units(d.units);
    var p3 := wr.unitTypes(d.unitTypes);
    var p4 := wr.sampleSet(d.sts);
    var p5 := wr.sampleSet(d.mcep);
    var p6 := wr.carts(d.carts);
    var t6 := p6 + rest;
    var t5 := p5 + t6;
    var t4 := p4 + t5;
    var t3 := p3 + t4;
    var t2 := p2 + t3;
    var t1 := p1 + t2;
    var t0 := p0 + t1;
    ReadBack(rd.header, wr.header, _ => true, HeaderOf(d), t1);
    ReadBack(rd.joinWeights, wr.joinWeights, Fits, d.joinWeights, t2);
    ReadBack(rd.units, wr.units, Fits, d.units, t3);
    ReadBack(rd.unitTypes, wr.unitTypes, ShortNames, d.unitTypes, t4);
    ReadBack(rd.sampleSet, wr.sampleSet, _ => true, d.sts, t5);
    ReadBack(rd.sampleSet, wr.sampleSet, _ => true, d.mcep, t6);
    ReadBack(rd.carts, wr.carts, ShortKeys, d.carts, rest);
    AppendAssoc(p5, p6, rest);
    AppendAssoc(p4, p5 + p6, rest);
    AppendAssoc(p3, p4 + (p5 + p6), rest);
    AppendAssoc(p2, p3 + (p4 + (p5 + p6)), rest);
    AppendAssoc(p1, p2 + (p3 + (p4 + (p5 + p6))), rest);
    AppendAssoc(p0, p1 + (p2 + (p3 + (p4 + (p5 + p6)))), rest);
    ParseSectionsParts(rd, d, Layout(wr, d) + rest, |p0|, t1, |p1|, t2, |p2|, t3, |p3|, t4, |p4|, t5, |p5|,
                       t6, |p6|, |Layout(wr, d)|);
  }

  // What ClusterUnitDatabase's own readers and writers do, section by section.

  lemma HeaderRoundTrip<SS(!new), C(!new)>(codec: BinaryCodec<SS, C>)
    ensures Decodes(BinaryReaders(codec).header, BinaryWriters(codec).header, _ => true)
  {
    forall h: Header, rest: seq<Byte>
      ensures BinaryReaders(codec).header(BinaryWriters(codec).header(h) + rest) == Ok((h, |HeaderBytes(h)|))
    {
      ParseHeaderBytes(h, rest);
    }
  }

  lemma WeightsRoundTrip<SS(!new), C(!new)>(codec: BinaryCodec<SS, C>)
    ensures Decodes(BinaryReaders(codec).joinWeights, BinaryWriters(codec).joinWeights, Fits)
  {
    IntItemDecodes();
    forall ws: seq<Int32>, rest: seq<Byte> | Fits(ws)
      ensures BinaryReaders(codec).joinWeights(BinaryWriters(codec).joinWeights(ws) + rest)
        == Ok((ws, |ArrayBytes(IntEnc, ws)|))
    {
      ParseArrayBytes(IntItem, IntEnc, _ => true, ws, rest);
    }
  }

  lemma UnitsRoundTrip<SS(!new), C(!new)>(codec: BinaryCodec<SS, C>)
    ensures Decodes(BinaryReaders(codec).units, BinaryWriters(codec).units, Fits)
  {
    UnitItemDecodes();
    forall us: seq<DatabaseClusterUnit>, rest: seq<Byte> | Fits(us)
      ensures BinaryReaders(codec).units(BinaryWriters(codec).units(us) + rest)
        == Ok((us, |ArrayBytes(UnitBytes, us)|))
    {
      ParseArrayBytes(UnitItem, UnitBytes, _ => true, us, rest);
    }
  }

  lemma UnitTypesRoundTrip<SS(!new), C(!new)>(codec: BinaryCodec<SS, C>)
    ensures Decodes(BinaryReaders(codec).unitTypes, BinaryWriters(codec).unitTypes, ShortNames)
  {
    UnitTypeItemDecodes();
    forall ts: seq<UnitType>, rest: seq<Byte> | ShortNames(ts)
      ensures BinaryReaders(codec).unitTypes(BinaryWriters(codec).unitTypes(ts) + rest)
        == Ok((ts, |ArrayBytes(UnitTypeBytes, ts)|))
    {
      ParseArrayBytes(UnitTypeItem, UnitTypeBytes, ShortName, ts, rest);
    }
  }

  lemma SampleSetRoundTrip<SS(!new), C(!new)>(codec: BinaryCodec<SS, C>)
    requires Decodes(codec.readSampleSet, codec.writeSampleSet, _ => true)
    ensures Decodes(BinaryReaders(codec).sampleSet, BinaryWriters(codec).sampleSet, _ => true)
  {
    forall s: SS, rest: seq<Byte>
      ensures BinaryReaders(codec).sampleSet(BinaryWriters(codec).sampleSet(s) + rest)
        == Ok((s, |codec.writeSampleSet(s)|))
    {
      assert codec.readSampleSet(codec.writeSampleSet(s) + rest) == Ok((s, |codec.writeSampleSet(s)|));
    }
  }

  lemma ParseCartsBytes<C(!new)>(readCart: Decoder<C>, writeCart: C -> seq<Byte>, carts: seq<(JString, C)>,
                                 rest: seq<Byte>)
    requires ShortKeys(carts) && Decodes(readCart, writeCart, _ => true)
    ensures ParseCarts(readCart, ArrayBytes(CartEntryBytes(writeCart), carts) + rest)
      == Ok((carts, |ArrayBytes(CartEntryBytes(writeCart), carts)|))
  {
    CartEntryDecodes(readCart, writeCart);
    ParseCountedBytes(CartEntryItem(readCart), CartEntryBytes(writeCart), ShortKey, carts, rest);
  }

  lemma CartsRoundTrip<SS(!new), C(!new)>(codec: BinaryCodec<SS, C>)
    requires Decodes(codec.readCart, codec.writeCart, _ => true)
    ensures Decodes(BinaryReaders(codec).carts, BinaryWriters(codec).carts, ShortKeys)
  {
    forall cs: seq<(JString, C)>, rest: seq<Byte> | ShortKeys(cs)
      ensures BinaryReaders(codec).carts(BinaryWriters(codec).carts(cs) + rest)
        == Ok((cs, |ArrayBytes(CartEntryBytes(codec.writeCart), cs)|))
    {
      ParseCartsBytes(codec.readCart, codec.writeCart, cs, rest);
    }
  }

  /**
   * `loadBinary` reads back exactly what `dumpBinary` wrote, whatever follows
   * it, for every database whose arrays Java can hold and whose names fit the
   * string codec, provided the sample sets and CARTs read back their own bytes.
   */
  lemma ParseImageBytes<SS(!new), C(!new)>(d: BinaryImage<SS, C>, codec: BinaryCodec<SS, C>, rest: seq<Byte>)
    requires Dumpable(d) && CodecRoundTrips(codec)
    ensures ParseImage(ImageBytes(d, codec) + rest, codec) == Ok((d, |ImageBytes(d, codec)|))
  {
    HeaderRoundTrip(codec);
    WeightsRoundTrip(codec);
    UnitsRoundTrip(codec);
    UnitTypesRoundTrip(codec);
    SampleSetRoundTrip(codec);
    CartsRoundTrip(codec);
    ParseLayout(BinaryReaders(codec), BinaryWriters(codec), d, rest);
  }
}

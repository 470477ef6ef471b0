/**
 * ClusterUnitDatabase: the unit and unit-type tables of a cluster unit
 * voice, its join settings and its CARTs, with the lookups the unit
 * selector uses and the text and binary loaders.
 */
module ClusterUnits {
  import opened Wrappers
  import opened JavaLang
  import opened Streams
  import opened Utilities
  import opened ClusterUnitRecords
  import opened ClusterUnitFormat
  import opened ClusterUnitText

  // ---------------------------------------------------------------------
  // Lookups, as values

  /** Strictly increasing names: the order the binary search relies on. */
  predicate SortedByName(ts: seq<UnitType>) {
    forall i, j :: 0 <= i < j < |ts| ==> CompareTo(ts[i].name, ts[j].name) < 0
  }

  /**
   * The binary search of `getUnitTypeIndex` over `ts[lo..hi]`: an index
   * holding `name`, or -1.
   */
  function TypeSearch(ts: seq<UnitType>, name: JString, lo: nat, hi: nat): (r: int)
    requires lo <= hi <= |ts|
    ensures r == -1 || (lo <= r < hi && ts[r].name == name)
    decreases hi - lo
  {
    if lo >= hi then -1
    else
      var mid := (lo + hi) / 2;
      var c := CompareTo(ts[mid].name, name);
      CompareToZero(ts[mid].name, name);
      if c == 0 then mid
      else if c > 0 then TypeSearch(ts, name, lo, mid)
      else TypeSearch(ts, name, mid + 1, hi)
  }

  /** What `getUnitTypeIndex(name)` returns. */
  function TypeIndex(ts: seq<UnitType>, name: JString): int {
    TypeSearch(ts, name, 0, |ts|)
  }

  /** On sorted names the search finds every name that is there, at its one index. */
  lemma {:induction false} TypeSearchFinds(ts: seq<UnitType>, name: JString, lo: nat, hi: nat, k: nat)
    requires SortedByName(ts) && lo <= k < hi <= |ts| && ts[k].name == name
    ensures TypeSearch(ts, name, lo, hi) == k
    decreases hi - lo
  {
    var mid := (lo + hi) / 2;
    var c := CompareTo(ts[mid].name, name);
    CompareToZero(ts[mid].name, name);
    if c == 0 {
      // Equal names sit at one index only.
      CompareToZero(ts[mid].name, ts[k].name);
      CompareToZero(ts[k].name, ts[mid].name);
    } else if c > 0 {
      TypeSearchFinds(ts, name, lo, mid, k);
    } else {
      if k < mid {
        assert CompareTo(ts[k].name, ts[mid].name) < 0;
        CompareToAntisymmetric(ts[k].name, ts[mid].name);
      }
      TypeSearchFinds(ts, name, mid + 1, hi, k);
    }
  }

  /**
   * `getUnitTypeIndex` returns -1 or an index holding the name, and on
   * sorted names -1 exactly when the name is absent.
   */
  lemma TypeIndexCorrect(ts: seq<UnitType>, name: JString)
    ensures TypeIndex(ts, name) == -1 || (0 <= TypeIndex(ts, name) < |ts| && ts[TypeIndex(ts, name)].name == name)
    ensures SortedByName(ts) ==>
      (TypeIndex(ts, name) == -1 <==> forall i :: 0 <= i < |ts| ==> ts[i].name != name)
  {
    if SortedByName(ts) && exists i :: 0 <= i < |ts| && ts[i].name == name {
      var k :| 0 <= k < |ts| && ts[k].name == name;
      TypeSearchFinds(ts, name, 0, |ts|, k);
    }
  }

  /**
   * What `getUnitIndex(unitType, instance)` returns: the start of the type
   * plus the instance, with an unknown type read as type 0 and an instance
   * past the count as instance 0. Without unit types `unitTypes[0]` throws.
   */
  function UnitIndex(ts: seq<UnitType>, unitType: JString, instance: Int32): Result<int, JavaError> {
    var found := TypeIndex(ts, unitType);
    var i := if found == -1 then 0 else found;
    if i >= |ts| then Err(IndexOutOfBounds)
    else
      var inst := if instance >= ts[i].count then 0 else instance;
      Ok(WrapInt32(ts[i].start + inst))
  }

  /** A type that is there resolves to its own range; a negative instance is not clamped. */
  lemma UnitIndexOfType(ts: seq<UnitType>, k: nat, instance: Int32)
    requires SortedByName(ts) && k < |ts| && instance < ts[k].count
    ensures UnitIndex(ts, ts[k].name, instance) == Ok(WrapInt32(ts[k].start + instance))
  {
    TypeSearchFinds(ts, ts[k].name, 0, |ts|, k);
  }

  /** An unknown type falls back to type 0; the lookup fails only without unit types. */
  lemma UnitIndexFallsBack(ts: seq<UnitType>, unitType: JString, instance: Int32)
    requires SortedByName(ts) && forall i :: 0 <= i < |ts| ==> ts[i].name != unitType
    ensures |ts| == 0 ==> UnitIndex(ts, unitType, instance) == Err(IndexOutOfBounds)
    ensures |ts| > 0 ==>
      UnitIndex(ts, unitType, instance) == Ok(WrapInt32(ts[0].start + if instance >= ts[0].count then 0 else instance))
  {
  }

  const UNDERSCORE: JChar := '_' as int

  /**
   * What `getUnitIndexName(name)` returns: -1 without an underscore;
   * otherwise the name is split at its last underscore into a type and an
   * instance number, which must parse.
   */
  function UnitIndexName(ts: seq<UnitType>, name: JString): Result<int, JavaError> {
    var lastIndex := LastIndexOf(name, UNDERSCORE);
    if lastIndex == -1 then Ok(-1)
    else
      match ParseInt(name[lastIndex + 1..])
      case None => Err(NumberFormat)
      case Some(index) => UnitIndex(ts, name[..lastIndex], index)
  }

  /** The name of instance `n` of a unit type, as unit names are written. */
  function UnitName(t: UnitType, n: int): JString {
    t.name + [UNDERSCORE] + IntToString(n)
  }

  /** A unit name resolves to its unit, whatever underscores the type name holds. */
  lemma UnitIndexNameOf(ts: seq<UnitType>, k: nat, n: Int32)
    requires SortedByName(ts) && k < |ts| && 0 <= n < ts[k].count
    ensures UnitIndexName(ts, UnitName(ts[k], n)) == Ok(WrapInt32(ts[k].start + n))
  {
    var t := ts[k];
    var name := UnitName(t, n);
    var digits := IntToString(n);
    assert UNDERSCORE !in digits by {
      IntToStringIsToken(n, {UNDERSCORE});
    }
    LastIndexOfAppend(t.name + [UNDERSCORE], digits, UNDERSCORE);
    assert name[|t.name| + 1..] == digits;
    assert name[..|t.name|] == t.name;
    ParseIntToString(n);
    UnitIndexOfType(ts, k, n);
  }

  /** The last `c` of `a + b` is the last of `a` when `b` holds none. */
  lemma {:induction false} LastIndexOfAppend(a: JString, b: JString, c: JChar)
    requires c !in b && |a| > 0 && a[|a| - 1] == c
    ensures LastIndexOf(a + b, c) == |a| - 1
    decreases |b|
  {
    if |b| > 0 {
      assert (a + b)[..|a + b| - 1] == a + b[..|b| - 1];
      LastIndexOfAppend(a, b[..|b| - 1], c);
    } else {
      assert a + b == a;
    }
  }

  /** What `getTree(unitType)` returns: the named CART, or the default one. */
  function Tree<SS, C>(img: DbImage<SS, C>, unitType: JString): Option<C> {
    if unitType in img.cartMap then Some(img.cartMap[unitType]) else img.defaultCart
  }

  /**
   * After a text load, `getTree` finds a CART for every unit type once any
   * CART was read: the default is the one set before, or else the first
   * CART the file lists.
   */
  lemma TreeAfterLoadText<SS, C>(img: DbImage<SS, C>, input: Option<seq<JString>>, codec: TextCodec<SS, C>,
                                 unitType: JString)
    requires img.defaultCart.None? ==> |img.cartMap| == 0
    requires LoadTextImage(img, input, codec).Ok?
    ensures var r := LoadTextImage(img, input, codec).value;
      |r.cartMap| > 0 ==> Tree(r, unitType).Some?
    ensures var r := LoadTextImage(img, input, codec).value;
      img.defaultCart.Some? ==> r.defaultCart == img.defaultCart
    ensures var r := LoadTextImage(img, input, codec).value;
      img.defaultCart.None? ==> r.defaultCart == FirstCart(img.(units := [], unitTypes := []), input.value, codec)
  {
    var start := img.(units := [], unitTypes := []);
    LoadLinesExtends(start, input.value, codec);
    if img.defaultCart.None? {
      DefaultIsFirstCart(start, input.value, codec);
    }
    var r := LoadTextImage(img, input, codec).value;
    if |r.cartMap| > 0 && start.defaultCart.None? {
      assert |start.cartMap| == 0;
      assert r.cartMap.Keys != start.cartMap.Keys by {
        var k :| k in r.cartMap;
      }
    }
  }

  // ---------------------------------------------------------------------
  // The binary form, installed into a database

  /** The map the CART loop builds: later entries of a name replace earlier ones. */
  function CartMap<C>(cs: seq<(JString, C)>): map<JString, C> {
    if |cs| == 0 then map[] else CartMap(cs[..|cs| - 1])[cs[|cs| - 1].0 := cs[|cs| - 1].1]
  }

  /** The default CART after the CART loop: the one already set, else the first read. */
  function DefaultAfter<C>(default: Option<C>, cs: seq<(JString, C)>): Option<C> {
    if default.Some? then default else if |cs| > 0 then Some(cs[0].1) else None
  }

  /** One more pass of the CART loop. */
  lemma CartLoopStep<C>(default: Option<C>, cs: seq<(JString, C)>, name: JString, cart: C)
    ensures CartMap(cs + [(name, cart)]) == CartMap(cs)[name := cart]
    ensures DefaultAfter(default, cs + [(name, cart)])
      == if DefaultAfter(default, cs).None? then Some(cart) else DefaultAfter(default, cs)
  {
  }

  /** A database after `loadBinary` has read `bi` into it. */
  function Installed<SS, C>(img: DbImage<SS, C>, bi: BinaryImage<SS, C>): DbImage<SS, C> {
    DbImage(bi.units, bi.unitTypes, Some(bi.sts), Some(bi.mcep), bi.continuityWeight, bi.optimalCoupling,
            bi.extendSelections, bi.joinMethod, Some(bi.joinWeights), bi.joinWeightShift,
            CartMap(bi.carts), DefaultAfter(img.defaultCart, bi.carts))
  }

  /** Installing an image keeps only the default CART of the state it is installed over. */
  lemma InstalledSameDefault<SS, C>(a: DbImage<SS, C>, b: DbImage<SS, C>, bi: BinaryImage<SS, C>)
    requires a.defaultCart == b.defaultCart
    ensures Installed(a, bi) == Installed(b, bi)
  {
  }

  /** `img` holds the header fields `h`. */
  predicate HoldsHeader<SS, C>(img: DbImage<SS, C>, h: Header) {
    && img.continuityWeight == h.continuityWeight && img.optimalCoupling == h.optimalCoupling
    && img.extendSelections == h.extendSelections && img.joinMethod == h.joinMethod
    && img.joinWeightShift == h.joinWeightShift
  }

  /** `img` holds the sections `loadBinary` has read before the sample sets. */
  predicate HoldsSections<SS, C>(img: DbImage<SS, C>, read: Sections) {
    HoldsHeader(img, read.header) && img.joinWeights == Some(read.joinWeights)
    && img.units == read.units && img.unitTypes == read.unitTypes
  }

  /** Storing the sample sets and the CARTs after those sections installs the whole image. */
  lemma InstalledTail<SS, C>(img: DbImage<SS, C>, read: Sections, sts: SS, mcep: SS, cs: seq<(JString, C)>)
    requires HoldsSections(img, read)
    ensures Installed(img, Complete(read, sts, mcep, cs))
      == img.(sts := Some(sts), mcep := Some(mcep), cartMap := CartMap(cs), defaultCart := DefaultAfter(img.defaultCart, cs))
  {
  }

  /** The entries of `m` in the order `names` lists their keys. */
  function CartEntries<C>(m: map<JString, C>, names: seq<JString>): (r: seq<(JString, C)>)
    requires forall i :: 0 <= i < |names| ==> names[i] in m
    ensures |r| == |names|
    ensures forall i :: 0 <= i < |names| ==> r[i] == (names[i], m[names[i]])
  {
    seq(|names|, i requires 0 <= i < |names| => (names[i], m[names[i]]))
  }

  /** An order in which a HashMap may hand out the keys of `m`: each key once. */
  predicate KeyOrder<C>(m: map<JString, C>, names: seq<JString>) {
    && (forall i, j :: 0 <= i < j < |names| ==> names[i] != names[j])
    && m.Keys == set k | k in names
  }

  /** What `dumpBinary` writes of a database with all its parts, CARTs in the order `names`. */
  function BinaryOf<SS, C>(img: DbImage<SS, C>, names: seq<JString>): BinaryImage<SS, C>
    requires img.joinWeights.Some? && img.sts.Some? && img.mcep.Some?
    requires KeyOrder(img.cartMap, names)
  {
    BinaryImage(img.continuityWeight, img.optimalCoupling, img.extendSelections, img.joinMethod,
                img.joinWeightShift, img.joinWeights.value, img.units, img.unitTypes, img.sts.value,
                img.mcep.value, CartEntries(img.cartMap, names))
  }

  /** Rebuilding a map from its entries, each key once, gives the map back. */
  lemma {:induction false} CartMapOfEntries<C>(m: map<JString, C>, names: seq<JString>, n: nat)
    requires n <= |names| && forall i, j :: 0 <= i < j < |names| ==> names[i] != names[j]
    requires forall i :: 0 <= i < |names| ==> names[i] in m
    ensures CartMap(seq(n, i requires 0 <= i < n => (names[i], m[names[i]])))
      == map k | k in names[..n] :: m[k]
  {
    var cs := seq(n, i requires 0 <= i < n => (names[i], m[names[i]]));
    if n > 0 {
      CartMapOfEntries(m, names, n - 1);
      assert cs[..n - 1] == seq(n - 1, i requires 0 <= i < n - 1 => (names[i], m[names[i]]));
      assert names[..n] == names[..n - 1] + [names[n - 1]];
    }
  }

  /**
   * Dump then load gives the database back, except that the default CART
   * is not saved: it becomes the CART dumped first.
   */
  lemma DumpThenLoad<SS(!new), C(!new)>(img: DbImage<SS, C>, names: seq<JString>, codec: BinaryCodec<SS, C>,
                                        rest: seq<Byte>)
    requires img.joinWeights.Some? && img.sts.Some? && img.mcep.Some? && KeyOrder(img.cartMap, names)
    requires Dumpable(BinaryOf(img, names)) && CodecRoundTrips(codec)
    ensures var bytes := ImageBytes(BinaryOf(img, names), codec);
      ParseImage(bytes + rest, codec) == Ok((BinaryOf(img, names), |bytes|))
    ensures Installed(EmptyImage(), BinaryOf(img, names))
      == img.(defaultCart := if |names| > 0 then Some(img.cartMap[names[0]]) else None)
  {
    ParseImageBytes(BinaryOf(img, names), codec, rest);
    InstalledBinaryOf(img, names);
  }

  lemma InstalledBinaryOf<SS, C>(img: DbImage<SS, C>, names: seq<JString>)
    requires img.joinWeights.Some? && img.sts.Some? && img.mcep.Some? && KeyOrder(img.cartMap, names)
    ensures Installed(EmptyImage(), BinaryOf(img, names))
      == img.(defaultCart := if |names| > 0 then Some(img.cartMap[names[0]]) else None)
  {
    CartMapOfEntries(img.cartMap, names, |names|);
    assert names[..|names|] == names;
    assert CartEntries(img.cartMap, names) == seq(|names|, i requires 0 <= i < |names| => (names[i], img.cartMap[names[i]]));
    assert (map k | k in names :: img.cartMap[k]) == img.cartMap;
  }

  // ---------------------------------------------------------------------
  // Reading the sections of the binary form

  /** The magic and version check and the header ints of `loadBinary`. */
  method ReadHeader(dis: DataInput) returns (r: Result<Header, LoadError>)
    requires dis.Valid()
    modifies dis
    ensures dis.Valid()
    ensures match ParseHeader(old(dis.Remaining()))
      case Ok((h, n)) => r == Ok(h) && dis.pos == old(dis.pos) + n
      case Err(e) => r == Err(e)
  {
    ghost var p := dis.pos;
    ghost var bs := dis.data[p..];
    var magic := dis.ReadInt();
    if magic.None? {
      return Err(Thrown(EndOfStream));
    }
    assert dis.data[p..][..4] == bs[0..4];
    if magic.value != MAGIC {
      return Err(BadMagic);
    }
    var version := dis.ReadInt();
    if version.None? {
      return Err(Thrown(EndOfStream));
    }
    assert dis.data[p + 4..][..4] == bs[4..8];
    if version.value != VERSION {
      return Err(BadVersion);
    }
    if |dis.data| - dis.pos < 20 {
      return Err(Thrown(EndOfStream));
    }
    var continuityWeight := dis.ReadInt();
    assert dis.data[p + 8..][..4] == bs[8..12];
    var optimalCoupling := dis.ReadInt();
    assert dis.data[p + 12..][..4] == bs[12..16];
    var extendSelections := dis.ReadInt();
    assert dis.data[p + 16..][..4] == bs[16..20];
    var joinMethod := dis.ReadInt();
    assert dis.data[p + 20..][..4] == bs[20..24];
    var joinWeightShift := dis.ReadInt();
    assert dis.data[p + 24..][..4] == bs[24..28];
    r := Ok(Header(continuityWeight.value, optimalCoupling.value, extendSelections.value, joinMethod.value,
                   joinWeightShift.value));
  }

  /** The array length `loadBinary` reads before each array. */
  method ReadLength(dis: DataInput) returns (r: Result<nat, JavaError>)
    requires dis.Valid()
    modifies dis
    ensures dis.Valid()
    ensures |old(dis.Remaining())| < 4 ==> r == Err(EndOfStream)
    ensures |old(dis.Remaining())| >= 4 ==>
      var n := BytesInt(old(dis.Remaining())[..4]);
      (n < 0 ==> r == Err(NegativeArraySize)) && (n >= 0 ==> r == Ok(n) && dis.pos == old(dis.pos) + 4)
  {
    var n := dis.ReadInt();
    if n.None? {
      return Err(EndOfStream);
    }
    if n.value < 0 {
      return Err(NegativeArraySize);
    }
    r := Ok(n.value);
  }

  /** The join weights of `loadBinary`: a length, then that many ints. */
  method ReadJoinWeights(dis: DataInput) returns (r: Result<seq<Int32>, JavaError>)
    requires dis.Valid()
    modifies dis
    ensures dis.Valid()
    ensures match ParseArray(IntItem, old(dis.Remaining()))
      case Ok((xs, k)) => r == Ok(xs) && dis.pos == old(dis.pos) + k
      case Err(e) => r == Err(e)
  {
    ghost var bs := dis.Remaining();
    var length := ReadLength(dis);
    if length.Err? {
      return Err(length.error);
    }
    assert dis.Remaining() == bs[4..];
    r := ReadRecords(dis, IntItem, length.value);
  }

  /** The units of `loadBinary`: a length, then that many unit records. */
  method ReadUnits(dis: DataInput) returns (r: Result<seq<DatabaseClusterUnit>, JavaError>)
    requires dis.Valid()
    modifies dis
    ensures dis.Valid()
    ensures match ParseArray(UnitItem, old(dis.Remaining()))
      case Ok((xs, k)) => r == Ok(xs) && dis.pos == old(dis.pos) + k
      case Err(e) => r == Err(e)
  {
    ghost var bs := dis.Remaining();
    var length := ReadLength(dis);
    if length.Err? {
      return Err(length.error);
    }
    assert dis.Remaining() == bs[4..];
    r := ReadRecords(dis, UnitItem, length.value);
  }

  /** The unit types of `loadBinary`: a length, then that many unit type records. */
  method ReadUnitTypes(dis: DataInput) returns (r: Result<seq<UnitType>, JavaError>)
    requires dis.Valid()
    modifies dis
    ensures dis.Valid()
    ensures match ParseArray(UnitTypeItem, old(dis.Remaining()))
      case Ok((xs, k)) => r == Ok(xs) && dis.pos == old(dis.pos) + k
      case Err(e) => r == Err(e)
  {
    ghost var bs := dis.Remaining();
    var length := ReadLength(dis);
    if length.Err? {
      return Err(length.error);
    }
    assert dis.Remaining() == bs[4..];
    r := ReadRecords(dis, UnitTypeItem, length.value);
  }

  /** One pass of the CART loop of `loadBinary`: `Utilities.getString`, then `CARTImpl.loadBinary`. */
  method ReadCartEntry<C>(dis: DataInput, readCart: Decoder<C>) returns (r: Result<(JString, C), JavaError>)
    requires dis.Valid()
    modifies dis
    ensures dis.Valid()
    ensures match Step(CartEntryItem(readCart), old(dis.Remaining()))
      case Ok((e, n)) => r == Ok(e) && dis.pos == old(dis.pos) + n
      case Err(e) => r == Err(e)
  {
    ghost var p := dis.pos;
    CartEntryStep(readCart, dis.data[p..]);
    var name := GetString(dis);
    if name.Err? {
      return Err(name.error);
    }
    assert dis.data[p..][dis.pos - p..] == dis.data[dis.pos..];
    var cart := dis.ReadWith(readCart);
    if cart.Err? {
      return Err(cart.error);
    }
    r := Ok((name.value, cart.value));
  }

  /**
   * One pass of the CART loop: the next entry is read and put into the
   * map, and becomes the default CART if there is none yet. `cs` are the
   * entries read since `start`.
   */
  method ReadCartStep<C>(dis: DataInput, item: Decoder<(JString, C)>, ghost start: nat, ghost i: nat,
                         ghost cs: seq<(JString, C)>, carts: map<JString, C>, default: Option<C>,
                         ghost defaultCart: Option<C>)
    returns (r: Result<(map<JString, C>, Option<C>), JavaError>, ghost cs': seq<(JString, C)>)
    requires dis.Valid() && start <= dis.pos
    requires ParseMany(item, dis.data[start..], i) == Ok((cs, dis.pos - start))
    requires carts == CartMap(cs) && default == DefaultAfter(defaultCart, cs)
    modifies dis
    ensures dis.Valid()
    ensures r.Err? ==> ParseMany(item, dis.data[start..], i + 1) == Err(r.error)
    ensures r.Ok? ==>
      && start <= dis.pos
      && ParseMany(item, dis.data[start..], i + 1) == Ok((cs', dis.pos - start))
      && r.value == (CartMap(cs'), DefaultAfter(defaultCart, cs'))
  {
    ghost var k := dis.pos - start;
    ghost var bs := dis.data[start..];
    assert bs[k..] == dis.Remaining();
    ParseManyNext(item, bs, i, cs, k);
    var entry := dis.ReadWith(item);
    if entry.Err? {
      return Err(entry.error), cs;
    }
    assert Step(item, bs[k..]) == Ok((entry.value, dis.pos - start - k));
    cs' := cs + [entry.value];
    assert ParseMany(item, bs, i + 1) == Ok((cs', dis.pos - start));
    CartLoopStep(defaultCart, cs, entry.value.0, entry.value.1);
    r := Ok((carts[entry.value.0 := entry.value.1], if default.None? then Some(entry.value.1) else default));
  }

  /**
   * The loop of `ClusterUnitDatabase.ReadCarts`, over one CART entry reader
   * (`ReadCartEntry` shows that `Utilities.getString` followed by
   * `CARTImpl.loadBinary` reads `Step(CartEntryItem(readCart), _)`): the map
   * the entries are put into and the default CART once the loop is done.
   */
  method ReadCartLoop<C>(dis: DataInput, item: Decoder<(JString, C)>, numCarts: int, defaultCart: Option<C>)
    returns (r: Result<(map<JString, C>, Option<C>), JavaError>)
    requires dis.Valid()
    modifies dis
    ensures dis.Valid()
    ensures match ParseMany(item, old(dis.Remaining()), if numCarts < 0 then 0 else numCarts)
      case Ok((cs, n)) => r == Ok((CartMap(cs), DefaultAfter(defaultCart, cs))) && dis.pos == old(dis.pos) + n
      case Err(e) => r == Err(e)
  {
    ghost var start := dis.pos;
    ghost var n: nat := if numCarts < 0 then 0 else numCarts;
    ghost var cs: seq<(JString, C)> := [];
    var carts: map<JString, C> := map[];
    var default := defaultCart;
    var i := 0;
    while i < numCarts
      invariant 0 <= i <= n && dis.Valid() && start <= dis.pos
      invariant ParseMany(item, dis.data[start..], i) == Ok((cs, dis.pos - start))
      invariant carts == CartMap(cs)
      invariant default == DefaultAfter(defaultCart, cs)
    {
      var step, cs' := ReadCartStep(dis, item, start, i, cs, carts, default, defaultCart);
      if step.Err? {
        ParseManyStops(item, dis.data[start..], i + 1, n);
        return Err(step.error);
      }
      carts, default := step.value.0, step.value.1;
      cs := cs';
      i := i + 1;
    }
    assert i == n;
    assert dis.data[start..] == old(dis.Remaining());
    r := Ok((carts, default));
  }

  /** The two sample sets of `loadBinary`, read one after the other: first `sts`, then `mcep`. */
  method ReadSampleSets<SS>(dis: DataInput, readSampleSet: Decoder<SS>) returns (r: Result<(SS, SS), JavaError>)
    requires dis.Valid()
    modifies dis
    ensures dis.Valid()
    ensures match SampleSetPair(readSampleSet, old(dis.Remaining()))
      case Ok((sets, n)) => r == Ok(sets) && dis.pos == old(dis.pos) + n
      case Err(e) => r == Err(e)
  {
    ghost var bs := dis.Remaining();
    ghost var p0 := dis.pos;
    var sts := dis.ReadWith(readSampleSet);
    if sts.Err? {
      return Err(sts.error);
    }
    assert bs[dis.pos - p0..] == dis.Remaining();
    var mcep := dis.ReadWith(readSampleSet);
    if mcep.Err? {
      return Err(mcep.error);
    }
    r := Ok((sts.value, mcep.value));
  }

  // `rd` reads each section the way the methods of `loadBinary` below do.

  ghost predicate ReadsHeader<SS, C>(rd: Readers<SS, C>) {
    forall t :: Read(rd.header, t) == ParseHeader(t)
  }

  ghost predicate ReadsJoinWeights<SS, C>(rd: Readers<SS, C>) {
    forall t :: Read(rd.joinWeights, t) == Lift(ParseArray(IntItem, t))
  }

  ghost predicate ReadsUnits<SS, C>(rd: Readers<SS, C>) {
    forall t :: Read(rd.units, t) == Lift(ParseArray(UnitItem, t))
  }

  ghost predicate ReadsUnitTypes<SS, C>(rd: Readers<SS, C>) {
    forall t :: Read(rd.unitTypes, t) == Lift(ParseArray(UnitTypeItem, t))
  }

  ghost predicate ReadsTail<SS, C>(rd: Readers<SS, C>, codec: BinaryCodec<SS, C>) {
    && (forall t :: Read(rd.sampleSet, t) == Lift(Step(codec.readSampleSet, t)))
    && (forall t :: Read(rd.carts, t) == Lift(ParseCarts(codec.readCart, t)))
  }

  ghost predicate ReadsLike<SS, C>(rd: Readers<SS, C>, codec: BinaryCodec<SS, C>) {
    ReadsHeader(rd) && ReadsJoinWeights(rd) && ReadsUnits(rd) && ReadsUnitTypes(rd) && ReadsTail(rd, codec)
  }

  // Each section read the way `LoadBinary` reads it.

  lemma HeaderStep<SS, C>(rd: Readers<SS, C>, read: Sections, bs: seq<Byte>)
    requires ReadsHeader(rd)
    ensures ParseHeader(bs).Err? ==> ParseFromHeader(rd, read, bs) == Err(ParseHeader(bs).error)
    ensures ParseHeader(bs).Ok? ==>
      var k := ParseHeader(bs).value.1;
      ParseFromHeader(rd, read, bs)
        == After(ParseFromJoinWeights(rd, read.(header := ParseHeader(bs).value.0), bs[k..]), k)
  {
  }

  lemma JoinWeightsStep<SS, C>(rd: Readers<SS, C>, read: Sections, bs: seq<Byte>)
    requires ReadsJoinWeights(rd)
    ensures ParseArray(IntItem, bs).Err? ==> ParseFromJoinWeights(rd, read, bs) == Err(Thrown(ParseArray(IntItem, bs).error))
    ensures ParseArray(IntItem, bs).Ok? ==>
      var k := ParseArray(IntItem, bs).value.1;
      ParseFromJoinWeights(rd, read, bs)
        == After(ParseFromUnits(rd, read.(joinWeights := ParseArray(IntItem, bs).value.0), bs[k..]), k)
  {
  }

  lemma UnitsStep<SS, C>(rd: Readers<SS, C>, read: Sections, bs: seq<Byte>)
    requires ReadsUnits(rd)
    ensures ParseArray(UnitItem, bs).Err? ==> ParseFromUnits(rd, read, bs) == Err(Thrown(ParseArray(UnitItem, bs).error))
    ensures ParseArray(UnitItem, bs).Ok? ==>
      var k := ParseArray(UnitItem, bs).value.1;
      ParseFromUnits(rd, read, bs)
        == After(ParseFromUnitTypes(rd, read.(units := ParseArray(UnitItem, bs).value.0), bs[k..]), k)
  {
  }

  lemma UnitTypesStep<SS, C>(rd: Readers<SS, C>, read: Sections, bs: seq<Byte>)
    requires ReadsUnitTypes(rd)
    ensures ParseArray(UnitTypeItem, bs).Err? ==> ParseFromUnitTypes(rd, read, bs) == Err(Thrown(ParseArray(UnitTypeItem, bs).error))
    ensures ParseArray(UnitTypeItem, bs).Ok? ==>
      var k := ParseArray(UnitTypeItem, bs).value.1;
      ParseFromUnitTypes(rd, read, bs)
        == After(ParseFromSampleSets(rd, read.(unitTypes := ParseArray(UnitTypeItem, bs).value.0), bs[k..]), k)
  {
  }

  lemma AfterAfter<T>(r: Result<(T, nat), LoadError>, a: nat, b: nat)
    ensures After(After(r, a), b) == After(r, a + b)
  {
  }

  /** `sts` and then `mcep`: the two sample sets of the binary form, and the bytes they take. */
  function SampleSetPair<SS>(readSampleSet: Decoder<SS>, bs: seq<Byte>): (r: Result<((SS, SS), nat), JavaError>)
    ensures r.Ok? ==> r.value.1 <= |bs|
  {
    match Step(readSampleSet, bs)
    case Err(e) => Err(e)
    case Ok((sts, k1)) =>
      match Step(readSampleSet, bs[k1..])
      case Err(e) => Err(e)
      case Ok((mcep, k2)) => Ok(((sts, mcep), k1 + k2))
  }

  /** The sample sets and the CARTs read the way `LoadTail` reads them. */
  function TailOf<SS, C>(codec: BinaryCodec<SS, C>, read: Sections, bs: seq<Byte>)
    : Result<(BinaryImage<SS, C>, nat), LoadError>
  {
    match SampleSetPair(codec.readSampleSet, bs)
    case Err(e) => Err(Thrown(e))
    case Ok(((sts, mcep), k)) =>
      match ParseCarts(codec.readCart, bs[k..])
      case Err(e) => Err(Thrown(e))
      case Ok((cs, k3)) => Ok((Complete(read, sts, mcep, cs), k + k3))
  }

  lemma TailSections<SS, C>(rd: Readers<SS, C>, codec: BinaryCodec<SS, C>, read: Sections, bs: seq<Byte>)
    requires ReadsTail(rd, codec)
    ensures ParseFromSampleSets(rd, read, bs) == TailOf(codec, read, bs)
  {
  }

  /** The readers of the binary form are those methods. */
  lemma BinaryReadersReadLike<SS, C>(codec: BinaryCodec<SS, C>)
    ensures ReadsLike(BinaryReaders(codec), codec)
  {
  }

  /**
   * Readers that read like those methods and that `ParseImage` uses, known
   * by those two facts alone.
   */
  lemma SomeBinaryReaders<SS, C>(codec: BinaryCodec<SS, C>, bs: seq<Byte>) returns (rd: Readers<SS, C>)
    ensures ReadsLike(rd, codec)
    ensures ParseImage(bs, codec) == ParseFromHeader(rd, NoSections, bs)
  {
    rd := BinaryReaders(codec);
    BinaryReadersReadLike(codec);
  }

  // ---------------------------------------------------------------------
  // Writing the sections of the binary form

  /** `writeInt(joinWeights.length)`, then each weight. */
  method WriteWeights(os: DataOutput, ws: seq<Int32>)
    modifies os
    ensures os.bytes == old(os.bytes) + ArrayBytes(IntEnc, ws)
  {
    os.WriteInt(WrapInt32(|ws|));
    var i := 0;
    while i < |ws|
      invariant 0 <= i <= |ws|
      invariant os.bytes == old(os.bytes) + IntBytes(WrapInt32(|ws|)) + EncodeMany(IntEnc, ws[..i])
    {
      assert ws[..i + 1][..i] == ws[..i];
      os.WriteInt(ws[i]);
      i := i + 1;
    }
    assert ws[..i] == ws;
  }

  /** `writeInt(units.length)`, then `unit.dumpBinary(os)` for each unit. */
  method WriteUnits(os: DataOutput, us: seq<DatabaseClusterUnit>)
    modifies os
    ensures os.bytes == old(os.bytes) + ArrayBytes(UnitBytes, us)
  {
    os.WriteInt(WrapInt32(|us|));
    var i := 0;
    while i < |us|
      invariant 0 <= i <= |us|
      invariant os.bytes == old(os.bytes) + IntBytes(WrapInt32(|us|)) + EncodeMany(UnitBytes, us[..i])
    {
      assert us[..i + 1][..i] == us[..i];
      DumpUnit(os, us[i]);
      i := i + 1;
    }
    assert us[..i] == us;
  }

  /** `writeInt(unitTypes.length)`, then `unitType.dumpBinary(os)` for each unit type. */
  method WriteUnitTypes(os: DataOutput, ts: seq<UnitType>)
    modifies os
    ensures os.bytes == old(os.bytes) + ArrayBytes(UnitTypeBytes, ts)
  {
    os.WriteInt(WrapInt32(|ts|));
    var i := 0;
    while i < |ts|
      invariant 0 <= i <= |ts|
      invariant os.bytes == old(os.bytes) + IntBytes(WrapInt32(|ts|)) + EncodeMany(UnitTypeBytes, ts[..i])
    {
      assert ts[..i + 1][..i] == ts[..i];
      DumpUnitType(os, ts[i]);
      i := i + 1;
    }
    assert ts[..i] == ts;
  }

  /** Distinct names make a set of as many elements. */
  lemma {:induction false} DistinctCard(names: seq<JString>)
    requires forall i, j :: 0 <= i < j < |names| ==> names[i] != names[j]
    ensures |set k | k in names| == |names|
  {
    if |names| > 0 {
      var init := names[..|names| - 1];
      DistinctCard(init);
      assert (set k | k in names) == (set k | k in init) + {names[|names| - 1]};
      assert names[|names| - 1] !in init;
    }
  }

  /** A HashMap handing out its keys in the order `names` holds as many as it has entries. */
  lemma KeyOrderSize<C>(m: map<JString, C>, names: seq<JString>)
    requires KeyOrder(m, names)
    ensures |m| == |names|
  {
    DistinctCard(names);
    assert |m| == |m.Keys|;
  }

  /** The name and the CART of each entry, one after another. */
  method WriteCartEntries<C>(os: DataOutput, writeCart: C -> seq<Byte>, cs: seq<(JString, C)>)
    modifies os
    ensures os.bytes == old(os.bytes) + EncodeMany(CartEntryBytes(writeCart), cs)
  {
    var i := 0;
    while i < |cs|
      invariant 0 <= i <= |cs|
      invariant os.bytes == old(os.bytes) + EncodeMany(CartEntryBytes(writeCart), cs[..i])
    {
      var (name, cart) := cs[i];
      OutString(os, name);
      os.WriteBytes(writeCart(cart));
      assert cs[..i + 1][..i] == cs[..i];
      i := i + 1;
    }
    assert cs[..i] == cs;
  }

  /**
   * `writeInt(cartMap.size())`, then the name and the CART of each key in
   * the order the HashMap hands them out, here `names`.
   */
  method WriteCarts<C>(os: DataOutput, writeCart: C -> seq<Byte>, cartMap: map<JString, C>, names: seq<JString>)
    requires KeyOrder(cartMap, names)
    modifies os
    ensures os.bytes == old(os.bytes) + ArrayBytes(CartEntryBytes(writeCart), CartEntries(cartMap, names))
  {
    KeyOrderSize(cartMap, names);
    os.WriteInt(WrapInt32(|cartMap|));
    WriteCartEntries(os, writeCart, CartEntries(cartMap, names));
  }

  /** The bytes of the sections in file order, appended one after another to `w`. */
  lemma DumpedBytes<SS, C>(w: seq<Byte>, img: DbImage<SS, C>, names: seq<JString>, codec: BinaryCodec<SS, C>)
    requires img.joinWeights.Some? && img.sts.Some? && img.mcep.Some? && KeyOrder(img.cartMap, names)
    ensures w + ImageBytes(BinaryOf(img, names), codec)
      == w + HeaderBytes(ImageHeader(img)) + ArrayBytes(IntEnc, img.joinWeights.value) + ArrayBytes(UnitBytes, img.units)
        + ArrayBytes(UnitTypeBytes, img.unitTypes) + codec.writeSampleSet(img.sts.value)
        + codec.writeSampleSet(img.mcep.value) + ArrayBytes(CartEntryBytes(codec.writeCart), CartEntries(img.cartMap, names))
  {
    var d := BinaryOf(img, names);
    var a, b, c := HeaderBytes(ImageHeader(img)), ArrayBytes(IntEnc, img.joinWeights.value), ArrayBytes(UnitBytes, img.units);
    var e, f, g := ArrayBytes(UnitTypeBytes, img.unitTypes), codec.writeSampleSet(img.sts.value), codec.writeSampleSet(img.mcep.value);
    var h := ArrayBytes(CartEntryBytes(codec.writeCart), CartEntries(img.cartMap, names));
    assert ImageBytes(d, codec) == a + (b + (c + (e + (f + (g + h)))));
    AppendAssoc(w, a, b + (c + (e + (f + (g + h)))));
    AppendAssoc(w + a, b, c + (e + (f + (g + h))));
    AppendAssoc(w + a + b, c, e + (f + (g + h)));
    AppendAssoc(w + a + b + c, e, f + (g + h));
    AppendAssoc(w + a + b + c + e, f, g + h);
    AppendAssoc(w + a + b + c + e + f, g, h);
  }

  /** MAGIC, VERSION and the five header ints. */
  method WriteHeader(os: DataOutput, h: Header)
    modifies os
    ensures os.bytes == old(os.bytes) + HeaderBytes(h)
  {
    os.WriteInt(MAGIC);
    os.WriteInt(VERSION);
    os.WriteInt(h.continuityWeight);
    os.WriteInt(h.optimalCoupling);
    os.WriteInt(h.extendSelections);
    os.WriteInt(h.joinMethod);
    os.WriteInt(h.joinWeightShift);
  }

  /** The header fields of `img`. */
  function ImageHeader<SS, C>(img: DbImage<SS, C>): Header {
    Header(img.continuityWeight, img.optimalCoupling, img.extendSelections, img.joinMethod, img.joinWeightShift)
  }

  // ---------------------------------------------------------------------
  // The database object

  /**
   * A ClusterUnitDatabase. `unitList` and `unitTypesList` are the lists the
   * text loader collects records in before it turns them into the tables.
   */
  class ClusterUnitDatabase<SS, C> {
    var units: seq<DatabaseClusterUnit>
    var unitTypes: seq<UnitType>
    var sts: Option<SS>
    var mcep: Option<SS>
    var continuityWeight: Int32
    var optimalCoupling: Int32
    var extendSelections: Int32
    var joinMethod: Int32
    var joinWeights: Option<seq<Int32>>
    var joinWeightShift: Int32
    var cartMap: map<JString, C>
    var defaultCart: Option<C>
    var unitList: seq<DatabaseClusterUnit>
    var unitTypesList: seq<UnitType>

    /** The state the lookups and the dumper see. */
    function Image(): DbImage<SS, C>
      reads this
    {
      DbImage(units, unitTypes, sts, mcep, continuityWeight, optimalCoupling, extendSelections, joinMethod,
              joinWeights, joinWeightShift, cartMap, defaultCart)
    }

    /** The state the text loader builds: the collected records in place of the tables. */
    function TextState(): DbImage<SS, C>
      reads this
    {
      Image().(units := unitList, unitTypes := unitTypesList)
    }

    /** A database with every field at its Java default, before a loader runs. */
    constructor ()
      ensures Image() == EmptyImage() && unitList == [] && unitTypesList == []
    {
      units := [];
      unitTypes := [];
      sts := None;
      mcep := None;
      continuityWeight := 0;
      optimalCoupling := 0;
      extendSelections := 0;
      joinMethod := 0;
      joinWeights := None;
      joinWeightShift := 0;
      cartMap := map[];
      defaultCart := None;
      unitList := [];
      unitTypesList := [];
    }

    /** `getTree(unitType)`. */
    method GetTree(unitType: JString) returns (r: Option<C>)
      ensures r == Tree(Image(), unitType)
    {
      if unitType in cartMap {
        r := Some(cartMap[unitType]);
      } else {
        r := defaultCart;
      }
    }

    /** `getUnitTypeIndex(name)`: a binary search over the unit types. */
    method GetUnitTypeIndex(name: JString) returns (r: int)
      ensures r == TypeIndex(unitTypes, name)
      ensures r == -1 || (0 <= r < |unitTypes| && unitTypes[r].name == name)
    {
      var start := 0;
      var end := |unitTypes|;
      while start < end
        invariant 0 <= start <= end <= |unitTypes|
        invariant TypeSearch(unitTypes, name, start, end) == TypeIndex(unitTypes, name)
        decreases end - start
      {
        var mid := (start + end) / 2;
        var c := CompareTo(unitTypes[mid].name, name);
        if c == 0 {
          CompareToZero(unitTypes[mid].name, name);
          return mid;
        } else if c > 0 {
          end := mid;
        } else {
          start := mid + 1;
        }
      }
      r := -1;
    }

    /** `getUnitIndex(unitType, instance)`. */
    method GetUnitIndex(unitType: JString, instance: Int32) returns (r: Result<int, JavaError>)
      ensures r == UnitIndex(unitTypes, unitType, instance)
    {
      var i := GetUnitTypeIndex(unitType);
      if i == -1 {
        i := 0;
      }
      if i >= |unitTypes| {
        return Err(IndexOutOfBounds);
      }
      var inst := instance;
      if inst >= unitTypes[i].count {
        inst := 0;
      }
      r := Ok(WrapInt32(unitTypes[i].start + inst));
    }

    /** `getUnitIndexName(name)`. */
    method GetUnitIndexName(name: JString) returns (r: Result<int, JavaError>)
      ensures r == UnitIndexName(unitTypes, name)
    {
      var lastIndex := LastIndexOf(name, UNDERSCORE);
      if lastIndex == -1 {
        return Ok(-1);
      }
      var index := ParseInt(name[lastIndex + 1..]);
      if index.None? {
        return Err(NumberFormat);
      }
      var unitTypeName := name[..lastIndex];
      r := GetUnitIndex(unitTypeName, index.value);
    }

    /** `isUnitTypeEqual(unitA, unitB)`: both units must exist. */
    method IsUnitTypeEqual(unitA: int, unitB: int) returns (r: Result<bool, JavaError>)
      ensures r.Ok? <==> 0 <= unitA < |units| && 0 <= unitB < |units|
      ensures r.Ok? ==> (r.value <==> units[unitA].unitType == units[unitB].unitType)
      ensures r.Err? ==> r.error == IndexOutOfBounds
    {
      if !(0 <= unitA < |units|) || !(0 <= unitB < |units|) {
        return Err(IndexOutOfBounds);
      }
      r := Ok(units[unitA].unitType == units[unitB].unitType);
    }

    /** `calcJoinWeightShift(joinWeights)`. */
    static method CalcJoinWeightShift(w: seq<Int32>) returns (r: Result<Int32, JavaError>)
      ensures r == JoinWeightShift(w)
    {
      if |w| == 0 {
        return Err(IndexOutOfBounds);
      }
      var first := w[0];
      var i := 1;
      while i < |w|
        invariant 1 <= i <= |w|
        invariant forall j :: 0 <= j < i ==> w[j] == first
      {
        if w[i] != first {
          return Ok(0);
        }
        i := i + 1;
      }
      if first == 0 {
        return Err(Arithmetic);
      }
      var divisor := JDiv(65536, first);
      ShiftDivisor(first);
      if divisor == 2 {
        return Ok(1);
      } else if divisor == 4 {
        return Ok(2);
      }
      r := Ok(0);
    }
  
    /** `parseAndAdd(line, reader)`, with `rest` the lines the reader has not handed out yet. */
    method ParseAndAdd(line: JString, rest: seq<JString>, codec: TextCodec<SS, C>) returns (r: Result<nat, LoadError>)
      modifies this
      ensures units == old(units) && unitTypes == old(unitTypes)
      ensures match ParseLine(old(TextState()), line, rest, codec)
        case Ok((img, n)) => r == Ok(n) && TextState() == img
        case Err(e) => r == Err(e)
    {
      var tokens := Tokens(line, LINE_DELIMS);
      if |tokens| == 0 {
        return Err(MissingToken);
      }
      var tag := tokens[0];
      var args := tokens[1..];
      if tag == CONTINUITY_WEIGHT || tag == OPTIMAL_COUPLING || tag == EXTEND_SELECTIONS || tag == JOIN_METHOD {
        r := ParseSetting(tag, args, line, rest, codec);
      } else if tag == JOIN_WEIGHTS {
        r := ParseJoinWeights(args, line, rest, codec);
      } else if tag == STS {
        r := ParseSampleSet(args, line, rest, codec);
      } else if tag == UNITS {
        r := ParseUnit(args, line, rest, codec);
      } else if tag == CART {
        r := ParseCart(args, line, rest, codec);
      } else if tag == UNIT_TYPE {
        r := ParseUnitType(args, line, rest, codec);
      } else {
        r := Err(UnsupportedTag(tag, line));
      }
    }

    /** The four single-int settings of `parseAndAdd`. */
    method ParseSetting(tag: JString, args: seq<JString>, line: JString, rest: seq<JString>, codec: TextCodec<SS, C>)
      returns (r: Result<nat, LoadError>)
      requires tag == CONTINUITY_WEIGHT || tag == OPTIMAL_COUPLING || tag == EXTEND_SELECTIONS || tag == JOIN_METHOD
      modifies this
      ensures units == old(units) && unitTypes == old(unitTypes)
      ensures match ParseTagged(old(TextState()), tag, args, line, rest, codec)
        case Ok((img, n)) => r == Ok(n) && TextState() == img
        case Err(e) => r == Err(e)
    {
      var v := IntArg(args, 0, line);
      if v.Err? {
        return Err(v.error);
      }
      if tag == CONTINUITY_WEIGHT {
        continuityWeight := v.value;
      } else if tag == OPTIMAL_COUPLING {
        optimalCoupling := v.value;
      } else if tag == EXTEND_SELECTIONS {
        extendSelections := v.value;
      } else {
        joinMethod := v.value;
      }
      r := Ok(0);
    }

    /** The STS case of `parseAndAdd`: the set named STS is `sts`, any other `mcep`. */
    method ParseSampleSet(args: seq<JString>, line: JString, rest: seq<JString>, codec: TextCodec<SS, C>)
      returns (r: Result<nat, LoadError>)
      modifies this
      ensures units == old(units) && unitTypes == old(unitTypes)
      ensures match ParseTagged(old(TextState()), STS, args, line, rest, codec)
        case Ok((img, n)) => r == Ok(n) && TextState() == img
        case Err(e) => r == Err(e)
    {
      if |args| == 0 {
        return Err(MissingToken);
      }
      var name := args[0];
      var sampleSet := codec.readSampleSet(args[1..], rest);
      if sampleSet.Err? {
        return Err(Caught(sampleSet.error, line));
      }
      if name == STS {
        sts := Some(sampleSet.value.0);
      } else {
        mcep := Some(sampleSet.value.0);
      }
      r := Ok(if sampleSet.value.1 <= |rest| then sampleSet.value.1 else |rest|);
    }

    /** The UNITS case of `parseAndAdd`: six ints, appended as one unit. */
    method ParseUnit(args: seq<JString>, line: JString, rest: seq<JString>, codec: TextCodec<SS, C>)
      returns (r: Result<nat, LoadError>)
      modifies this
      ensures units == old(units) && unitTypes == old(unitTypes)
      ensures match ParseTagged(old(TextState()), UNITS, args, line, rest, codec)
        case Ok((img, n)) => r == Ok(n) && TextState() == img
        case Err(e) => r == Err(e)
    {
      var v := IntArgs(args, 0, 6, line);
      if v.Err? {
        return Err(v.error);
      }
      var unit := DatabaseClusterUnit(v.value[0], v.value[1], v.value[2], v.value[3], v.value[4], v.value[5]);
      unitList := unitList + [unit];
      r := Ok(0);
    }

    /** The CART case of `parseAndAdd`: the first CART read becomes the default. */
    method ParseCart(args: seq<JString>, line: JString, rest: seq<JString>, codec: TextCodec<SS, C>)
      returns (r: Result<nat, LoadError>)
      modifies this
      ensures units == old(units) && unitTypes == old(unitTypes)
      ensures match ParseTagged(old(TextState()), CART, args, line, rest, codec)
        case Ok((img, n)) => r == Ok(n) && TextState() == img
        case Err(e) => r == Err(e)
    {
      if |args| == 0 {
        return Err(MissingToken);
      }
      var name := args[0];
      var nodes := IntArg(args, 1, line);
      if nodes.Err? {
        return Err(nodes.error);
      }
      var cart := codec.readCart(nodes.value, rest);
      if cart.Err? {
        return Err(Caught(cart.error, line));
      }
      cartMap := cartMap[name := cart.value.0];
      if defaultCart.None? {
        defaultCart := Some(cart.value.0);
      }
      r := Ok(if cart.value.1 <= |rest| then cart.value.1 else |rest|);
    }

    /** The UNIT_TYPE case of `parseAndAdd`: a name and two ints, appended as one unit type. */
    method ParseUnitType(args: seq<JString>, line: JString, rest: seq<JString>, codec: TextCodec<SS, C>)
      returns (r: Result<nat, LoadError>)
      modifies this
      ensures units == old(units) && unitTypes == old(unitTypes)
      ensures match ParseTagged(old(TextState()), UNIT_TYPE, args, line, rest, codec)
        case Ok((img, n)) => r == Ok(n) && TextState() == img
        case Err(e) => r == Err(e)
    {
      if |args| == 0 {
        return Err(MissingToken);
      }
      var name := args[0];
      var start := IntArg(args, 1, line);
      if start.Err? {
        return Err(start.error);
      }
      var count := IntArg(args, 2, line);
      if count.Err? {
        return Err(count.error);
      }
      unitTypesList := unitTypesList + [UnitType(name, start.value, count.value)];
      r := Ok(0);
    }

    /** The JOIN_WEIGHTS case of `parseAndAdd`: the count, the weights, then the shift. */
    method ParseJoinWeights(args: seq<JString>, line: JString, rest: seq<JString>, codec: TextCodec<SS, C>)
      returns (r: Result<nat, LoadError>)
      modifies this
      ensures units == old(units) && unitTypes == old(unitTypes)
      ensures match ParseTagged(old(TextState()), JOIN_WEIGHTS, args, line, rest, codec)
        case Ok((img, n)) => r == Ok(n) && TextState() == img
        case Err(e) => r == Err(e)
    {
      var numWeights := IntArg(args, 0, line);
      if numWeights.Err? {
        return Err(numWeights.error);
      }
      if numWeights.value < 0 {
        return Err(Thrown(NegativeArraySize));
      }
      var weights: seq<Int32> := [];
      var i := 0;
      while i < numWeights.value
        invariant 0 <= i <= numWeights.value
        invariant IntArgs(args, 1, i, line) == Ok(weights)
      {
        var w := IntArg(args, 1 + i, line);
        if w.Err? {
          IntArgsStops(args, 1, i + 1, numWeights.value, line);
          return Err(w.error);
        }
        weights := weights + [w.value];
        i := i + 1;
      }
      joinWeights := Some(weights);
      var shift := CalcJoinWeightShift(weights);
      if shift.Err? {
        return Err(Thrown(shift.error));
      }
      joinWeightShift := shift.value;
      r := Ok(0);
    }

    /**
     * `loadText(is)`, with the stream given as its lines (None: no stream).
     * On an error the Java constructor throws, so the state left behind is
     * not specified.
     */
    /** One pass of the `loadText` loop: skip a comment line, or `parseAndAdd` any other. */
    method LoadLine(lines: seq<JString>, i: nat, codec: TextCodec<SS, C>) returns (r: Result<nat, LoadError>)
      requires i < |lines|
      modifies this
      ensures units == old(units) && unitTypes == old(unitTypes)
      ensures match LineAt(old(TextState()), lines, i, codec)
        case Ok((img, j)) => r == Ok(j) && TextState() == img
        case Err(e) => r == Err(e)
    {
      var line := lines[i];
      if StartsWith(line, COMMENT) {
        return Ok(i + 1);
      }
      var n := ParseAndAdd(line, lines[i + 1..], codec);
      if n.Err? {
        return Err(n.error);
      }
      r := Ok(i + 1 + n.value);
    }

    method LoadText(input: Option<seq<JString>>, codec: TextCodec<SS, C>) returns (r: Result<(), LoadError>)
      modifies this
      ensures match LoadTextImage(old(Image()), input, codec)
        case Ok(img) => r == Ok(()) && Image() == img
        case Err(e) => r == Err(e)
    {
      unitList := [];
      unitTypesList := [];
      if input.None? {
        return Err(NoDatabase);
      }
      var lines := input.value;
      ghost var spec := LoadTextImage(old(Image()), input, codec);
      assert TextState() == old(Image()).(units := [], unitTypes := []);
      var i := 0;
      while i < |lines|
        invariant 0 <= i <= |lines|
        invariant LoadLines(TextState(), lines[i..], codec) == spec
        decreases |lines| - i
      {
        LoadLinesAt(TextState(), lines, i, codec);
        var next := LoadLine(lines, i, codec);
        if next.Err? {
          return Err(next.error);
        }
        i := next.value;
      }
      units := unitList;
      unitTypes := unitTypesList;
      r := Ok(());
    }

    /**
     * The CART loop that ends `loadBinary`: a count, then that many named
     * CARTs into a fresh map; the first one read becomes the default unless
     * one is already set. A negative count reads none.
     */
    method ReadCarts(dis: DataInput, readCart: Decoder<C>) returns (r: Result<(), JavaError>)
      requires dis.Valid()
      modifies this, dis
      ensures dis.Valid()
      ensures match ParseCarts(readCart, old(dis.Remaining()))
        case Ok((cs, n)) =>
          r == Ok(()) && dis.pos == old(dis.pos) + n &&
          Image() == old(Image()).(cartMap := CartMap(cs), defaultCart := DefaultAfter(old(defaultCart), cs))
        case Err(e) => r == Err(e)
    {
      ghost var bs := dis.Remaining();
      var numCarts := dis.ReadInt();
      if numCarts.None? {
        return Err(EndOfStream);
      }
      assert dis.Remaining() == bs[4..];
      var carts := ReadCartLoop(dis, CartEntryItem(readCart), numCarts.value, defaultCart);
      if carts.Err? {
        return Err(carts.error);
      }
      cartMap := carts.value.0;
      defaultCart := carts.value.1;
      r := Ok(());
    }

    /**
     * `loadBinary`: the header, the join weights, the units, the unit types,
     * the two sample sets and the CARTs, each stored as soon as it is read.
     */
    method LoadBinary(dis: DataInput, codec: BinaryCodec<SS, C>) returns (r: Result<(), LoadError>)
      requires dis.Valid()
      modifies this, dis
      ensures dis.Valid()
      ensures match ParseImage(old(dis.Remaining()), codec)
        case Ok((bi, n)) => r == Ok(()) && Image() == Installed(old(Image()), bi) && dis.pos == old(dis.pos) + n
        case Err(e) => r == Err(e)
    {
      ghost var rd := SomeBinaryReaders(codec, dis.Remaining());
      r := LoadFromHeader(dis, codec, rd);
    }

    /** `loadBinary` with the sections read by `rd`. */
    method LoadFromHeader(dis: DataInput, codec: BinaryCodec<SS, C>, ghost rd: Readers<SS, C>) returns (r: Result<(), LoadError>)
      requires dis.Valid() && ReadsLike(rd, codec)
      modifies this, dis
      ensures dis.Valid()
      ensures match ParseFromHeader(rd, NoSections, old(dis.Remaining()))
        case Ok((bi, n)) => r == Ok(()) && Image() == Installed(old(Image()), bi) && dis.pos == old(dis.pos) + n
        case Err(e) => r == Err(e)
    {
      ghost var bs := dis.Remaining();
      ghost var p0 := dis.pos;
      ghost var img0 := Image();
      HeaderStep(rd, NoSections, bs);
      var header := ReadHeader(dis);
      if header.Err? {
        return Err(header.error);
      }
      StoreHeader(header.value);
      assert bs[dis.pos - p0..] == dis.Remaining();
      ghost var mid := Image();
      ghost var rest := ParseFromJoinWeights(rd, NoSections.(header := header.value), dis.Remaining());
      assert ParseFromHeader(rd, NoSections, bs) == After(rest, dis.pos - p0);
      r := LoadFromJoinWeights(dis, codec, rd, NoSections.(header := header.value));
      if rest.Ok? {
        InstalledSameDefault(img0, mid, rest.value.0);
      }
    }

    /** The five header fields `loadBinary` stores. */
    method StoreHeader(h: Header)
      modifies this
      ensures Image() == old(Image()).(continuityWeight := h.continuityWeight, optimalCoupling := h.optimalCoupling,
        extendSelections := h.extendSelections, joinMethod := h.joinMethod, joinWeightShift := h.joinWeightShift)
      ensures unitList == old(unitList) && unitTypesList == old(unitTypesList)
    {
      continuityWeight := h.continuityWeight;
      optimalCoupling := h.optimalCoupling;
      extendSelections := h.extendSelections;
      joinMethod := h.joinMethod;
      joinWeightShift := h.joinWeightShift;
    }

    /** The rest of `loadBinary` once the header fields `read.header` are stored. */
    method LoadFromJoinWeights(dis: DataInput, codec: BinaryCodec<SS, C>, ghost rd: Readers<SS, C>, ghost read: Sections)
      returns (r: Result<(), LoadError>)
      requires dis.Valid() && ReadsJoinWeights(rd) && ReadsUnits(rd) && ReadsUnitTypes(rd) && ReadsTail(rd, codec)
      requires HoldsHeader(Image(), read.header)
      modifies this, dis
      ensures dis.Valid()
      ensures match ParseFromJoinWeights(rd, read, old(dis.Remaining()))
        case Ok((bi, n)) => r == Ok(()) && Image() == Installed(old(Image()), bi) && dis.pos == old(dis.pos) + n
        case Err(e) => r == Err(e)
    {
      ghost var bs := dis.Remaining();
      ghost var p0 := dis.pos;
      ghost var img0 := Image();
      JoinWeightsStep(rd, read, bs);
      var weights := ReadJoinWeights(dis);
      if weights.Err? {
        return Err(Thrown(weights.error));
      }
      assert ParseArray(IntItem, bs) == Ok((weights.value, dis.pos - p0));
      joinWeights := Some(weights.value);
      assert bs[dis.pos - p0..] == dis.Remaining();
      ghost var mid := Image();
      ghost var rest := ParseFromUnits(rd, read.(joinWeights := weights.value), dis.Remaining());
      assert ParseFromJoinWeights(rd, read, bs) == After(rest, dis.pos - p0);
      r := LoadFromUnits(dis, codec, rd, read.(joinWeights := weights.value));
      if rest.Ok? {
        InstalledSameDefault(img0, mid, rest.value.0);
      }
    }

    /** The rest of `loadBinary` once the join weights are stored as well. */
    method LoadFromUnits(dis: DataInput, codec: BinaryCodec<SS, C>, ghost rd: Readers<SS, C>, ghost read: Sections)
      returns (r: Result<(), LoadError>)
      requires dis.Valid() && ReadsUnits(rd) && ReadsUnitTypes(rd) && ReadsTail(rd, codec) && HoldsHeader(Image(), read.header)
      requires joinWeights == Some(read.joinWeights)
      modifies this, dis
      ensures dis.Valid()
      ensures match ParseFromUnits(rd, read, old(dis.Remaining()))
        case Ok((bi, n)) => r == Ok(()) && Image() == Installed(old(Image()), bi) && dis.pos == old(dis.pos) + n
        case Err(e) => r == Err(e)
    {
      ghost var bs := dis.Remaining();
      ghost var p0 := dis.pos;
      ghost var img0 := Image();
      UnitsStep(rd, read, bs);
      var us := ReadUnits(dis);
      if us.Err? {
        return Err(Thrown(us.error));
      }
      assert ParseArray(UnitItem, bs) == Ok((us.value, dis.pos - p0));
      units := us.value;
      assert bs[dis.pos - p0..] == dis.Remaining();
      ghost var mid := Image();
      ghost var rest := ParseFromUnitTypes(rd, read.(units := us.value), dis.Remaining());
      assert ParseFromUnits(rd, read, bs) == After(rest, dis.pos - p0);
      r := LoadFromUnitTypes(dis, codec, rd, read.(units := us.value));
      if rest.Ok? {
        InstalledSameDefault(img0, mid, rest.value.0);
      }
    }

    /** The rest of `loadBinary` once the units are stored as well. */
    method LoadFromUnitTypes(dis: DataInput, codec: BinaryCodec<SS, C>, ghost rd: Readers<SS, C>, ghost read: Sections)
      returns (r: Result<(), LoadError>)
      requires dis.Valid() && ReadsUnitTypes(rd) && ReadsTail(rd, codec) && HoldsHeader(Image(), read.header)
      requires joinWeights == Some(read.joinWeights) && units == read.units
      modifies this, dis
      ensures dis.Valid()
      ensures match ParseFromUnitTypes(rd, read, old(dis.Remaining()))
        case Ok((bi, n)) => r == Ok(()) && Image() == Installed(old(Image()), bi) && dis.pos == old(dis.pos) + n
        case Err(e) => r == Err(e)
    {
      ghost var bs := dis.Remaining();
      ghost var p0 := dis.pos;
      ghost var img0 := Image();
      ghost var parsed := ParseArray(UnitTypeItem, bs);
      UnitTypesStep(rd, read, bs);
      var ts := ReadUnitTypes(dis);
      if ts.Err? {
        assert parsed == Err(ts.error);
        return Err(Thrown(ts.error));
      }
      assert parsed == Ok((ts.value, dis.pos - p0));
      unitTypes := ts.value;
      assert bs[dis.pos - p0..] == dis.Remaining();
      ghost var mid := Image();
      ghost var rest := ParseFromSampleSets(rd, read.(unitTypes := ts.value), dis.Remaining());
      assert ParseFromUnitTypes(rd, read, bs) == After(rest, dis.pos - p0);
      r := LoadTail(dis, codec, rd, read.(unitTypes := ts.value));
      if rest.Ok? {
        InstalledSameDefault(img0, mid, rest.value.0);
      }
    }

    /** The two sample sets and the CARTs that end `loadBinary`, after the sections in `read`. */
    method LoadTail(dis: DataInput, codec: BinaryCodec<SS, C>, ghost rd: Readers<SS, C>, ghost read: Sections)
      returns (r: Result<(), LoadError>)
      requires dis.Valid() && ReadsTail(rd, codec) && HoldsSections(Image(), read)
      modifies this, dis
      ensures dis.Valid()
      ensures match ParseFromSampleSets(rd, read, old(dis.Remaining()))
        case Ok((bi, n)) => r == Ok(()) && Image() == Installed(old(Image()), bi) && dis.pos == old(dis.pos) + n
        case Err(e) => r == Err(e)
    {
      ghost var bs := dis.Remaining();
      ghost var p0 := dis.pos;
      ghost var img := Image();
      TailSections(rd, codec, read, bs);
      var sets := ReadSampleSets(dis, codec.readSampleSet);
      if sets.Err? {
        return Err(Thrown(sets.error));
      }
      sts := Some(sets.value.0);
      mcep := Some(sets.value.1);
      ghost var t := dis.Remaining();
      assert bs[dis.pos - p0..] == t;
      var carts := ReadCarts(dis, codec.readCart);
      if carts.Err? {
        return Err(Thrown(carts.error));
      }
      InstalledTail(img, read, sets.value.0, sets.value.1, ParseCarts(codec.readCart, t).value.0);
      r := Ok(());
    }

    /**
     * `dumpBinary`: the sections in file order, the CARTs in the order
     * `names` gives the keys of the map. A missing join weight table or
     * sample set is a NullPointerException once the sections before it are
     * written.
     */
    method DumpBinary(os: DataOutput, codec: BinaryCodec<SS, C>, names: seq<JString>) returns (r: Result<(), JavaError>)
      requires KeyOrder(cartMap, names)
      modifies os
      ensures joinWeights.None? ==> r == Err(NullPointer) && os.bytes == old(os.bytes) + HeaderBytes(ImageHeader(Image()))
      ensures joinWeights.Some? && sts.None? ==>
        && r == Err(NullPointer)
        && os.bytes == old(os.bytes) + HeaderBytes(ImageHeader(Image())) + ArrayBytes(IntEnc, joinWeights.value)
             + ArrayBytes(UnitBytes, units) + ArrayBytes(UnitTypeBytes, unitTypes)
      ensures joinWeights.Some? && sts.Some? && mcep.None? ==>
        && r == Err(NullPointer)
        && os.bytes == old(os.bytes) + HeaderBytes(ImageHeader(Image())) + ArrayBytes(IntEnc, joinWeights.value)
             + ArrayBytes(UnitBytes, units) + ArrayBytes(UnitTypeBytes, unitTypes) + codec.writeSampleSet(sts.value)
      ensures joinWeights.Some? && sts.Some? && mcep.Some? ==>
        r == Ok(()) && os.bytes == old(os.bytes) + ImageBytes(BinaryOf(Image(), names), codec)
    {
      WriteHeader(os, ImageHeader(Image()));
      if joinWeights.None? {
        return Err(NullPointer);
      }
      WriteWeights(os, joinWeights.value);
      WriteUnits(os, units);
      WriteUnitTypes(os, unitTypes);
      if sts.None? {
        return Err(NullPointer);
      }
      ghost var w := old(os.bytes);
      os.WriteBytes(codec.writeSampleSet(sts.value));
      if mcep.None? {
        return Err(NullPointer);
      }
      os.WriteBytes(codec.writeSampleSet(mcep.value));
      WriteCarts(os, codec.writeCart, cartMap, names);
      DumpedBytes(w, Image(), names, codec);
      r := Ok(());
    }
  }
}

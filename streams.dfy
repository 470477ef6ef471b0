/**
 * java.io.DataInputStream / DataOutputStream (and the equivalent
 * java.nio.ByteBuffer reads) over an in-memory byte sequence: big-endian
 * ints, shorts and chars, plus a line sink standing for a PrintWriter.
 */
module Streams {
  import opened Wrappers
  import opened JavaLang

  function Pow256(n: nat): (p: nat)
    ensures p >= 1
  {
    if n == 0 then 1 else 256 * Pow256(n - 1)
  }

  /** The low `n` bytes of `u`, most significant first. */
  function EncodeBE(u: nat, n: nat): (r: seq<Byte>)
    ensures |r| == n
  {
    if n == 0 then [] else EncodeBE(u / 256, n - 1) + [u % 256]
  }

  /** The unsigned value of a big-endian byte sequence. */
  function DecodeBE(bs: seq<Byte>): nat {
    if |bs| == 0 then 0 else DecodeBE(bs[..|bs| - 1]) * 256 + bs[|bs| - 1]
  }

  lemma {:induction false} DecodeBEBound(bs: seq<Byte>)
    ensures DecodeBE(bs) < Pow256(|bs|)
  {
    if |bs| > 0 {
      DecodeBEBound(bs[..|bs| - 1]);
    }
  }

  /** Decoding recovers any value that fits in `n` bytes. */
  lemma {:induction false} DecodeEncodeBE(u: nat, n: nat)
    requires u < Pow256(n)
    ensures DecodeBE(EncodeBE(u, n)) == u
  {
    if n > 0 {
      var r := EncodeBE(u, n);
      assert r[..n - 1] == EncodeBE(u / 256, n - 1);
      DecodeEncodeBE(u / 256, n - 1);
    }
  }

  /** Encoding recovers any byte sequence from its value. */
  lemma {:induction false} EncodeDecodeBE(bs: seq<Byte>)
    ensures EncodeBE(DecodeBE(bs), |bs|) == bs
  {
    if |bs| > 0 {
      var init := bs[..|bs| - 1];
      var u := DecodeBE(bs);
      assert u / 256 == DecodeBE(init) && u % 256 == bs[|bs| - 1];
      EncodeDecodeBE(init);
    }
  }

  // ---------------------------------------------------------------------
  // Fixed-width values

  const TWO_32: int := 0x1_0000_0000

  /** `writeInt(v)`: the four bytes of `v` in two's complement. */
  function IntBytes(v: int): (r: seq<Byte>)
    requires IsInt32(v)
    ensures |r| == 4
  {
    EncodeBE(if v < 0 then v + TWO_32 else v, 4)
  }

  /** `readInt()`: four bytes read as a signed int. */
  function BytesInt(bs: seq<Byte>): (v: int)
    requires |bs| == 4
    ensures IsInt32(v)
  {
    DecodeBEBound(bs);
    var u := DecodeBE(bs);
    if u >= 0x8000_0000 then u - TWO_32 else u
  }

  lemma BytesIntOfIntBytes(v: int)
    requires IsInt32(v)
    ensures BytesInt(IntBytes(v)) == v
  {
    DecodeEncodeBE(if v < 0 then v + TWO_32 else v, 4);
  }

  lemma IntBytesOfBytesInt(bs: seq<Byte>)
    requires |bs| == 4
    ensures IntBytes(BytesInt(bs)) == bs
  {
    DecodeBEBound(bs);
    EncodeDecodeBE(bs);
  }

  /** `writeShort(v)`: the low 16 bits of `v`. */
  function ShortBytes(v: int): (r: seq<Byte>)
    ensures |r| == 2
  {
    EncodeBE(v % 0x1_0000, 2)
  }

  /** `readShort()`: two bytes read as a signed short. */
  function BytesShort(bs: seq<Byte>): (v: int)
    requires |bs| == 2
    ensures IsInt16(v)
  {
    DecodeBEBound(bs);
    var u := DecodeBE(bs);
    if u >= 0x8000 then u - 0x1_0000 else u
  }

  /** Reading a written short yields the value cast to `short`. */
  lemma BytesShortOfShortBytes(v: int)
    ensures BytesShort(ShortBytes(v)) == ToShort(v)
  {
    DecodeEncodeBE(v % 0x1_0000, 2);
  }

  /** `writeChar(c)`: the two bytes of a UTF-16 code unit. */
  function CharBytes(c: JChar): (r: seq<Byte>)
    ensures |r| == 2
  {
    EncodeBE(c, 2)
  }

  /** `readChar()`. */
  function BytesChar(bs: seq<Byte>): (c: JChar)
    requires |bs| == 2
  {
    DecodeBEBound(bs);
    DecodeBE(bs)
  }

  lemma BytesCharOfCharBytes(c: JChar)
    ensures BytesChar(CharBytes(c)) == c
  {
    DecodeEncodeBE(c, 2);
  }

  /** The bytes of a sequence of chars, written one `writeChar` at a time. */
  function CharsBytes(s: JString): (r: seq<Byte>)
    ensures |r| == 2 * |s|
  {
    if |s| == 0 then [] else CharsBytes(s[..|s| - 1]) + CharBytes(s[|s| - 1])
  }

  /** The chars of an even-length byte sequence, two bytes each. */
  function BytesChars(bs: seq<Byte>): (s: JString)
    requires |bs| % 2 == 0
    ensures |s| == |bs| / 2
  {
    if |bs| == 0 then [] else BytesChars(bs[..|bs| - 2]) + [BytesChar(bs[|bs| - 2..])]
  }

  /** Two more bytes read are one more char. */
  lemma BytesCharsSnoc(a: seq<Byte>, b: seq<Byte>)
    requires |a| % 2 == 0 && |b| == 2
    ensures BytesChars(a + b) == BytesChars(a) + [BytesChar(b)]
  {
    var bs := a + b;
    assert bs[..|bs| - 2] == a;
    assert bs[|bs| - 2..] == b;
  }

  lemma {:induction false} BytesCharsOfCharsBytes(s: JString)
    ensures BytesChars(CharsBytes(s)) == s
  {
    if |s| > 0 {
      var init, c := s[..|s| - 1], s[|s| - 1];
      assert CharsBytes(s) == CharsBytes(init) + CharBytes(c);
      BytesCharsSnoc(CharsBytes(init), CharBytes(c));
      BytesCharsOfCharsBytes(init);
      BytesCharOfCharBytes(c);
      assert s == init + [c];
    }
  }

  lemma {:induction false} CharsBytesOfBytesChars(bs: seq<Byte>)
    requires |bs| % 2 == 0
    ensures CharsBytes(BytesChars(bs)) == bs
  {
    if |bs| > 0 {
      var init := bs[..|bs| - 2];
      CharsBytesOfBytesChars(init);
      DecodeBEBound(bs[|bs| - 2..]);
      EncodeDecodeBE(bs[|bs| - 2..]);
      var s := BytesChars(bs);
      assert s[..|s| - 1] == BytesChars(init);
      assert bs == init + bs[|bs| - 2..];
    }
  }

  lemma ShortBytesOfBytesShort(bs: seq<Byte>)
    requires |bs| == 2 && BytesShort(bs) >= 0
    ensures ShortBytes(BytesShort(bs)) == bs
  {
    DecodeBEBound(bs);
    EncodeDecodeBE(bs);
  }

  lemma AppendAssoc<T>(a: seq<T>, b: seq<T>, c: seq<T>)
    ensures (a + b) + c == a + (b + c)
  {
  }

  lemma AppendDrop<T>(a: seq<T>, b: seq<T>)
    ensures (a + b)[|a|..] == b
  {
  }

  // ---------------------------------------------------------------------
  // Decoders and encoders of records

  /**
   * A record reader over the bytes still to be read: the record together
   * with the number of bytes it consumed, or the exception it throws.
   */
  type Decoder<!T> = seq<Byte> -> Result<(T, nat), JavaError>

  /**
   * A read result with `k` more bytes counted as consumed: a success keeps
   * its value, and an error stays the same error.
   */
  function After<T, E>(r: Result<(T, nat), E>, k: nat): (r': Result<(T, nat), E>)
    ensures r'.Ok? <==> r.Ok?
    ensures r.Ok? ==> r'.value == (r.value.0, k + r.value.1)
    ensures r.Err? ==> r' == Err(r.error)
  {
    match r
    case Ok((x, n)) => Ok((x, k + n))
    case Err(e) => Err(e)
  }

  /** One application of a decoder; claiming bytes past the end is an EOF. */
  function Step<T>(item: Decoder<T>, bs: seq<Byte>): (r: Result<(T, nat), JavaError>)
    ensures r.Ok? ==> r.value.1 <= |bs|
  {
    match item(bs)
    case Err(e) => Err(e)
    case Ok((x, n)) => if n <= |bs| then Ok((x, n)) else Err(EndOfStream)
  }

  /**
   * `item` reads back exactly what `enc` writes for every value `ok` admits,
   * whatever follows it.
   */
  ghost predicate Decodes<T(!new), E>(item: seq<Byte> -> Result<(T, nat), E>, enc: T -> seq<Byte>, ok: T -> bool) {
    forall x: T, rest: seq<Byte> :: ok(x) ==> item(enc(x) + rest) == Ok((x, |enc(x)|))
  }

  /** `n` records read one after another: what a counted read loop computes. */
  function ParseMany<T>(item: Decoder<T>, bs: seq<Byte>, n: nat): (r: Result<(seq<T>, nat), JavaError>)
    ensures r.Ok? ==> |r.value.0| == n && r.value.1 <= |bs|
  {
    if n == 0 then Ok(([], 0))
    else
      match ParseMany(item, bs, n - 1)
      case Err(e) => Err(e)
      case Ok((xs, k)) =>
        match Step(item, bs[k..])
        case Err(e) => Err(e)
        case Ok((x, m)) => Ok((xs + [x], k + m))
  }

  /** One more iteration of a counted read loop. */
  lemma ParseManyNext<T>(item: Decoder<T>, bs: seq<Byte>, i: nat, xs: seq<T>, k: nat)
    requires ParseMany(item, bs, i) == Ok((xs, k))
    ensures ParseMany(item, bs, i + 1) ==
      match Step(item, bs[k..])
      case Err(e) => Err(e)
      case Ok((x, m)) => Ok((xs + [x], k + m))
  {
  }

  /** The records written one after another. */
  function EncodeMany<T>(enc: T -> seq<Byte>, xs: seq<T>): seq<Byte> {
    if |xs| == 0 then [] else EncodeMany(enc, xs[..|xs| - 1]) + enc(xs[|xs| - 1])
  }

  /** Once a read loop fails, its later iterations never run. */
  lemma {:induction false} ParseManyStops<T>(item: Decoder<T>, bs: seq<Byte>, i: nat, n: nat)
    requires i <= n && ParseMany(item, bs, i).Err?
    ensures ParseMany(item, bs, n) == Err(ParseMany(item, bs, i).error)
  {
    if i < n {
      ParseManyStops(item, bs, i, n - 1);
    }
  }

  /** A counted read loop reads back the records a write loop wrote. */
  lemma {:induction false} ParseEncodeMany<T(!new)>(item: Decoder<T>, enc: T -> seq<Byte>, ok: T -> bool, xs: seq<T>, rest: seq<Byte>)
    requires Decodes(item, enc, ok) && forall i :: 0 <= i < |xs| ==> ok(xs[i])
    ensures ParseMany(item, EncodeMany(enc, xs) + rest, |xs|) == Ok((xs, |EncodeMany(enc, xs)|))
  {
    if |xs| > 0 {
      var init := xs[..|xs| - 1];
      var last := xs[|xs| - 1];
      var bs := EncodeMany(enc, xs) + rest;
      assert bs == EncodeMany(enc, init) + (enc(last) + rest);
      ParseEncodeMany(item, enc, ok, init, enc(last) + rest);
      var k := |EncodeMany(enc, init)|;
      assert bs[k..] == enc(last) + rest;
      assert item(enc(last) + rest) == Ok((last, |enc(last)|));
      assert init + [last] == xs;
    }
  }

  /** The decoder of one `readInt()`. */
  function IntItem(bs: seq<Byte>): Result<(Int32, nat), JavaError> {
    if |bs| < 4 then Err(EndOfStream) else Ok((BytesInt(bs[..4]), 4))
  }

  function IntEnc(v: Int32): seq<Byte> {
    IntBytes(v)
  }

  lemma IntItemDecodes()
    ensures Decodes(IntItem, IntEnc, _ => true)
  {
    forall v: Int32, rest: seq<Byte>
      ensures IntItem(IntEnc(v) + rest) == Ok((v, |IntEnc(v)|))
    {
      assert (IntBytes(v) + rest)[..4] == IntBytes(v);
      BytesIntOfIntBytes(v);
    }
  }

  // ---------------------------------------------------------------------
  // Streams

  /**
   * A DataInputStream over `data`, already positioned at `pos`. A read that
   * would run past the end fails (EOFException / BufferUnderflowException)
   * and consumes nothing.
   */
  class DataInput {
    const data: seq<Byte>
    var pos: nat

    ghost predicate Valid()
      reads this
    {
      pos <= |data|
    }

    constructor (data: seq<Byte>)
      ensures Valid() && this.data == data && pos == 0
    {
      this.data := data;
      pos := 0;
    }

    /** The bytes not yet read. */
    function Remaining(): seq<Byte>
      reads this
      requires Valid()
    {
      data[pos..]
    }

    /** Reads `n` raw bytes. */
    method ReadBytes(n: nat) returns (r: Option<seq<Byte>>)
      requires Valid()
      modifies this
      ensures Valid()
      ensures n <= |old(Remaining())| ==> r == Some(old(Remaining())[..n]) && pos == old(pos) + n
      ensures n > |old(Remaining())| ==> r == None && pos == old(pos)
    {
      if n <= |data| - pos {
        assert data[pos..][..n] == data[pos..pos + n];
        r := Some(data[pos..pos + n]);
        pos := pos + n;
      } else {
        r := None;
      }
    }

    /** `readInt()`. */
    method ReadInt() returns (r: Option<int>)
      requires Valid()
      modifies this
      ensures Valid()
      ensures 4 <= |old(Remaining())| ==> r == Some(BytesInt(old(Remaining())[..4])) && pos == old(pos) + 4
      ensures 4 > |old(Remaining())| ==> r == None && pos == old(pos)
    {
      var bs := ReadBytes(4);
      if bs.Some? {
        r := Some(BytesInt(bs.value));
      } else {
        r := None;
      }
    }

    /** `readShort()`. */
    method ReadShort() returns (r: Option<int>)
      requires Valid()
      modifies this
      ensures Valid()
      ensures 2 <= |old(Remaining())| ==> r == Some(BytesShort(old(Remaining())[..2])) && pos == old(pos) + 2
      ensures 2 > |old(Remaining())| ==> r == None && pos == old(pos)
    {
      var bs := ReadBytes(2);
      if bs.Some? {
        r := Some(BytesShort(bs.value));
      } else {
        r := None;
      }
    }

    /** `readChar()`. */
    method ReadChar() returns (r: Option<JChar>)
      requires Valid()
      modifies this
      ensures Valid()
      ensures 2 <= |old(Remaining())| ==> r == Some(BytesChar(old(Remaining())[..2])) && pos == old(pos) + 2
      ensures 2 > |old(Remaining())| ==> r == None && pos == old(pos)
    {
      var bs := ReadBytes(2);
      if bs.Some? {
        r := Some(BytesChar(bs.value));
      } else {
        r := None;
      }
    }

    /**
     * Hands the stream to a reader given as the value it decodes from the
     * remaining bytes together with the number of bytes it consumes (a
     * collaborator's loader such as `Sample.loadBinary`, or one of the
     * record readers of this model).
     */
    method ReadWith<T>(item: Decoder<T>) returns (r: Result<T, JavaError>)
      requires Valid()
      modifies this
      ensures Valid()
      ensures match Step(item, old(Remaining()))
        case Ok((x, n)) => r == Ok(x) && pos == old(pos) + n
        case Err(e) => r == Err(e)
    {
      var d := Step(item, data[pos..]);
      if d.Ok? {
        r := Ok(d.value.0);
        pos := pos + d.value.1;
      } else {
        r := Err(d.error);
      }
    }
  }

  /**
   * A loop that reads `n` records with one record reader, such as
   * `new UnitType(dis)` or `Sample.loadBinary(dis)`, each filling the next
   * element of a fresh array.
   */
  method ReadRecords<T>(dis: DataInput, item: Decoder<T>, n: nat) returns (r: Result<seq<T>, JavaError>)
    requires dis.Valid()
    modifies dis
    ensures dis.Valid()
    ensures match ParseMany(item, old(dis.Remaining()), n)
      case Ok((xs, k)) => r == Ok(xs) && dis.pos == old(dis.pos) + k
      case Err(e) => r == Err(e)
  {
    ghost var start := dis.pos;
    var xs: seq<T> := [];
    var i := 0;
    while i < n
      invariant 0 <= i <= n && dis.Valid() && start <= dis.pos
      invariant ParseMany(item, dis.data[start..], i) == Ok((xs, dis.pos - start))
    {
      assert dis.data[start..][dis.pos - start..] == dis.data[dis.pos..];
      ParseManyNext(item, dis.data[start..], i, xs, dis.pos - start);
      var x := dis.ReadWith(item);
      if x.Err? {
        ParseManyStops(item, dis.data[start..], i + 1, n);
        return Err(x.error);
      }
      xs := xs + [x.value];
      i := i + 1;
    }
    r := Ok(xs);
  }

  /** A DataOutputStream collecting everything written so far. */
  class DataOutput {
    var bytes: seq<Byte>

    constructor ()
      ensures bytes == []
    {
      bytes := [];
    }

    method WriteBytes(bs: seq<Byte>)
      modifies this
      ensures bytes == old(bytes) + bs
    {
      bytes := bytes + bs;
    }

    /** `writeInt(v)`. */
    method WriteInt(v: int)
      requires IsInt32(v)
      modifies this
      ensures bytes == old(bytes) + IntBytes(v)
    {
      bytes := bytes + IntBytes(v);
    }

    /** `writeShort(v)`: only the low 16 bits of `v` are written. */
    method WriteShort(v: int)
      modifies this
      ensures bytes == old(bytes) + ShortBytes(v)
    {
      bytes := bytes + ShortBytes(v);
    }

    /** `writeChar(c)`. */
    method WriteChar(c: JChar)
      modifies this
      ensures bytes == old(bytes) + CharBytes(c)
    {
      bytes := bytes + CharBytes(c);
    }
  }

  /** A loop writing each record of an array with one record writer, such as `sample.dumpBinary(os)`. */
  method WriteRecords<T>(os: DataOutput, enc: T -> seq<Byte>, xs: seq<T>)
    modifies os
    ensures os.bytes == old(os.bytes) + EncodeMany(enc, xs)
  {
    var i := 0;
    while i < |xs|
      invariant 0 <= i <= |xs|
      invariant os.bytes == old(os.bytes) + EncodeMany(enc, xs[..i])
    {
      assert xs[..i + 1][..i] == xs[..i];
      os.WriteBytes(enc(xs[i]));
      i := i + 1;
    }
    assert xs[..i] == xs;
  }

  /** A PrintWriter: the lines printed so far. */
  class LineOutput {
    var lines: seq<JString>

    constructor ()
      ensures lines == []
    {
      lines := [];
    }

    /** `println(s)`. */
    method PrintLine(s: JString)
      modifies this
      ensures lines == old(lines) + [s]
    {
      lines := lines + [s];
    }

    /** Several `println`s in order. */
    method PrintLines(ls: seq<JString>)
      modifies this
      ensures lines == old(lines) + ls
    {
      lines := lines + ls;
    }
  }
}

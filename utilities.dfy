/**
 * com.sun.speech.freetts.util.Utilities: space padding, character deletion
 * and the short-length-prefixed UTF-16 string codec used by every binary
 * voice database.
 */
module Utilities {
  import opened Wrappers
  import opened JavaLang
  import opened Streams

  /** `pad(padding)`: `padding` spaces, or nothing when it is not positive. */
  function Pad(padding: int): (r: JString)
    ensures |r| == if padding > 0 then padding else 0
    ensures forall i :: 0 <= i < |r| ==> r[i] == SPACE
  {
    if padding > 0 then seq(padding, _ => SPACE) else []
  }

  /**
   * `pad(string, minLength)`: `string` cut or space-padded to exactly
   * `minLength` code units. A negative length makes `substring` throw.
   */
  function PadTo(s: JString, minLength: int): (r: Result<JString, JavaError>)
    ensures r.Err? <==> minLength < 0
    ensures r.Ok? ==> |r.value| == minLength
    ensures r.Ok? && |s| <= minLength ==>
      r.value[..|s|] == s && forall i :: |s| <= i < minLength ==> r.value[i] == SPACE
    ensures r.Ok? && minLength <= |s| ==> r.value == s[..minLength]
  {
    var pad := minLength - |s|;
    if pad > 0 then Ok(s + Pad(minLength - |s|))
    else if pad < 0 then (if minLength < 0 then Err(IndexOutOfBounds) else Ok(s[..minLength]))
    else Ok(s)
  }

  // ---------------------------------------------------------------------
  // deleteChar

  /** `s` with every occurrence of `c` left out. */
  function Without(s: JString, c: JChar): JString {
    if |s| == 0 then []
    else Without(s[..|s| - 1], c) + (if s[|s| - 1] == c then [] else [s[|s| - 1]])
  }

  /** `deleteChar(fromString, charToDelete)`. */
  method DeleteChar(fromString: JString, charToDelete: JChar) returns (r: JString)
    ensures r == Without(fromString, charToDelete)
  {
    var buffer: JString := [];
    var i := 0;
    while i < |fromString|
      invariant 0 <= i <= |fromString|
      invariant buffer == Without(fromString[..i], charToDelete)
    {
      assert fromString[..i + 1][..i] == fromString[..i];
      if fromString[i] != charToDelete {
        buffer := buffer + [fromString[i]];
      }
      i := i + 1;
    }
    assert fromString[..i] == fromString;
    r := buffer;
  }

  /** Deleting splits over concatenation, so the kept characters stay in order. */
  lemma {:induction false} WithoutAppend(a: JString, b: JString, c: JChar)
    ensures Without(a + b, c) == Without(a, c) + Without(b, c)
  {
    if |b| > 0 {
      var b' := b[..|b| - 1];
      assert (a + b)[..|a + b| - 1] == a + b';
      WithoutAppend(a, b', c);
    } else {
      assert a + b == a;
    }
  }

  /** Nothing is deleted from a string that does not hold `c`. */
  lemma {:induction false} WithoutAbsent(s: JString, c: JChar)
    requires c !in s
    ensures Without(s, c) == s
  {
    if |s| > 0 {
      assert c !in s[..|s| - 1];
      WithoutAbsent(s[..|s| - 1], c);
    }
  }

  /** The result holds the other characters with their counts, and no `c`. */
  lemma {:induction false} WithoutCounts(s: JString, c: JChar)
    ensures multiset(Without(s, c)) == multiset(s)[c := 0]
    ensures c !in Without(s, c)
    ensures |Without(s, c)| == |s| - multiset(s)[c]
  {
    if |s| > 0 {
      var init := s[..|s| - 1];
      assert s == init + [s[|s| - 1]];
      WithoutCounts(init, c);
    }
  }

  // ---------------------------------------------------------------------
  // outString / getString

  /** The bytes `outString(dos, s)` writes: the length cast to short, then the chars. */
  function StringBytes(s: JString): (r: seq<Byte>)
    ensures |r| == 2 + 2 * |s|
  {
    ShortBytes(|s|) + CharsBytes(s)
  }

  /**
   * What `getString` makes of a byte sequence: the string and the number of
   * bytes it consumed, or the exception it ends in.
   */
  function ParseString(bs: seq<Byte>): (r: Result<(JString, nat), JavaError>)
    ensures r.Ok? ==> 2 <= r.value.1 <= |bs| && r.value.1 == 2 + 2 * |r.value.0|
  {
    if |bs| < 2 then Err(EndOfStream)
    else
      var size := BytesShort(bs[..2]);
      if size < 0 then Err(NegativeArraySize)
      else if |bs| < 2 + 2 * size then Err(EndOfStream)
      else Ok((BytesChars(bs[2..2 + 2 * size]), 2 + 2 * size))
  }

  /** What `getString` accepts is exactly what `outString` writes. */
  lemma StringBytesOfParseString(bs: seq<Byte>)
    requires ParseString(bs).Ok?
    ensures StringBytes(ParseString(bs).value.0) == bs[..ParseString(bs).value.1]
  {
    var size := BytesShort(bs[..2]);
    var body := bs[2..2 + 2 * size];
    var s := BytesChars(body);
    assert ParseString(bs) == Ok((s, 2 + 2 * size));
    assert |s| == size;
    CharsBytesOfBytesChars(body);
    ShortBytesOfBytesShort(bs[..2]);
    assert StringBytes(s) == bs[..2] + body;
    assert bs[..2 + 2 * size] == bs[..2] + body;
  }

  /**
   * `getString(outString(s))` gives back `s` and consumes exactly what was
   * written precisely when the length fits in a positive short.
   */
  lemma ParseStringBytes(s: JString, rest: seq<Byte>)
    ensures ParseString(StringBytes(s) + rest) == Ok((s, 2 + 2 * |s|)) <==> |s| <= 0x7FFF
  {
    var bs := StringBytes(s) + rest;
    assert bs[..2] == ShortBytes(|s|);
    BytesShortOfShortBytes(|s|);
    if |s| <= 0x7FFF {
      assert bs[2..2 + 2 * |s|] == CharsBytes(s);
      BytesCharsOfCharsBytes(s);
    }
  }

  /** `dump(pw, padding, string)`: one line, the padding then the text. */
  method Dump(pw: LineOutput, padding: int, s: JString)
    modifies pw
    ensures pw.lines == old(pw.lines) + [Pad(padding) + s]
  {
    pw.PrintLine(Pad(padding) + s);
  }

  /** `outString(dos, s)`. */
  method OutString(dos: DataOutput, s: JString)
    modifies dos
    ensures dos.bytes == old(dos.bytes) + StringBytes(s)
  {
    dos.WriteShort(ToShort(|s|));
    assert ShortBytes(ToShort(|s|)) == ShortBytes(|s|);
    var i := 0;
    while i < |s|
      invariant 0 <= i <= |s|
      invariant dos.bytes == old(dos.bytes) + ShortBytes(|s|) + CharsBytes(s[..i])
    {
      assert s[..i + 1][..i] == s[..i];
      dos.WriteChar(s[i]);
      i := i + 1;
    }
    assert s[..i] == s;
  }

  /**
   * `getString(dis)` and `getString(bb)`: both readers consume the same
   * layout, so one method over the byte stream models them.
   */
  method GetString(dis: DataInput) returns (r: Result<JString, JavaError>)
    requires dis.Valid()
    modifies dis
    ensures dis.Valid()
    ensures var p := ParseString(old(dis.Remaining()));
      match p
      case Ok((str, n)) => r == Ok(str) && dis.pos == old(dis.pos) + n
      case Err(e) => r == Err(e)
  {
    ghost var start := dis.pos;
    var size := dis.ReadShort();
    if size.None? {
      return Err(EndOfStream);
    }
    if size.value < 0 {
      return Err(NegativeArraySize);
    }
    var charBuffer: JString := [];
    var i := 0;
    while i < size.value
      invariant 0 <= i <= size.value
      invariant dis.Valid()
      invariant dis.pos == start + 2 + 2 * i
      invariant charBuffer == BytesChars(dis.data[start + 2..dis.pos])
    {
      ghost var before := dis.data[start + 2..dis.pos];
      ghost var at := dis.pos;
      var c := dis.ReadChar();
      if c.None? {
        return Err(EndOfStream);
      }
      assert dis.data[at..][..2] == dis.data[at..dis.pos];
      assert dis.data[start + 2..dis.pos][..2 * i] == before;
      assert dis.data[start + 2..dis.pos][2 * i..] == dis.data[dis.pos - 2..dis.pos];
      charBuffer := charBuffer + [c.value];
      i := i + 1;
    }
    assert dis.data[start + 2..dis.pos] == old(dis.Remaining())[2..2 + 2 * size.value];
    r := Ok(charBuffer);
  }
}

/**
 * The slice of java.lang that the modelled classes rely on: 32- and 16-bit
 * integers, UTF-16 strings, Integer.parseInt / Integer.toString,
 * String.lastIndexOf / startsWith / contains / trim, Character.isWhitespace
 * and java.util.StringTokenizer.
 */
module JavaLang {
  import opened Wrappers

  /** An unsigned byte as it travels through a stream. */
  type Byte = b: int | 0 <= b < 0x100

  /** A Java `char`: one UTF-16 code unit. */
  type JChar = c: int | 0 <= c < 0x1_0000

  /** A Java `String`: a sequence of UTF-16 code units. */
  type JString = seq<JChar>

  const INT_MIN: int := -0x8000_0000
  const INT_MAX: int := 0x7FFF_FFFF

  predicate IsInt32(x: int) { INT_MIN <= x <= INT_MAX }

  /** A Java `int`. */
  type Int32 = x: int | -0x8000_0000 <= x <= 0x7FFF_FFFF

  predicate IsInt16(x: int) { -0x8000 <= x < 0x8000 }

  /** Java `int` arithmetic: the result taken modulo 2^32 and read as signed. */
  function WrapInt32(x: int): (r: int)
    ensures IsInt32(r)
    ensures IsInt32(x) ==> r == x
  {
    var low := x % 0x1_0000_0000;
    if low <= INT_MAX then low else low - 0x1_0000_0000
  }

  /** Adding to a wrapped int wraps like adding to the exact sum. */
  lemma WrapInt32Add(a: int, b: int)
    ensures WrapInt32(WrapInt32(a) + b) == WrapInt32(a + b)
  {
    var q := a / 0x1_0000_0000;
    var w := WrapInt32(a);
    assert a == q * 0x1_0000_0000 + a % 0x1_0000_0000;
    assert w == a - q * 0x1_0000_0000 || w == a - (q + 1) * 0x1_0000_0000;
  }

  /** The Java `(short)` cast: keep the low 16 bits and read them as signed. */
  function ToShort(x: int): (r: int)
    ensures IsInt16(r) && (x - r) % 0x1_0000 == 0
    ensures IsInt16(x) ==> r == x
  {
    var low := x % 0x1_0000;
    if low < 0x8000 then low else low - 0x1_0000
  }

  /** Java's `/` on int: truncates toward zero (Dafny's `/` is Euclidean). */
  function JDiv(a: int, b: int): (q: int)
    requires b != 0
    ensures a >= 0 && b > 0 ==> q == a / b
  {
    if (a >= 0) == (b > 0) then Abs(a) / Abs(b) else -(Abs(a) / Abs(b))
  }

  function Abs(x: int): nat { if x < 0 then -x else x }

  /** An ASCII Dafny literal as a Java string. */
  function Lit(s: string): (r: JString)
    ensures |r| == |s|
  {
    seq(|s|, i requires 0 <= i < |s| => (s[i] as int) % 0x1_0000)
  }

  const SPACE: JChar := 32
  const NULL_TEXT: JString := [0x6E, 0x75, 0x6C, 0x6C]  // "null"

  /** A possibly null string as string concatenation renders it. */
  function Text(s: Option<JString>): JString {
    if s.Some? then s.value else NULL_TEXT
  }

  /** The Java exceptions and errors the modelled code can end in. */
  datatype JavaError =
    | EndOfStream                 // EOFException, BufferUnderflowException
    | NegativeArraySize           // NegativeArraySizeException
    | NumberFormat                // NumberFormatException
    | NoSuchElement               // NoSuchElementException from a tokenizer
    | IndexOutOfBounds            // Array-/StringIndexOutOfBoundsException
    | Arithmetic                  // ArithmeticException: division by zero
    | NullPointer                 // NullPointerException
    | ClassCast                   // ClassCastException
    | Fatal(message: JString)     // java.lang.Error
    | IOFailure(message: JString) // IOException
    | IOCause(cause: JavaError)   // IOException wrapping the exception that caused it
    | URISyntax                   // URISyntaxException
    | MalformedURL                // MalformedURLException
    | IllegalArgument             // IllegalArgumentException

  /** `s.lastIndexOf(c)`: the last index holding `c`, or -1. */
  function LastIndexOf<T(==)>(s: seq<T>, c: T): (r: int)
    ensures -1 <= r < |s|
    ensures r >= 0 ==> s[r] == c && forall j :: r < j < |s| ==> s[j] != c
    ensures r == -1 <==> c !in s
  {
    if |s| == 0 then -1
    else if s[|s| - 1] == c then |s| - 1
    else LastIndexOf(s[..|s| - 1], c)
  }

  /** `s.startsWith(p)`. */
  predicate StartsWith<T(==)>(s: seq<T>, p: seq<T>) {
    |p| <= |s| && s[..|p|] == p
  }

  /** `s.contains(t)`: `t` occurs as a contiguous piece of `s`. */
  predicate ContainsSub<T(==)>(s: seq<T>, t: seq<T>) {
    exists i :: 0 <= i <= |s| - |t| && OccursAt(s, t, i)
  }

  predicate OccursAt<T(==)>(s: seq<T>, t: seq<T>, i: int) {
    0 <= i <= |s| - |t| && s[i..i + |t|] == t
  }

  /** `s.trim()`: drops the code units up to U+0020 at both ends. */
  function Trim(s: JString): (r: JString)
    ensures |r| <= |s|
    ensures |r| > 0 ==> r[0] > SPACE && r[|r| - 1] > SPACE
  {
    TrimEnd(TrimStart(s))
  }

  function TrimStart(s: JString): (r: JString)
    ensures |r| <= |s| && r == s[|s| - |r|..]
    ensures |r| > 0 ==> r[0] > SPACE
  {
    if |s| > 0 && s[0] <= SPACE then TrimStart(s[1..]) else s
  }

  function TrimEnd(s: JString): (r: JString)
    ensures |r| <= |s| && r == s[..|r|]
    ensures |r| > 0 ==> r[|r| - 1] > SPACE
  {
    if |s| > 0 && s[|s| - 1] <= SPACE then TrimEnd(s[..|s| - 1]) else s
  }

  /**
   * `Character.isWhitespace(c)`: the space, line and paragraph separators
   * other than the no-break spaces, plus U+0009..U+000D and U+001C..U+001F.
   */
  predicate IsWhitespace(c: JChar) {
    || 0x09 <= c <= 0x0D
    || 0x1C <= c <= 0x20
    || c == 0x1680
    || 0x2000 <= c <= 0x2006
    || 0x2008 <= c <= 0x200A
    || c == 0x2028 || c == 0x2029 || c == 0x205F || c == 0x3000
  }

  // ---------------------------------------------------------------------
  // String.compareTo

  /**
   * `a.compareTo(b)`: the difference of the first differing code units, or
   * of the lengths when one string is a prefix of the other.
   */
  function CompareTo(a: JString, b: JString): int {
    if |a| == 0 || |b| == 0 then |a| - |b|
    else if a[0] != b[0] then a[0] - b[0]
    else CompareTo(a[1..], b[1..])
  }

  lemma {:induction false} CompareToZero(a: JString, b: JString)
    ensures CompareTo(a, b) == 0 <==> a == b
  {
    if |a| > 0 && |b| > 0 && a[0] == b[0] {
      CompareToZero(a[1..], b[1..]);
      assert a == [a[0]] + a[1..] && b == [b[0]] + b[1..];
    }
  }

  lemma {:induction false} CompareToAntisymmetric(a: JString, b: JString)
    ensures CompareTo(b, a) == -CompareTo(a, b)
  {
    if |a| > 0 && |b| > 0 && a[0] == b[0] {
      CompareToAntisymmetric(a[1..], b[1..]);
    }
  }

  lemma {:induction false} CompareToTransitive(a: JString, b: JString, c: JString)
    requires CompareTo(a, b) < 0 && CompareTo(b, c) < 0
    ensures CompareTo(a, c) < 0
  {
    if |a| > 0 && |b| > 0 && |c| > 0 && a[0] == b[0] && b[0] == c[0] {
      CompareToTransitive(a[1..], b[1..], c[1..]);
    }
  }

  // ---------------------------------------------------------------------
  // Decimal integers

  predicate IsDigit(c: JChar) { '0' as int <= c <= '9' as int }

  /** The value of a run of decimal digits. */
  function DigitsValue(ds: JString): nat
    requires forall i :: 0 <= i < |ds| ==> IsDigit(ds[i])
  {
    if |ds| == 0 then 0
    else
      assert IsDigit(ds[|ds| - 1]);
      DigitsValue(ds[..|ds| - 1]) * 10 + (ds[|ds| - 1] - '0' as int)
  }

  /** The decimal digits of `n`, without leading zeros. */
  function NatDigits(n: nat): (r: JString)
    ensures |r| > 0 && forall i :: 0 <= i < |r| ==> IsDigit(r[i])
  {
    if n < 10 then [n + '0' as int] else NatDigits(n / 10) + [n % 10 + '0' as int]
  }

  /** `Integer.toString(x)`, as used by Java string concatenation. */
  function IntToString(x: int): JString {
    if x < 0 then [MINUS] + NatDigits(-x) else NatDigits(x)
  }

  const MINUS: JChar := '-' as int
  const PLUS: JChar := '+' as int

  /**
   * `Integer.parseInt(s)` over ASCII digits: an optional sign and at least
   * one digit '0'..'9', with a value in int range. Java also takes the other
   * Unicode decimal digits (`Character.digit`); here a string holding one of
   * them is rejected like any other string, as a NumberFormatException.
   */
  function ParseInt(s: JString): (r: Option<int>)
    ensures r.Some? ==> IsInt32(r.value)
  {
    if |s| == 0 then None
    else
      var neg := s[0] == MINUS;
      var digits := if s[0] == MINUS || s[0] == PLUS then s[1..] else s;
      if |digits| == 0 || exists i :: 0 <= i < |digits| && !IsDigit(digits[i]) then None
      else
        var mag: int := DigitsValue(digits);
        var v := if neg then -mag else mag;
        if IsInt32(v) then Some(v) else None
  }

  lemma {:induction false} DigitsValueOfNatDigits(n: nat)
    ensures DigitsValue(NatDigits(n)) == n
  {
    if n >= 10 {
      var ds := NatDigits(n);
      assert ds[..|ds| - 1] == NatDigits(n / 10);
      DigitsValueOfNatDigits(n / 10);
    }
  }

  /** Integer.parseInt reads back what Integer.toString wrote. */
  lemma ParseIntToString(x: int)
    requires IsInt32(x)
    ensures ParseInt(IntToString(x)) == Some(x)
  {
    if x < 0 {
      var s := IntToString(x);
      assert s[1..] == NatDigits(-x);
      DigitsValueOfNatDigits(-x);
    } else {
      DigitsValueOfNatDigits(x);
      assert NatDigits(x)[0] != MINUS && NatDigits(x)[0] != PLUS;
    }
  }

  // ---------------------------------------------------------------------
  // java.util.StringTokenizer

  /** The delimiters of `new StringTokenizer(s)`: space, tab, newline, CR, form feed. */
  const DEFAULT_DELIMS: set<JChar> := {32, 9, 10, 13, 12}

  /** The number of leading code units of `s` that are not delimiters. */
  function TokenLength(s: JString, delims: set<JChar>): (n: nat)
    ensures n <= |s|
    ensures forall i :: 0 <= i < n ==> s[i] !in delims
    ensures n < |s| ==> s[n] in delims
  {
    if |s| == 0 || s[0] in delims then 0 else 1 + TokenLength(s[1..], delims)
  }

  /** The tokens a StringTokenizer returns, in order: maximal delimiter-free runs. */
  function Tokens(s: JString, delims: set<JChar>): (r: seq<JString>)
    ensures forall k :: 0 <= k < |r| ==> |r[k]| > 0
    ensures forall k, i :: 0 <= k < |r| && 0 <= i < |r[k]| ==> r[k][i] !in delims
    decreases |s|
  {
    if |s| == 0 then []
    else if s[0] in delims then Tokens(s[1..], delims)
    else
      var n := TokenLength(s, delims);
      [s[..n]] + Tokens(s[n..], delims)
  }

  /** `ts` separated by single `sep` code units. */
  function JoinWith(ts: seq<JString>, sep: JChar): JString {
    if |ts| == 0 then [] else if |ts| == 1 then ts[0] else ts[0] + [sep] + JoinWith(ts[1..], sep)
  }

  /** A token a tokenizer gives back unchanged: non-empty and free of delimiters. */
  predicate IsToken(t: JString, delims: set<JChar>) {
    |t| > 0 && forall i :: 0 <= i < |t| ==> t[i] !in delims
  }

  lemma {:induction false} TokenLengthOfToken(t: JString, rest: JString, delims: set<JChar>)
    requires IsToken(t, delims)
    requires |rest| == 0 || rest[0] in delims
    ensures TokenLength(t + rest, delims) == |t|
  {
    if |t| > 1 {
      assert (t + rest)[1..] == t[1..] + rest;
      TokenLengthOfToken(t[1..], rest, delims);
    } else {
      assert (t + rest)[1..] == rest;
    }
  }

  /** Tokenizing tokens joined by one of the delimiters gives the tokens back. */
  lemma {:induction false} TokensOfJoin(ts: seq<JString>, sep: JChar, delims: set<JChar>)
    requires sep in delims
    requires forall k :: 0 <= k < |ts| ==> IsToken(ts[k], delims)
    ensures Tokens(JoinWith(ts, sep), delims) == ts
  {
    if |ts| == 1 {
      TokenLengthOfToken(ts[0], [], delims);
      assert ts[0] + [] == ts[0];
      assert ts[0][|ts[0]|..] == [];
    } else if |ts| > 1 {
      var s := JoinWith(ts, sep);
      var tail := JoinWith(ts[1..], sep);
      assert s == ts[0] + ([sep] + tail);
      TokenLengthOfToken(ts[0], [sep] + tail, delims);
      assert s[..|ts[0]|] == ts[0];
      assert s[|ts[0]|..] == [sep] + tail;
      assert ([sep] + tail)[1..] == tail;
      TokensOfJoin(ts[1..], sep, delims);
      assert ts == [ts[0]] + ts[1..];
    }
  }

  /** Decimal renderings are tokens for every delimiter that is not a digit or a minus sign. */
  lemma IntToStringIsToken(x: int, delims: set<JChar>)
    requires forall c :: c in delims ==> !IsDigit(c) && c != MINUS
    ensures IsToken(IntToString(x), delims)
  {
    var s := IntToString(x);
    if x < 0 {
      assert forall i :: 1 <= i < |s| ==> s[i] == NatDigits(-x)[i - 1];
    }
  }
}

/**
 * The frames of the arctic-to-FreeTTS converter: a frame of LPC
 * parameters, the STS frame that also carries residuals and is read from
 * three lines of text, and the ASCII form both print.
 */
module ArcticFrames {
  import opened Wrappers
  import opened JavaLang

  const NEWLINE: JChar := 0x0A
  const FRAME: JString := Lit("FRAME")
  const RESIDUAL: JString := Lit("RESIDUAL")

  /** A java.io.PrintStream, by the text printed to it so far. */
  class PrintStream {
    var text: JString

    constructor ()
      ensures text == []
    {
      text := [];
    }

    method Print(s: JString)
      modifies this
      ensures text == old(text) + s
    {
      text := text + s;
    }

    method Println()
      modifies this
      ensures text == old(text) + [NEWLINE]
    {
      text := text + [NEWLINE];
    }
  }

  /** A java.io.BufferedReader over `lines`; `next` is the index of the next line. */
  class LineReader {
    const lines: seq<JString>
    var next: nat

    constructor (lines: seq<JString>)
      ensures this.lines == lines && next == 0
    {
      this.lines := lines;
      next := 0;
    }

    /** The line at `k`, or null past the end. */
    function LineAt(k: nat): Option<JString> {
      if k < |lines| then Some(lines[k]) else None
    }

    /** `readLine()`: the next line, or null at the end of the input. */
    method ReadLine() returns (line: Option<JString>)
      modifies this
      ensures line == LineAt(old(next)) && next == old(next) + 1
    {
      line := LineAt(next);
      next := next + 1;
    }
  }

  /** What the dump loops print for one value: a space and its decimal rendering. */
  function Field(x: int): JString {
    [SPACE] + IntToString(x)
  }

  /** " v" for each value, as the dump loops print them. */
  function Fields(xs: seq<int>): JString {
    if xs == [] then [] else Field(xs[0]) + Fields(xs[1..])
  }

  /** The decimal rendering of each value. */
  function Renderings(xs: seq<int>): seq<JString> {
    if xs == [] then [] else [IntToString(xs[0])] + Renderings(xs[1..])
  }

  /** There is one rendering per value, in the order of the values. */
  lemma {:induction false} RenderingsAt(xs: seq<int>, i: nat)
    requires i < |xs|
    ensures |Renderings(xs)| == |xs| && Renderings(xs)[i] == IntToString(xs[i])
  {
    if i > 0 {
      RenderingsAt(xs[1..], i - 1);
    } else if |xs| > 1 {
      RenderingsAt(xs[1..], 0);
    }
  }

  /** One more value printed. */
  lemma {:induction false} FieldsSnoc(xs: seq<int>, x: int)
    ensures Fields(xs + [x]) == Fields(xs) + Field(x)
  {
    if xs != [] {
      assert (xs + [x])[1..] == xs[1..] + [x];
      FieldsSnoc(xs[1..], x);
    } else {
      assert [x][1..] == [];
    }
  }

  /** A leading delimiter is passed over. */
  lemma TokensSkipDelimiter(s: JString, delims: set<JChar>)
    requires |s| > 0 && s[0] in delims
    ensures Tokens(s, delims) == Tokens(s[1..], delims)
  {
  }

  /** A token followed by a delimiter, or by nothing, is the first token. */
  lemma TokensTakeToken(t: JString, rest: JString, delims: set<JChar>)
    requires IsToken(t, delims)
    requires |rest| == 0 || rest[0] in delims
    ensures Tokens(t + rest, delims) == [t] + Tokens(rest, delims)
  {
    TokenLengthOfToken(t, rest, delims);
    assert (t + rest)[..|t|] == t;
    assert (t + rest)[|t|..] == rest;
  }

  /** The default delimiters are neither digits nor the minus sign. */
  lemma DefaultDelimitersAreNotDigits()
    ensures forall c :: c in DEFAULT_DELIMS ==> !IsDigit(c) && c != MINUS
  {
    forall c | c in DEFAULT_DELIMS
      ensures !IsDigit(c) && c != MINUS
    {
      assert c == 32 || c == 9 || c == 10 || c == 13 || c == 12;
    }
  }

  /** The first value printed is the first token, after its space. */
  lemma FieldsTokensHead(xs: seq<int>)
    requires xs != []
    ensures Tokens(Fields(xs), DEFAULT_DELIMS) == [IntToString(xs[0])] + Tokens(Fields(xs[1..]), DEFAULT_DELIMS)
  {
    var t := IntToString(xs[0]);
    var rest := Fields(xs[1..]);
    var s := [SPACE] + (t + rest);
    assert Fields(xs) == s;
    TokensSkipDelimiter(s, DEFAULT_DELIMS);
    assert s[1..] == t + rest;
    DefaultDelimitersAreNotDigits();
    IntToStringIsToken(xs[0], DEFAULT_DELIMS);
    assert xs[1..] == [] || rest[0] == SPACE;
    TokensTakeToken(t, rest, DEFAULT_DELIMS);
  }

  /** The printed values split back into their renderings. */
  lemma {:induction false} TokensOfFields(xs: seq<int>)
    ensures Tokens(Fields(xs), DEFAULT_DELIMS) == Renderings(xs)
  {
    if xs != [] {
      var t := IntToString(xs[0]);
      var rest := Fields(xs[1..]);
      FieldsTokensHead(xs);
      TokensOfFields(xs[1..]);
      assert Renderings(xs) == [t] + Renderings(xs[1..]);
    }
  }

  /** The first line of the ASCII form: "FRAME" and each parameter. */
  function FrameLine(parameters: seq<int>): JString {
    FRAME + Fields(parameters) + [NEWLINE]
  }

  /**
   * Frame: a pitchmark time and the LPC parameters, shared with the caller.
   * The no-argument constructor leaves the parameters null.
   */
  class Frame {
    var pitchmarkTime: real
    var parameters: array?<Int32>

    constructor Empty()
      ensures pitchmarkTime == 0.0 && parameters == null
    {
      pitchmarkTime := 0.0;
      parameters := null;
    }

    /** The time and the very array given are kept. */
    constructor (pitchmarkTime: real, parameters: array<Int32>)
      ensures this.pitchmarkTime == pitchmarkTime && this.parameters == parameters
    {
      this.pitchmarkTime := pitchmarkTime;
      this.parameters := parameters;
    }

    /**
     * `dumpData(out)`: the FRAME line, then "RESIDUAL 0"; the pitchmark
     * time is not printed. Null parameters throw after "FRAME".
     */
    method DumpData(out: PrintStream) returns (r: Result<(), JavaError>)
      modifies out
      ensures parameters == null ==> r == Err(NullPointer) && out.text == old(out.text) + FRAME
      ensures parameters != null ==>
        r == Ok(()) && out.text == old(out.text) + FrameLine(parameters[..]) + ResidualLine([])
    {
      out.Print(FRAME);
      if parameters == null {
        return Err(NullPointer);
      }
      ghost var t1 := out.text;
      PrintFields(out, parameters);
      ghost var t2 := out.text;
      out.Println();
      ghost var t3 := out.text;
      out.Print(RESIDUAL_ZERO);
      out.Println();
      ResidualZero();
      DumpShape(old(out.text), FRAME, Fields(parameters[..]), [NEWLINE], RESIDUAL + Field(0), [], t1, t2, t3, out.text);
      r := Ok(());
    }
  }

  /** Text printed in two steps after `start`. */
  lemma PrintedAfter<T>(start: seq<T>, a: seq<T>, b: seq<T>, done: seq<T>, text: seq<T>)
    requires done == start + a && text == done + b
    ensures text == start + (a + b)
  {
  }

  const RESIDUAL_ZERO: JString := Lit("RESIDUAL 0")

  /** "RESIDUAL 0" is the residual line of no residuals, without its newline. */
  lemma ResidualZero()
    ensures RESIDUAL_ZERO == RESIDUAL + Field(0) + Fields([])
  {
    assert IntToString(0) == ['0' as int];
  }

  /** The pieces a dump prints, one after the other, make its two lines. */
  lemma DumpShape<T>(start: seq<T>, tag: seq<T>, fields: seq<T>, nl: seq<T>, residual: seq<T>, residualFields: seq<T>,
                     t1: seq<T>, t2: seq<T>, t3: seq<T>, text: seq<T>)
    requires t1 == start + tag && t2 == t1 + fields && t3 == t2 + nl
    requires text == t3 + residual + residualFields + nl
    ensures text == start + (tag + fields + nl) + (residual + residualFields + nl)
  {
  }

  /** Prints " v" for each value of `values`, in order. */
  method PrintFields(out: PrintStream, values: array<Int32>)
    modifies out
    ensures out.text == old(out.text) + Fields(values[..])
  {
    var i := 0;
    while i < values.Length
      invariant 0 <= i <= values.Length
      invariant out.text == old(out.text) + Fields(values[..i])
    {
      ghost var done := out.text;
      out.Print(Field(values[i]));
      PrintedAfter(old(out.text), Fields(values[..i]), Field(values[i]), done, out.text);
      FieldsSnoc(values[..i], values[i]);
      assert values[..i + 1] == values[..i] + [values[i]];
      i := i + 1;
    }
    assert values[..i] == values[..];
  }

  /**
   * `n` ints read with `nextToken` and `parseInt` from the tokens `toks`,
   * starting at `from`: the first token missing or not an int throws.
   */
  function IntTokens(toks: seq<JString>, from: nat, n: nat): (r: Result<seq<Int32>, JavaError>)
    ensures r.Ok? ==> |r.value| == n
  {
    if n == 0 then Ok([])
    else
      match IntTokens(toks, from, n - 1)
      case Err(e) => Err(e)
      case Ok(xs) =>
        if from + n - 1 >= |toks| then Err(NoSuchElement)
        else
          var v := ParseInt(toks[from + n - 1]);
          if v.None? then Err(NumberFormat) else Ok(xs + [v.value])
  }

  /** One more int read. */
  lemma IntTokensSnoc(toks: seq<JString>, from: nat, n: nat, xs: seq<Int32>, x: Int32)
    requires IntTokens(toks, from, n) == Ok(xs) && from + n < |toks| && ParseInt(toks[from + n]) == Some(x)
    ensures IntTokens(toks, from, n + 1) == Ok(xs + [x])
  {
    assert n + 1 - 1 == n;
  }

  /** The ints read from the decimal renderings of values are those values. */
  lemma {:induction false} IntTokensOfRenderings(xs: seq<Int32>, n: nat)
    requires n <= |xs|
    ensures IntTokens(Renderings(xs), 0, n) == Ok(xs[..n])
  {
    if n == 0 {
      assert IntTokens(Renderings(xs), 0, 0) == Ok([]);
    } else {
      IntTokensOfRenderings(xs, n - 1);
      ParseIntToString(xs[n - 1]);
      RenderingsAt(xs, n - 1);
      IntTokensSnoc(Renderings(xs), 0, n - 1, xs[..n - 1], xs[n - 1]);
      assert xs[..n - 1] + [xs[n - 1]] == xs[..n];
    }
  }

  /**
   * What an STS frame reads from its three lines: the pitchmark time from
   * the first, `numChannels` parameters from the tokens of the second
   * (extra tokens ignored), and from the third a count and that many
   * residuals. A missing line, a bad number, too few tokens or a negative
   * size throws. `parseFloat` is Float.parseFloat.
   */
  function ParseFrame(numChannels: Int32, line1: Option<JString>, line2: Option<JString>, line3: Option<JString>,
                      parseFloat: JString -> Option<real>): Result<(real, seq<Int32>, seq<Int32>), JavaError>
  {
    if line1.None? then Err(NullPointer)
    else if parseFloat(line1.value).None? then Err(NumberFormat)
    else if numChannels < 0 then Err(NegativeArraySize)
    else
      match ParseParameters(numChannels, line2)
      case Err(e) => Err(e)
      case Ok(parameters) =>
        match ParseResiduals(line3)
        case Err(e) => Err(e)
        case Ok(residuals) => Ok((parseFloat(line1.value).value, parameters, residuals))
  }

  /** The second line: `numChannels` ints from its tokens. */
  function ParseParameters(numChannels: nat, line: Option<JString>): Result<seq<Int32>, JavaError> {
    if line.None? then Err(NullPointer) else IntTokens(Tokens(line.value, DEFAULT_DELIMS), 0, numChannels)
  }

  /** The third line: a count, then that many ints. */
  function ParseResiduals(line: Option<JString>): Result<seq<Int32>, JavaError> {
    if line.None? then Err(NullPointer)
    else
      var toks := Tokens(line.value, DEFAULT_DELIMS);
      match IntTokens(toks, 0, 1)
      case Err(e) => Err(e)
      case Ok(count) =>
        if count[0] < 0 then Err(NegativeArraySize) else IntTokens(toks, 1, count[0])
  }

  /** The residual line of the ASCII form: "RESIDUAL", the count and each residual. */
  function ResidualLine(residuals: seq<int>): JString {
    RESIDUAL + Field(|residuals|) + Fields(residuals) + [NEWLINE]
  }

  /**
   * The text each dumped line carries after its tag reads back, as the
   * STS frame reader's second and third lines, to the parameters and the
   * residuals; the residual line carries their count first.
   */
  lemma DumpedFieldsReadBack(pitch: JString, parameters: seq<Int32>, residuals: seq<Int32>,
                             parseFloat: JString -> Option<real>)
    requires |parameters| <= INT_MAX && |residuals| <= INT_MAX && parseFloat(pitch).Some?
    ensures ResidualLine(residuals) == RESIDUAL + Fields([|residuals|] + residuals) + [NEWLINE]
    ensures ParseFrame(|parameters|, Some(pitch), Some(Fields(parameters)), Some(Fields([|residuals|] + residuals)), parseFloat)
            == Ok((parseFloat(pitch).value, parameters, residuals))
  {
    var n: Int32 := |residuals|;
    var counted: seq<Int32> := [n] + residuals;
    assert counted[0] == n && counted[1..] == residuals;
    assert Fields(counted) == Field(n) + Fields(residuals);
    Regroup(RESIDUAL, Field(n), Fields(residuals), [NEWLINE]);
    ReadsRenderings(parameters);
    TokensOfFields(counted);
    RenderingsCons(counted);
    ReadsCountedRenderings(residuals);
  }

  /** Concatenation regrouped. */
  lemma Regroup<T>(a: seq<T>, b: seq<T>, c: seq<T>, d: seq<T>)
    ensures a + b + c + d == a + (b + c) + d
  {
  }

  /** The printed values, tokenized, read back as ints. */
  lemma ReadsRenderings(xs: seq<Int32>)
    ensures Tokens(Fields(xs), DEFAULT_DELIMS) == Renderings(xs)
    ensures IntTokens(Renderings(xs), 0, |xs|) == Ok(xs)
  {
    TokensOfFields(xs);
    IntTokensOfRenderings(xs, |xs|);
    assert xs[..|xs|] == xs;
  }

  /** A count and the values read back: the count as one int, then the values. */
  lemma ReadsCountedRenderings(xs: seq<Int32>)
    requires |xs| <= INT_MAX
    ensures IntTokens([IntToString(|xs|)] + Renderings(xs), 0, 1) == Ok([|xs|])
    ensures IntTokens([IntToString(|xs|)] + Renderings(xs), 1, |xs|) == Ok(xs)
  {
    var n: Int32 := |xs|;
    var toks := [IntToString(n)] + Renderings(xs);
    ParseIntToString(n);
    assert toks[0] == IntToString(n);
    assert IntTokens(toks, 0, 0) == Ok([]);
    IntTokensSnoc(toks, 0, 0, [], n);
    assert [] + [n] == [n];
    ReadsAfterCount(IntToString(n), xs);
  }

  /** Values read after a leading token. */
  lemma ReadsAfterCount(a: JString, xs: seq<Int32>)
    ensures IntTokens([a] + Renderings(xs), 1, |xs|) == Ok(xs)
  {
    IntTokensOfRenderings(xs, |xs|);
    assert xs[..|xs|] == xs;
    ShiftedRead(a, Renderings(xs), |xs|, xs);
  }

  /** Ints read from tokens are read the same past one more leading token. */
  lemma ShiftedRead(a: JString, toks: seq<JString>, n: nat, xs: seq<Int32>)
    requires IntTokens(toks, 0, n) == Ok(xs)
    ensures IntTokens([a] + toks, 1, n) == Ok(xs)
  {
    IntTokensShift(a, toks, 0, n);
  }

  /** The first rendering is that of the first value. */
  lemma RenderingsCons(xs: seq<int>)
    requires xs != []
    ensures Renderings(xs) == [IntToString(xs[0])] + Renderings(xs[1..])
  {
  }

  /** Ints read past one more leading token are the same ints. */
  lemma {:induction false} IntTokensShift(a: JString, toks: seq<JString>, from: nat, n: nat)
    ensures IntTokens([a] + toks, from + 1, n) == IntTokens(toks, from, n)
  {
    if n > 0 {
      IntTokensShift(a, toks, from, n - 1);
      if from + n - 1 < |toks| {
        assert ([a] + toks)[from + 1 + n - 1] == toks[from + n - 1];
      }
    }
  }

  /** STSFrame: a frame with its residuals. */
  class STSFrame {
    var pitchmarkTime: real
    var parameters: array<Int32>
    var residuals: array<Int32>

    constructor (pitchmarkTime: real, parameters: array<Int32>, residuals: array<Int32>)
      ensures this.pitchmarkTime == pitchmarkTime && this.parameters == parameters && this.residuals == residuals
    {
      this.pitchmarkTime := pitchmarkTime;
      this.parameters := parameters;
      this.residuals := residuals;
    }

    /**
     * The STSFrame constructor: reads three lines from `reader` and parses
     * them as ParseFrame says; a failing line stops the reading there.
     */
    static method Read(numChannels: Int32, reader: LineReader, parseFloat: JString -> Option<real>)
      returns (r: Result<STSFrame, JavaError>)
      modifies reader
      ensures var p := old(reader.next);
              var parsed := ParseFrame(numChannels, reader.LineAt(p), reader.LineAt(p + 1), reader.LineAt(p + 2), parseFloat);
              && (r.Ok? <==> parsed.Ok?)
              && (r.Err? ==> r.error == parsed.error)
              && (r.Ok? ==> && fresh(r.value) && fresh(r.value.parameters) && fresh(r.value.residuals)
                            && r.value.pitchmarkTime == parsed.value.0
                            && r.value.parameters[..] == parsed.value.1
                            && r.value.residuals[..] == parsed.value.2
                            && reader.next == p + 3)
    {
      var line := reader.ReadLine();
      if line.None? {
        return Err(NullPointer);
      }
      var pitch := parseFloat(line.value);
      if pitch.None? {
        return Err(NumberFormat);
      }
      if numChannels < 0 {
        return Err(NegativeArraySize);
      }
      var parameters := ReadParameters(numChannels, reader);
      if parameters.Err? {
        return Err(parameters.error);
      }
      var residuals := ReadResiduals(reader);
      if residuals.Err? {
        return Err(residuals.error);
      }
      var frame := new STSFrame(pitch.value, parameters.value, residuals.value);
      r := Ok(frame);
    }

    /** The parameters: one line read, and `numChannels` ints from it. */
    static method ReadParameters(numChannels: nat, reader: LineReader) returns (r: Result<array<Int32>, JavaError>)
      modifies reader
      ensures reader.next == old(reader.next) + 1
      ensures var parsed := ParseParameters(numChannels, reader.LineAt(old(reader.next)));
              && (r.Ok? <==> parsed.Ok?)
              && (r.Err? ==> r.error == parsed.error)
              && (r.Ok? ==> fresh(r.value) && r.value[..] == parsed.value)
    {
      var parameters := new Int32[numChannels];
      var line := reader.ReadLine();
      if line.None? {
        return Err(NullPointer);
      }
      var failed := FillInts(parameters, Tokens(line.value, DEFAULT_DELIMS), 0);
      if failed.Some? {
        return Err(failed.value);
      }
      r := Ok(parameters);
    }

    /** The residuals: one line read, a count and that many ints from it. */
    static method ReadResiduals(reader: LineReader) returns (r: Result<array<Int32>, JavaError>)
      modifies reader
      ensures reader.next == old(reader.next) + 1
      ensures var parsed := ParseResiduals(reader.LineAt(old(reader.next)));
              && (r.Ok? <==> parsed.Ok?)
              && (r.Err? ==> r.error == parsed.error)
              && (r.Ok? ==> fresh(r.value) && r.value[..] == parsed.value)
    {
      var line := reader.ReadLine();
      if line.None? {
        return Err(NullPointer);
      }
      var toks := Tokens(line.value, DEFAULT_DELIMS);
      var count := new Int32[1];
      var failed := FillInts(count, toks, 0);
      if failed.Some? {
        return Err(failed.value);
      }
      if count[0] < 0 {
        return Err(NegativeArraySize);
      }
      var residuals := new Int32[count[0]];
      failed := FillInts(residuals, toks, 1);
      if failed.Some? {
        return Err(failed.value);
      }
      r := Ok(residuals);
    }

    /**
     * `dumpData(out)`: the FRAME line and the RESIDUAL line; the pitchmark
     * time is not printed.
     */
    method DumpData(out: PrintStream)
      modifies out
      ensures out.text == old(out.text) + FrameLine(parameters[..]) + ResidualLine(residuals[..])
    {
      out.Print(FRAME);
      ghost var t1 := out.text;
      PrintFields(out, parameters);
      ghost var t2 := out.text;
      out.Println();
      ghost var t3 := out.text;
      out.Print(RESIDUAL + Field(residuals.Length));
      ghost var t4 := out.text;
      PrintFields(out, residuals);
      ghost var t5 := out.text;
      out.Println();
      assert out.text == t5 + [NEWLINE];
      assert t5 == t4 + Fields(residuals[..]);
      assert t4 == t3 + (RESIDUAL + Field(residuals.Length));
      DumpShape(old(out.text), FRAME, Fields(parameters[..]), [NEWLINE], RESIDUAL + Field(residuals.Length),
                Fields(residuals[..]), t1, t2, t3, out.text);
    }
  }

  /**
   * The tokenizer loop: fills `a` with ints parsed from `toks[from..]`,
   * stopping at the first token that is missing or not an int.
   */
  method FillInts(a: array<Int32>, toks: seq<JString>, from: nat) returns (failed: Option<JavaError>)
    modifies a
    ensures failed.None? <==> IntTokens(toks, from, a.Length).Ok?
    ensures failed.Some? ==> failed.value == IntTokens(toks, from, a.Length).error
    ensures failed.None? ==> a[..] == IntTokens(toks, from, a.Length).value
  {
    var i := 0;
    while i < a.Length
      invariant 0 <= i <= a.Length
      invariant IntTokens(toks, from, i) == Ok(a[..i])
    {
      if from + i >= |toks| {
        IntTokensStopped(toks, from, i, a.Length, NoSuchElement);
        return Some(NoSuchElement);
      }
      var v := ParseInt(toks[from + i]);
      if v.None? {
        IntTokensStopped(toks, from, i, a.Length, NumberFormat);
        return Some(NumberFormat);
      }
      a[i] := v.value;
      assert a[..i + 1] == a[..i] + [v.value];
      i := i + 1;
    }
    assert a[..i] == a[..];
    failed := None;
  }

  /** Once the token at `from + i` fails, reading more ints fails the same way. */
  lemma {:induction false} IntTokensStopped(toks: seq<JString>, from: nat, i: nat, n: nat, e: JavaError)
    requires i < n && IntTokens(toks, from, i).Ok? && IntTokens(toks, from, i + 1) == Err(e)
    ensures IntTokens(toks, from, n) == Err(e)
    decreases n
  {
    if n > i + 1 {
      IntTokensStopped(toks, from, i, n - 1, e);
    }
  }
}

/**
 * The text form of a cluster unit database, as `loadText` and
 * `parseAndAdd` read it: one tagged line per setting or record, split at
 * spaces; lines starting with "***" are comments. A sample set or a CART
 * goes on reading the lines after its tag line; those readers are
 * parameters.
 */
module ClusterUnitText {
  import opened Wrappers
  import opened JavaLang
  import opened ClusterUnitRecords
  import opened ClusterUnitFormat

  /**
   * The collaborators of the text loader. `readSampleSet` is handed the
   * tokens left on the STS line and the lines after it, `readCart` the node
   * count and the lines after the CART line; each yields its value and the
   * number of lines it consumed.
   */
  datatype TextCodec<!SS, !C> = TextCodec(
    readSampleSet: (seq<JString>, seq<JString>) -> Result<(SS, nat), JavaError>,
    readCart: (Int32, seq<JString>) -> Result<(C, nat), JavaError>)

  const CONTINUITY_WEIGHT: JString := Lit("CONTINUITY_WEIGHT")
  const OPTIMAL_COUPLING: JString := Lit("OPTIMAL_COUPLING")
  const EXTEND_SELECTIONS: JString := Lit("EXTEND_SELECTIONS")
  const JOIN_METHOD: JString := Lit("JOIN_METHOD")
  const JOIN_WEIGHTS: JString := Lit("JOIN_WEIGHTS")
  const STS: JString := Lit("STS")
  const UNITS: JString := Lit("UNITS")
  const CART: JString := Lit("CART")
  const UNIT_TYPE: JString := Lit("UNIT_TYPE")
  const COMMENT: JString := Lit("***")

  /** The tags `parseAndAdd` knows. */
  predicate IsTag(t: JString) {
    t == CONTINUITY_WEIGHT || t == OPTIMAL_COUPLING || t == EXTEND_SELECTIONS || t == JOIN_METHOD
    || t == JOIN_WEIGHTS || t == STS || t == UNITS || t == CART || t == UNIT_TYPE
  }

  /** The delimiters of the line tokenizer: a space only. */
  const LINE_DELIMS: set<JChar> := {SPACE}

  /** How an exception from inside `parseAndAdd` reaches the caller of `loadText`. */
  function Caught(e: JavaError, line: JString): LoadError {
    match e
    case NoSuchElement => MissingToken
    case NumberFormat => BadNumber(line)
    case _ => Thrown(e)
  }

  /** `Integer.parseInt(tokenizer.nextToken())` on argument `k` of the line. */
  function IntArg(args: seq<JString>, k: nat, line: JString): (r: Result<Int32, LoadError>)
    ensures r.Ok? <==> k < |args| && ParseInt(args[k]).Some?
    ensures r.Ok? ==> r.value == ParseInt(args[k]).value
    ensures k >= |args| ==> r == Err(MissingToken)
  {
    if k >= |args| then Err(MissingToken)
    else match ParseInt(args[k])
      case None => Err(BadNumber(line))
      case Some(v) => Ok(v)
  }

  /** `n` int arguments from argument `from` on, read in order: the first bad one fails. */
  function IntArgs(args: seq<JString>, from: nat, n: nat, line: JString): (r: Result<seq<Int32>, LoadError>)
    ensures r.Ok? ==> |r.value| == n
  {
    if n == 0 then Ok([])
    else
      match IntArgs(args, from, n - 1, line)
      case Err(e) => Err(e)
      case Ok(xs) =>
        match IntArg(args, from + n - 1, line)
        case Err(e) => Err(e)
        case Ok(x) => Ok(xs + [x])
  }

  /** Once an argument fails, reading more arguments fails the same way. */
  lemma {:induction false} IntArgsStops(args: seq<JString>, from: nat, i: nat, n: nat, line: JString)
    requires i <= n && IntArgs(args, from, i, line).Err?
    ensures IntArgs(args, from, n, line) == IntArgs(args, from, i, line)
  {
    if i < n {
      IntArgsStops(args, from, i, n - 1, line);
    }
  }

  /**
   * One line that is not a comment: the state after it and the number of
   * following lines its payload took, or why loading fails.
   */
  function ParseLine<SS, C>(img: DbImage<SS, C>, line: JString, rest: seq<JString>, codec: TextCodec<SS, C>)
    : (r: Result<(DbImage<SS, C>, nat), LoadError>)
    ensures r.Ok? ==> r.value.1 <= |rest|
  {
    var toks := Tokens(line, LINE_DELIMS);
    if |toks| == 0 then Err(MissingToken)
    else ParseTagged(img, toks[0], toks[1..], line, rest, codec)
  }

  /** `parseAndAdd` once the tag has been split off the line. */
  function ParseTagged<SS, C>(img: DbImage<SS, C>, tag: JString, args: seq<JString>, line: JString,
                              rest: seq<JString>, codec: TextCodec<SS, C>)
    : (r: Result<(DbImage<SS, C>, nat), LoadError>)
    ensures r.Ok? ==> r.value.1 <= |rest|
  {
    if tag == CONTINUITY_WEIGHT then
      (match IntArg(args, 0, line)
       case Err(e) => Err(e)
       case Ok(v) => Ok((img.(continuityWeight := v), 0)))
    else if tag == OPTIMAL_COUPLING then
      (match IntArg(args, 0, line)
       case Err(e) => Err(e)
       case Ok(v) => Ok((img.(optimalCoupling := v), 0)))
    else if tag == EXTEND_SELECTIONS then
      (match IntArg(args, 0, line)
       case Err(e) => Err(e)
       case Ok(v) => Ok((img.(extendSelections := v), 0)))
    else if tag == JOIN_METHOD then
      (match IntArg(args, 0, line)
       case Err(e) => Err(e)
       case Ok(v) => Ok((img.(joinMethod := v), 0)))
    else if tag == JOIN_WEIGHTS then
      (match IntArg(args, 0, line)
       case Err(e) => Err(e)
       case Ok(num) =>
         if num < 0 then Err(Thrown(NegativeArraySize))
         else
           match IntArgs(args, 1, num, line)
           case Err(e) => Err(e)
           case Ok(ws) =>
             match JoinWeightShift(ws)
             case Err(e) => Err(Thrown(e))
             case Ok(shift) => Ok((img.(joinWeights := Some(ws), joinWeightShift := shift), 0)))
    else if tag == STS then
      (if |args| == 0 then Err(MissingToken)
       else
         match codec.readSampleSet(args[1..], rest)
         case Err(e) => Err(Caught(e, line))
         case Ok((ss, n)) =>
           var img' := if args[0] == STS then img.(sts := Some(ss)) else img.(mcep := Some(ss));
           Ok((img', if n <= |rest| then n else |rest|)))
    else if tag == UNITS then
      (match IntArgs(args, 0, 6, line)
       case Err(e) => Err(e)
       case Ok(v) =>
         Ok((img.(units := img.units + [DatabaseClusterUnit(v[0], v[1], v[2], v[3], v[4], v[5])]), 0)))
    else if tag == CART then
      (if |args| == 0 then Err(MissingToken)
       else
         match IntArg(args, 1, line)
         case Err(e) => Err(e)
         case Ok(nodes) =>
           match codec.readCart(nodes, rest)
           case Err(e) => Err(Caught(e, line))
           case Ok((cart, n)) =>
             var default := if img.defaultCart.None? then Some(cart) else img.defaultCart;
             Ok((img.(cartMap := img.cartMap[args[0] := cart], defaultCart := default),
                 if n <= |rest| then n else |rest|)))
    else if tag == UNIT_TYPE then
      (if |args| == 0 then Err(MissingToken)
       else
         match IntArg(args, 1, line)
         case Err(e) => Err(e)
         case Ok(start) =>
           match IntArg(args, 2, line)
           case Err(e) => Err(e)
           case Ok(count) => Ok((img.(unitTypes := img.unitTypes + [UnitType(args[0], start, count)]), 0)))
    else Err(UnsupportedTag(tag, line))
  }

  /** The lines from here to the end of the file, read into `img`. */
  function LoadLines<SS, C>(img: DbImage<SS, C>, lines: seq<JString>, codec: TextCodec<SS, C>)
    : Result<DbImage<SS, C>, LoadError>
    decreases |lines|
  {
    if |lines| == 0 then Ok(img)
    else if StartsWith(lines[0], COMMENT) then LoadLines(img, lines[1..], codec)
    else
      match ParseLine(img, lines[0], lines[1..], codec)
      case Err(e) => Err(e)
      case Ok((img', n)) => LoadLines(img', lines[1..][n..], codec)
  }

  /**
   * The line at `i`: a comment is skipped, any other line is parsed with the
   * lines after it. The state after it and the index of the next line to read.
   */
  function LineAt<SS, C>(img: DbImage<SS, C>, lines: seq<JString>, i: nat, codec: TextCodec<SS, C>)
    : (r: Result<(DbImage<SS, C>, nat), LoadError>)
    requires i < |lines|
    ensures r.Ok? ==> i < r.value.1 <= |lines|
  {
    if StartsWith(lines[i], COMMENT) then Ok((img, i + 1))
    else
      match ParseLine(img, lines[i], lines[i + 1..], codec)
      case Err(e) => Err(e)
      case Ok((img', n)) => Ok((img', i + 1 + n))
  }

  /** Loading from line `i` is reading that line, then loading from the next one. */
  lemma LoadLinesAt<SS, C>(img: DbImage<SS, C>, lines: seq<JString>, i: nat, codec: TextCodec<SS, C>)
    requires i < |lines|
    ensures LineAt(img, lines, i, codec).Err? ==> LoadLines(img, lines[i..], codec) == Err(LineAt(img, lines, i, codec).error)
    ensures LineAt(img, lines, i, codec).Ok? ==>
      LoadLines(img, lines[i..], codec)
        == LoadLines(LineAt(img, lines, i, codec).value.0, lines[LineAt(img, lines, i, codec).value.1..], codec)
  {
    assert lines[i..][0] == lines[i];
    assert lines[i..][1..] == lines[i + 1..];
    var p := ParseLine(img, lines[i], lines[i + 1..], codec);
    if !StartsWith(lines[i], COMMENT) && p.Ok? {
      assert lines[i + 1..][p.value.1..] == lines[i + 1 + p.value.1..];
    }
  }

  /**
   * What `loadText` makes of a database in state `img`: no stream is an
   * error; otherwise the units and unit types are the ones the file lists,
   * while its settings and CARTs are laid over the ones already there.
   */
  function LoadTextImage<SS, C>(img: DbImage<SS, C>, input: Option<seq<JString>>, codec: TextCodec<SS, C>)
    : Result<DbImage<SS, C>, LoadError>
  {
    match input
    case None => Err(NoDatabase)
    case Some(lines) => LoadLines(img.(units := [], unitTypes := []), lines, codec)
  }

  // ---------------------------------------------------------------------
  // Properties of the text loader

  /** The first tag token of a line decides it: an unknown one is an error naming it. */
  lemma UnknownTagRejected<SS, C>(img: DbImage<SS, C>, line: JString, lines: seq<JString>, codec: TextCodec<SS, C>)
    requires !StartsWith(line, COMMENT)
    requires |Tokens(line, LINE_DELIMS)| > 0 && !IsTag(Tokens(line, LINE_DELIMS)[0])
    ensures LoadLines(img, [line] + lines, codec) == Err(UnsupportedTag(Tokens(line, LINE_DELIMS)[0], line))
  {
    assert ([line] + lines)[0] == line;
  }

  /**
   * Loading only adds: units and unit types are appended after the ones
   * already read, and once a default CART is set it stays.
   */
  lemma {:induction false} LoadLinesExtends<SS, C>(img: DbImage<SS, C>, lines: seq<JString>, codec: TextCodec<SS, C>)
    requires LoadLines(img, lines, codec).Ok?
    ensures var r := LoadLines(img, lines, codec).value;
      && img.units <= r.units
      && img.unitTypes <= r.unitTypes
      && (img.defaultCart.Some? ==> r.defaultCart == img.defaultCart)
      && (img.cartMap.Keys <= r.cartMap.Keys)
      && (r.cartMap.Keys != img.cartMap.Keys ==> r.defaultCart.Some?)
    decreases |lines|
  {
    if |lines| > 0 {
      if StartsWith(lines[0], COMMENT) {
        LoadLinesExtends(img, lines[1..], codec);
      } else {
        var (img', n) := ParseLine(img, lines[0], lines[1..], codec).value;
        LoadLinesExtends(img', lines[1..][n..], codec);
        LoadLinesStep(img, lines, codec, img', n);
      }
    }
  }

  /**
   * The CART the reader returns for the first CART line the loader reaches,
   * the lines before it read as `LoadLines` reads them; None if loading
   * fails first or no CART line is reached.
   */
  function FirstCart<SS, C>(img: DbImage<SS, C>, lines: seq<JString>, codec: TextCodec<SS, C>): Option<C>
    decreases |lines|
  {
    if |lines| == 0 then None
    else if StartsWith(lines[0], COMMENT) then FirstCart(img, lines[1..], codec)
    else
      match ParseLine(img, lines[0], lines[1..], codec)
      case Err(_) => None
      case Ok((img', n)) =>
        var toks := Tokens(lines[0], LINE_DELIMS);
        if toks[0] == CART then
          match IntArg(toks[1..], 1, lines[0])
          case Err(_) => None
          case Ok(nodes) =>
            match codec.readCart(nodes, lines[1..])
            case Err(_) => None
            case Ok((cart, _)) => Some(cart)
        else FirstCart(img', lines[1..][n..], codec)
  }

  /** Loading into a state without a default CART makes the first CART read the default. */
  lemma {:induction false} DefaultIsFirstCart<SS, C>(img: DbImage<SS, C>, lines: seq<JString>, codec: TextCodec<SS, C>)
    requires img.defaultCart.None? && LoadLines(img, lines, codec).Ok?
    ensures LoadLines(img, lines, codec).value.defaultCart == FirstCart(img, lines, codec)
    decreases |lines|
  {
    if |lines| > 0 {
      if StartsWith(lines[0], COMMENT) {
        DefaultIsFirstCart(img, lines[1..], codec);
      } else {
        var (img', n) := ParseLine(img, lines[0], lines[1..], codec).value;
        LoadLinesStep(img, lines, codec, img', n);
        var toks := Tokens(lines[0], LINE_DELIMS);
        assert ParseLine(img, lines[0], lines[1..], codec)
          == ParseTagged(img, toks[0], toks[1..], lines[0], lines[1..], codec);
        if toks[0] == CART {
          LoadLinesExtends(img', lines[1..][n..], codec);
        } else {
          assert img'.defaultCart == img.defaultCart;
          DefaultIsFirstCart(img', lines[1..][n..], codec);
        }
      }
    }
  }

  // The lines a database writes for its records, and the loader reading them back.

  /** The UNITS line of a unit. */
  function UnitLine(u: DatabaseClusterUnit): JString {
    JoinWith([UNITS, IntToString(u.unitType), IntToString(u.phone), IntToString(u.start),
              IntToString(u.end), IntToString(u.prev), IntToString(u.next)], SPACE)
  }

  /** The UNIT_TYPE line of a unit type. */
  function UnitTypeLine(t: UnitType): JString {
    JoinWith([UNIT_TYPE, t.name, IntToString(t.start), IntToString(t.count)], SPACE)
  }

  /** The JOIN_WEIGHTS line of some weights: their number, then each weight. */
  function WeightsLine(ws: seq<Int32>): JString {
    JoinWith([JOIN_WEIGHTS, IntToString(|ws|)] + seq(|ws|, i requires 0 <= i < |ws| => IntToString(ws[i])), SPACE)
  }

  function Lines<T>(f: T -> JString, xs: seq<T>): (r: seq<JString>)
    ensures |r| == |xs| && forall i :: 0 <= i < |xs| ==> r[i] == f(xs[i])
  {
    seq(|xs|, i requires 0 <= i < |xs| => f(xs[i]))
  }

  lemma IntStringsAreTokens()
    ensures forall x: int :: IsToken(IntToString(x), LINE_DELIMS)
  {
    forall x: int ensures IsToken(IntToString(x), LINE_DELIMS) {
      IntToStringIsToken(x, LINE_DELIMS);
    }
  }

  lemma TagIsToken(t: JString)
    requires t == UNITS || t == UNIT_TYPE || t == JOIN_WEIGHTS
    ensures IsToken(t, LINE_DELIMS) && t[0] != COMMENT[0]
  {
    assert COMMENT[0] == '*' as int;
    assert UNITS[0] == 'U' as int && UNIT_TYPE[0] == 'U' as int && JOIN_WEIGHTS[0] == 'J' as int;
  }

  /** A line that is not a comment, and what it parses to, is how loading goes on. */
  lemma LoadLinesStep<SS, C>(img: DbImage<SS, C>, lines: seq<JString>, codec: TextCodec<SS, C>,
                             img': DbImage<SS, C>, n: nat)
    requires |lines| > 0 && !StartsWith(lines[0], COMMENT)
    requires ParseLine(img, lines[0], lines[1..], codec) == Ok((img', n))
    ensures LoadLines(img, lines, codec) == LoadLines(img', lines[1..][n..], codec)
  {
  }

  /** A line starting with a tag other than the comment mark is not a comment. */
  lemma NotComment(line: JString, tag: JString)
    requires |tag| > 0 && tag[0] != COMMENT[0] && StartsWith(line, tag)
    ensures !StartsWith(line, COMMENT)
  {
    assert line[0] == tag[0];
  }

  /** A UNITS line appends exactly its unit. */
  lemma ParseUnitLine<SS, C>(img: DbImage<SS, C>, u: DatabaseClusterUnit, rest: seq<JString>, codec: TextCodec<SS, C>)
    ensures ParseLine(img, UnitLine(u), rest, codec) == Ok((img.(units := img.units + [u]), 0))
  {
    var args := UnitArgs(u);
    UnitLineTokens(u);
    var ws := [u.unitType, u.phone, u.start, u.end, u.prev, u.next];
    IntArgsOfStrings(args, 0, ws, 6, UnitLine(u));
    assert ws[..6] == ws;
    assert ParseLine(img, UnitLine(u), rest, codec) == ParseTagged(img, UNITS, args, UnitLine(u), rest, codec);
  }

  function UnitArgs(u: DatabaseClusterUnit): seq<JString> {
    [IntToString(u.unitType), IntToString(u.phone), IntToString(u.start),
     IntToString(u.end), IntToString(u.prev), IntToString(u.next)]
  }

  lemma UnitLineTokens(u: DatabaseClusterUnit)
    ensures Tokens(UnitLine(u), LINE_DELIMS) == [UNITS] + UnitArgs(u)
  {
    IntStringsAreTokens();
    TagIsToken(UNITS);
    var toks := [UNITS] + UnitArgs(u);
    assert toks == [UNITS, IntToString(u.unitType), IntToString(u.phone), IntToString(u.start),
                    IntToString(u.end), IntToString(u.prev), IntToString(u.next)];
    TokensOfJoin(toks, SPACE, LINE_DELIMS);
  }

  /** A UNIT_TYPE line appends exactly its unit type, when the name is one token. */
  lemma ParseUnitTypeLine<SS, C>(img: DbImage<SS, C>, t: UnitType, rest: seq<JString>, codec: TextCodec<SS, C>)
    requires IsToken(t.name, LINE_DELIMS)
    ensures ParseLine(img, UnitTypeLine(t), rest, codec) == Ok((img.(unitTypes := img.unitTypes + [t]), 0))
  {
    var args := [t.name, IntToString(t.start), IntToString(t.count)];
    IntStringsAreTokens();
    TagIsToken(UNIT_TYPE);
    TokensOfJoin([UNIT_TYPE] + args, SPACE, LINE_DELIMS);
    assert [UNIT_TYPE] + args == [UNIT_TYPE, t.name, IntToString(t.start), IntToString(t.count)];
    assert Tokens(UnitTypeLine(t), LINE_DELIMS)[1..] == args;
    ParseIntToString(t.start);
    ParseIntToString(t.count);
  }

  /** The int arguments a line renders are read back in order. */
  lemma {:induction false} IntArgsOfStrings(args: seq<JString>, from: nat, ws: seq<Int32>, n: nat, line: JString)
    requires n <= |ws| && from + |ws| <= |args|
    requires forall i :: 0 <= i < |ws| ==> args[from + i] == IntToString(ws[i])
    ensures IntArgs(args, from, n, line) == Ok(ws[..n])
  {
    if n > 0 {
      IntArgsOfStrings(args, from, ws, n - 1, line);
      assert args[from + (n - 1)] == IntToString(ws[n - 1]);
      ParseIntToString(ws[n - 1]);
      assert IntArg(args, from + n - 1, line) == Ok(ws[n - 1]);
      assert ws[..n - 1] + [ws[n - 1]] == ws[..n];
    }
  }

  /**
   * A JOIN_WEIGHTS line sets the weights and recomputes the shift from them
   * (no shift is stored in the text form).
   */
  lemma ParseWeightsLine<SS, C>(img: DbImage<SS, C>, ws: seq<Int32>, rest: seq<JString>, codec: TextCodec<SS, C>)
    requires |ws| <= INT_MAX && JoinWeightShift(ws).Ok?
    ensures ParseLine(img, WeightsLine(ws), rest, codec)
      == Ok((img.(joinWeights := Some(ws), joinWeightShift := JoinWeightShift(ws).value), 0))
  {
    var toks := Tokens(WeightsLine(ws), LINE_DELIMS);
    var args := WeightsLineArgs(ws);
    assert toks[0] == JOIN_WEIGHTS && toks[1..] == args;
    ParseIntToString(|ws|);
    assert IntArg(args, 0, WeightsLine(ws)) == Ok(|ws|);
    IntArgsOfStrings(args, 1, ws, |ws|, WeightsLine(ws));
    assert ws[..|ws|] == ws;
  }

  /** The tokens of a JOIN_WEIGHTS line: the tag, the count, then each weight. */
  lemma WeightsLineArgs(ws: seq<Int32>) returns (args: seq<JString>)
    ensures Tokens(WeightsLine(ws), LINE_DELIMS) == [JOIN_WEIGHTS] + args
    ensures |args| == 1 + |ws| && args[0] == IntToString(|ws|)
    ensures forall i :: 0 <= i < |ws| ==> args[1 + i] == IntToString(ws[i])
  {
    var strs := seq(|ws|, i requires 0 <= i < |ws| => IntToString(ws[i]));
    var toks := [JOIN_WEIGHTS, IntToString(|ws|)] + strs;
    IntStringsAreTokens();
    TagIsToken(JOIN_WEIGHTS);
    TokensOfJoin(toks, SPACE, LINE_DELIMS);
    args := toks[1..];
    assert toks == [JOIN_WEIGHTS] + args;
    assert args == [IntToString(|ws|)] + strs;
  }

  /** `xs` applied one after another to `img` by `add`. */
  function AddAll<SS, C, T>(add: (DbImage<SS, C>, T) -> DbImage<SS, C>, img: DbImage<SS, C>, xs: seq<T>)
    : DbImage<SS, C>
    decreases |xs|
  {
    if |xs| == 0 then img else AddAll(add, add(img, xs[0]), xs[1..])
  }

  /**
   * Lines that each parse to one record, with no payload lines, are loaded
   * one record after another.
   */
  lemma {:induction false} LoadRecordLines<SS, C, T>(img: DbImage<SS, C>, render: T -> JString,
                                                     add: (DbImage<SS, C>, T) -> DbImage<SS, C>, xs: seq<T>,
                                                     lines: seq<JString>, codec: TextCodec<SS, C>)
    requires forall x :: x in xs ==> !StartsWith(render(x), COMMENT)
    requires forall x, im: DbImage<SS, C>, rest :: x in xs ==>
      ParseLine(im, render(x), rest, codec) == Ok((add(im, x), 0))
    ensures LoadLines(img, Lines(render, xs) + lines, codec) == LoadLines(AddAll(add, img, xs), lines, codec)
    decreases |xs|
  {
    var all := Lines(render, xs) + lines;
    if |xs| == 0 {
      assert all == lines;
    } else {
      var tail := Lines(render, xs[1..]) + lines;
      assert all[0] == render(xs[0]);
      assert all[1..][0..] == tail;
      assert ParseLine(img, all[0], all[1..], codec) == Ok((add(img, xs[0]), 0));
      LoadLinesStep(img, all, codec, add(img, xs[0]), 0);
      LoadRecordLines(add(img, xs[0]), render, add, xs[1..], lines, codec);
    }
  }

  function AddUnit<SS, C>(img: DbImage<SS, C>, u: DatabaseClusterUnit): DbImage<SS, C> {
    img.(units := img.units + [u])
  }

  function AddUnitType<SS, C>(img: DbImage<SS, C>, t: UnitType): DbImage<SS, C> {
    img.(unitTypes := img.unitTypes + [t])
  }

  lemma {:induction false} AddAllUnits<SS, C>(img: DbImage<SS, C>, us: seq<DatabaseClusterUnit>)
    ensures AddAll(AddUnit, img, us) == img.(units := img.units + us)
    decreases |us|
  {
    if |us| == 0 {
      assert img.units + us == img.units;
    } else {
      AddAllUnits(AddUnit(img, us[0]), us[1..]);
      assert img.units + [us[0]] + us[1..] == img.units + us;
    }
  }

  lemma {:induction false} AddAllUnitTypes<SS, C>(img: DbImage<SS, C>, ts: seq<UnitType>)
    ensures AddAll(AddUnitType, img, ts) == img.(unitTypes := img.unitTypes + ts)
    decreases |ts|
  {
    if |ts| == 0 {
      assert img.unitTypes + ts == img.unitTypes;
    } else {
      AddAllUnitTypes(AddUnitType(img, ts[0]), ts[1..]);
      assert img.unitTypes + [ts[0]] + ts[1..] == img.unitTypes + ts;
    }
  }

  /** The UNITS lines of some units, loaded in order, append those units in order. */
  lemma LoadUnitLines<SS, C>(img: DbImage<SS, C>, us: seq<DatabaseClusterUnit>,
                             lines: seq<JString>, codec: TextCodec<SS, C>)
    ensures LoadLines(img, Lines(UnitLine, us) + lines, codec)
      == LoadLines(img.(units := img.units + us), lines, codec)
  {
    TagIsToken(UNITS);
    forall u | u in us ensures !StartsWith(UnitLine(u), COMMENT) {
      assert StartsWith(UnitLine(u), UNITS);
      NotComment(UnitLine(u), UNITS);
    }
    forall u, im: DbImage<SS, C>, rest | u in us
      ensures ParseLine(im, UnitLine(u), rest, codec) == Ok((AddUnit(im, u), 0))
    {
      ParseUnitLine(im, u, rest, codec);
    }
    LoadRecordLines(img, UnitLine, AddUnit, us, lines, codec);
    AddAllUnits(img, us);
  }

  /** The UNIT_TYPE lines of some unit types, loaded in order, append them in order. */
  lemma LoadUnitTypeLines<SS, C>(img: DbImage<SS, C>, ts: seq<UnitType>,
                                 lines: seq<JString>, codec: TextCodec<SS, C>)
    requires forall i :: 0 <= i < |ts| ==> IsToken(ts[i].name, LINE_DELIMS)
    ensures LoadLines(img, Lines(UnitTypeLine, ts) + lines, codec)
      == LoadLines(img.(unitTypes := img.unitTypes + ts), lines, codec)
  {
    TagIsToken(UNIT_TYPE);
    forall t | t in ts ensures !StartsWith(UnitTypeLine(t), COMMENT) {
      assert StartsWith(UnitTypeLine(t), UNIT_TYPE);
      NotComment(UnitTypeLine(t), UNIT_TYPE);
    }
    forall t, im: DbImage<SS, C>, rest | t in ts
      ensures ParseLine(im, UnitTypeLine(t), rest, codec) == Ok((AddUnitType(im, t), 0))
    {
      ParseUnitTypeLine(im, t, rest, codec);
    }
    LoadRecordLines(img, UnitTypeLine, AddUnitType, ts, lines, codec);
    AddAllUnitTypes(img, ts);
  }

  /** Comment lines are skipped wherever they stand between records. */
  lemma {:induction false} LoadCommentLines<SS, C>(img: DbImage<SS, C>, comments: seq<JString>,
                                                   lines: seq<JString>, codec: TextCodec<SS, C>)
    requires forall i :: 0 <= i < |comments| ==> StartsWith(comments[i], COMMENT)
    ensures LoadLines(img, comments + lines, codec) == LoadLines(img, lines, codec)
    decreases |comments|
  {
    if |comments| > 0 {
      assert (comments + lines)[0] == comments[0];
      assert (comments + lines)[1..] == comments[1..] + lines;
      LoadCommentLines(img, comments[1..], lines, codec);
    } else {
      assert comments + lines == lines;
    }
  }
}

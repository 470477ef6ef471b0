/**
 * The CART duration processor (cart.Durator): gives every segment of an
 * utterance a cumulative "end" time computed from a CART z-score and the
 * mean and standard deviation of its phone.
 */
module Durations {
  import opened Wrappers
  import opened JavaLang
  import opened Features
  import opened Items

  const END: JString := [0x65, 0x6E, 0x64]  // "end"

  /** The mean and standard deviation of one phone's duration. */
  datatype PhoneDuration = PhoneDuration(mean: real, standardDeviation: real)

  /** The stretch of one segment: the global one, scaled by a non-zero local override. */
  function LocalStretch(local: real, global: real): (r: real)
    ensures local == 0.0 ==> r == global
    ensures local != 0.0 ==> r == local * global
  {
    if local == 0.0 then global else local * global
  }

  /** A segment's duration: `zdur` standard deviations off the phone's mean, stretched. */
  function Stretched(stretch: real, zdur: real, stat: PhoneDuration): real {
    stretch * (zdur * stat.standardDeviation + stat.mean)
  }

  /**
   * The duration of one segment with features `m`, CART z-score `zdur` and
   * local stretch `local` (the parsed duration-stretch feature, or the
   * exception parsing it throws), or the exception computing it throws, in
   * the order the code meets them: a "name" that is not a string fails the
   * cast, then a stretch that does not parse fails, and a phone the table
   * does not know (null) fails when its statistics are used.
   */
  function SegmentDuration(m: LinkedMap, zdur: real, local: Result<real, JavaError>, global: real,
                           durations: Option<JString> -> Option<PhoneDuration>): Result<real, JavaError>
  {
    var name := AsString(m.Get(NAME));
    if name.Err? then Err(name.error)
    else
      var stat := durations(name.value);
      if local.Err? then Err(local.error)
      else if stat.None? then Err(NullPointer)
      else Ok(Stretched(LocalStretch(local.value, global), zdur, stat.value))
  }

  /** The sum of `ds`. */
  function Sum(ds: seq<real>): real {
    if ds == [] then 0.0 else Sum(ds[..|ds| - 1]) + ds[|ds| - 1]
  }

  /** The running sums of `ds`: the k-th is the sum of `ds[0 .. k]`. */
  function Ends(ds: seq<real>): (r: seq<real>)
    ensures |r| == |ds|
  {
    if ds == [] then [] else Ends(ds[..|ds| - 1]) + [Sum(ds)]
  }

  /** The k-th "end" is the sum of the durations of segments 0 .. k. */
  lemma {:induction false} EndsAreSums(ds: seq<real>, k: nat)
    requires k < |ds|
    ensures Ends(ds)[k] == Sum(ds[..k + 1])
  {
    if k < |ds| - 1 {
      EndsAreSums(ds[..|ds| - 1], k);
      assert ds[..|ds| - 1][..k + 1] == ds[..k + 1];
    } else {
      assert ds[..k + 1] == ds;
    }
  }

  /** A duration of zero or more adds nothing negative to a running sum. */
  lemma {:induction false} SumPrefixGrows(ds: seq<real>, j: nat, k: nat)
    requires j <= k <= |ds|
    requires forall i :: 0 <= i < |ds| ==> ds[i] >= 0.0
    ensures Sum(ds[..j]) <= Sum(ds[..k])
    decreases k - j
  {
    if j < k {
      SumPrefixGrows(ds, j, k - 1);
      assert ds[..k][..k - 1] == ds[..k - 1];
    }
  }

  /** With no negative duration, the "end" times never decrease; nothing clamps them. */
  lemma EndsAreMonotone(ds: seq<real>, j: nat, k: nat)
    requires j <= k < |ds|
    requires forall i :: 0 <= i < |ds| ==> ds[i] >= 0.0
    ensures Ends(ds)[j] <= Ends(ds)[k]
  {
    EndsAreSums(ds, j);
    EndsAreSums(ds, k);
    SumPrefixGrows(ds, j + 1, k + 1);
  }

  /**
   * The processor run over the first `n` segments, given each segment's
   * duration or exception in `steps`: the durations of the segments it
   * finished and, when one failed, the exception it threw.
   */
  function Run(steps: seq<Result<real, JavaError>>, n: nat): (r: (seq<real>, Option<JavaError>))
    requires n <= |steps|
    ensures |r.0| <= n
    ensures r.1.None? ==> |r.0| == n
    ensures r.1.Some? ==> |r.0| < n
  {
    if n == 0 then ([], None)
    else
      var p := Run(steps, n - 1);
      if p.1.Some? then p
      else
        match steps[n - 1]
        case Err(e) => (p.0, Some(e))
        case Ok(d) => (p.0 + [d], None)
  }

  /** The duration or exception of each segment. */
  function Steps(maps: seq<LinkedMap>, zdurs: seq<real>, locals: seq<Result<real, JavaError>>, global: real,
                 durations: Option<JString> -> Option<PhoneDuration>): (r: seq<Result<real, JavaError>>)
    requires |maps| == |zdurs| == |locals|
    ensures |r| == |maps|
    ensures forall k :: 0 <= k < |maps| ==> r[k] == SegmentDuration(maps[k], zdurs[k], locals[k], global, durations)
  {
    seq(|maps|, k requires 0 <= k < |maps| => SegmentDuration(maps[k], zdurs[k], locals[k], global, durations))
  }

  /** One more segment: it either adds its duration or ends the run with its exception. */
  lemma RunNext(steps: seq<Result<real, JavaError>>, i: nat, ds: seq<real>)
    requires i < |steps|
    requires Run(steps, i) == (ds, None)
    ensures Run(steps, i + 1) == if steps[i].Ok? then (ds + [steps[i].value], None) else (ds, Some(steps[i].error))
  {
  }

  /** Appending a duration adds it to the sum and its new total to the ends. */
  lemma SumNext(ds: seq<real>, d: real)
    ensures Sum(ds + [d]) == Sum(ds) + d
    ensures Ends(ds + [d]) == Ends(ds) + [Sum(ds) + d]
  {
    assert (ds + [d])[..|ds|] == ds;
  }

  /**
   * The run's durations are the segments' own durations, and it stops at
   * the first segment whose duration throws, with that exception.
   */
  lemma {:induction false} RunDurations(steps: seq<Result<real, JavaError>>, n: nat)
    requires n <= |steps|
    ensures var r := Run(steps, n);
      && (forall i :: 0 <= i < |r.0| ==> steps[i] == Ok(r.0[i]))
      && (r.1.Some? ==> steps[|r.0|] == Err(r.1.value))
  {
    if n > 0 {
      RunDurations(steps, n - 1);
    }
  }

  /** Once a segment has failed, the run is over. */
  lemma {:induction false} RunStopped(steps: seq<Result<real, JavaError>>, i: nat, n: nat)
    requires i <= n <= |steps|
    requires Run(steps, i).1.Some?
    ensures Run(steps, n) == Run(steps, i)
    decreases n - i
  {
    if i < n {
      RunStopped(steps, i, n - 1);
    }
  }

  /** What `f` gives each item: its CART z-score, or its parsed local stretch. */
  function Scores<T>(items: seq<Item>, f: Item -> T): (r: seq<T>)
    ensures |r| == |items| && forall k :: 0 <= k < |items| ==> r[k] == f(items[k])
  {
    seq(|items|, k requires 0 <= k < |items| => f(items[k]))
  }

  /**
   * Segments whose features were `before` and are now `after`: each of the
   * first |ends| carries its "end" from `ends`, and the others are as they
   * were.
   */
  ghost predicate Annotated(before: seq<LinkedMap>, after: seq<LinkedMap>, ends: seq<real>) {
    && |after| == |before|
    && |ends| <= |before|
    && (forall k :: 0 <= k < |ends| ==> after[k] == before[k].Put(END, FloatVal(ends[k])))
    && (forall k :: |ends| <= k < |before| ==> after[k] == before[k])
  }

  /** Annotating one more segment. */
  lemma AnnotateNext(before: seq<LinkedMap>, after: seq<LinkedMap>, ends: seq<real>, e: real)
    requires Annotated(before, after, ends) && |ends| < |before|
    ensures Annotated(before, after[|ends| := before[|ends|].Put(END, FloatVal(e))], ends + [e])
  {
  }

  /**
   * The state `processUtterance` leaves and the result it returns, for
   * segments whose features were `before` and are now `after`.
   */
  ghost predicate Processed(before: seq<LinkedMap>, after: seq<LinkedMap>, p: (seq<real>, Option<JavaError>),
                            r: Result<(), JavaError>) {
    && (r.Ok? <==> p.1.None?)
    && (r.Err? ==> p.1 == Some(r.error))
    && Annotated(before, after, Ends(p.0))
  }

  /**
   * The state after `processUtterance` has handled `i` segments without an
   * exception: their durations are `ds`, the running sum is `end`, and the
   * segments' features are `now`.
   */
  ghost predicate Progress(segments: seq<Item>, maps: seq<LinkedMap>, steps: seq<Result<real, JavaError>>,
                           i: nat, ds: seq<real>, now: seq<LinkedMap>, end: real) {
    && i <= |segments| == |maps| == |steps|
    && Run(steps, i) == (ds, None)
    && Annotated(maps, now, Ends(ds))
    && end == Sum(ds)
  }

  /** Segment `i` has not been touched yet. */
  lemma ProgressUnchanged(segments: seq<Item>, maps: seq<LinkedMap>, steps: seq<Result<real, JavaError>>,
                          i: nat, ds: seq<real>, now: seq<LinkedMap>, end: real)
    requires Progress(segments, maps, steps, i, ds, now, end) && i < |segments|
    ensures now[i] == maps[i]
  {
  }

  /** A segment that yields a duration moves the run one segment on. */
  lemma ProgressNext(segments: seq<Item>, maps: seq<LinkedMap>, steps: seq<Result<real, JavaError>>,
                     i: nat, ds: seq<real>, now: seq<LinkedMap>, end: real, d: real, m: LinkedMap)
    requires Progress(segments, maps, steps, i, ds, now, end) && i < |segments| && steps[i] == Ok(d)
    requires m == maps[i].Put(END, FloatVal(end + d))
    ensures Progress(segments, maps, steps, i + 1, ds + [d], now[i := m], end + d)
  {
    RunNext(steps, i, ds);
    AnnotateNext(maps, now, Ends(ds), end + d);
    SumNext(ds, d);
  }

  /** The `i`-th step is the `i`-th segment's own duration. */
  lemma StepOf(maps: seq<LinkedMap>, zdurs: seq<real>, locals: seq<Result<real, JavaError>>, global: real,
               durations: Option<JString> -> Option<PhoneDuration>, i: nat)
    requires |maps| == |zdurs| == |locals| && i < |maps|
    ensures Steps(maps, zdurs, locals, global, durations)[i] == SegmentDuration(maps[i], zdurs[i], locals[i], global, durations)
  {
  }

  /**
   * Where the run ends: after every segment with no exception, or at
   * segment `i` with the exception it threw.
   */
  lemma Finished(segments: seq<Item>, maps: seq<LinkedMap>, steps: seq<Result<real, JavaError>>,
                 i: nat, ds: seq<real>, now: seq<LinkedMap>, end: real, r: Result<(), JavaError>)
    requires Progress(segments, maps, steps, i, ds, now, end)
    requires r.Ok? ==> i == |segments|
    requires r.Err? ==> i < |segments| && Run(steps, i + 1) == (ds, Some(r.error))
    ensures Processed(maps, now, Run(steps, |segments|), r)
  {
    if r.Err? {
      RunStopped(steps, i + 1, |segments|);
    }
  }

  /**
   * A Durator: `cart` gives each segment its z-score and `durations` is the
   * phone duration table (null for an unknown phone).
   */
  datatype Durator = Durator(cart: Item -> real, durations: Option<JString> -> Option<PhoneDuration>) {

    /**
     * `processUtterance`: walks the segments head to tail and sets on each
     * the "end" feature, the running sum of the durations so far, changing
     * nothing else. `durationStretch` is the voice's stretch and
     * `localStretch` the value the duration-stretch path finds for a
     * segment, as `Float.parseFloat` makes of its text: a number, or the
     * exception (a NumberFormatException for a text that is not a number).
     * On an exception the segments before the failing one keep
     * their new "end", the rest are untouched.
     */
    method ProcessUtterance(segments: seq<Item>, durationStretch: real,
                            localStretch: Item -> Result<real, JavaError>)
      returns (r: Result<(), JavaError>)
      requires Separate(segments)
      modifies FeatureSets(segments)
      ensures Processed(old(FeatureMaps(segments)), FeatureMaps(segments),
                        Run(Steps(old(FeatureMaps(segments)), Scores(segments, cart), Scores(segments, localStretch),
                                  durationStretch, durations), |segments|), r)
    {
      ghost var maps := FeatureMaps(segments);
      ghost var steps := Steps(maps, Scores(segments, cart), Scores(segments, localStretch), durationStretch, durations);
      var end := 0.0;
      ghost var ds: seq<real> := [];
      ghost var now := maps;
      var i := 0;
      while i < |segments|
        invariant Progress(segments, maps, steps, i, ds, now, end)
        invariant FeatureMaps(segments) == now
      {
        StepOf(maps, Scores(segments, cart), Scores(segments, localStretch), durationStretch, durations, i);
        var dur;
        dur, end, ds, now := Step(segments, i, end, durationStretch, localStretch, maps, steps, ds, now);
        if dur.Err? {
          r := Err(dur.error);
          Finished(segments, maps, steps, i, ds, now, end, r);
          return;
        }
        i := i + 1;
      }
      r := Ok(());
      Finished(segments, maps, steps, i, ds, now, end, r);
    }

    /**
     * One turn of the loop of `processUtterance`, on segment `i`: from the
     * state after `i` segments to the state after `i + 1`, or to the
     * exception segment `i` throws with its features untouched.
     */
    method Step(segments: seq<Item>, i: nat, end: real, durationStretch: real,
                localStretch: Item -> Result<real, JavaError>,
                ghost maps: seq<LinkedMap>, ghost steps: seq<Result<real, JavaError>>,
                ghost ds: seq<real>, ghost now: seq<LinkedMap>)
      returns (dur: Result<real, JavaError>, end': real, ghost ds': seq<real>, ghost now': seq<LinkedMap>)
      requires Separate(segments) && i < |segments|
      requires Progress(segments, maps, steps, i, ds, now, end) && FeatureMaps(segments) == now
      requires steps[i] == SegmentDuration(maps[i], cart(segments[i]), localStretch(segments[i]), durationStretch, durations)
      modifies segments[i].features
      ensures FeatureMaps(segments) == now'
      ensures dur.Err? ==> Run(steps, i + 1) == (ds, Some(dur.error)) && now' == now && ds' == ds && end' == end
      ensures dur.Ok? ==> Progress(segments, maps, steps, i + 1, ds', now', end')
    {
      ProgressUnchanged(segments, maps, steps, i, ds, now, end);
      assert segments[i].features.featureMap == maps[i];
      dur := AnnotateSegment(segments[i], end, durationStretch, localStretch);
      RunNext(steps, i, ds);
      now' := now[i := segments[i].features.featureMap];
      ds' := ds;
      end' := end;
      if dur.Ok? {
        ProgressNext(segments, maps, steps, i, ds, now, end, dur.value, segments[i].features.featureMap);
        end' := end + dur.value;
        ds' := ds + [dur.value];
      }
      assert FeatureMaps(segments) == now';
    }

    /**
     * The loop body for one segment: its duration and, when there is one,
     * the new running sum `end + duration` set as its "end".
     */
    method AnnotateSegment(segment: Item, end: real, durationStretch: real,
                           localStretch: Item -> Result<real, JavaError>)
      returns (r: Result<real, JavaError>)
      modifies segment.features
      ensures r == SegmentDuration(old(segment.features.featureMap), cart(segment), localStretch(segment),
                                   durationStretch, durations)
      ensures r.Ok? ==> segment.features.featureMap == old(segment.features.featureMap).Put(END, FloatVal(end + r.value))
      ensures r.Err? ==> segment.features.featureMap == old(segment.features.featureMap)
    {
      r := Duration(segment, durationStretch, localStretch);
      if r.Ok? {
        segment.features.SetFloat(END, end + r.value);
      }
    }

    /** The duration of one segment, computed as the loop body does. */
    method Duration(segment: Item, durationStretch: real, localStretch: Item -> Result<real, JavaError>)
      returns (r: Result<real, JavaError>)
      ensures r == SegmentDuration(segment.features.featureMap, cart(segment), localStretch(segment),
                                   durationStretch, durations)
    {
      var zdur := cart(segment);
      var name := segment.features.GetString(NAME);
      if name.Err? {
        return Err(name.error);
      }
      var durStat := durations(name.value);
      var override := localStretch(segment);
      if override.Err? {
        return Err(override.error);
      }
      var local: real;
      if override.value == 0.0 {
        local := durationStretch;
      } else {
        local := override.value * durationStretch;
      }
      assert local == LocalStretch(override.value, durationStretch);
      if durStat.None? {
        return Err(NullPointer);
      }
      r := Ok(Stretched(local, zdur, durStat.value));
    }

    function ToString(): JString {
      [0x43, 0x41, 0x52, 0x54, 0x44, 0x75, 0x72, 0x61, 0x74, 0x6F, 0x72]  // "CARTDurator"
    }
  }
}

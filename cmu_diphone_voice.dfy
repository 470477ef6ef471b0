/**
 * The CMU diphone voice (en.us.CMUDiphoneVoice): the lazily found unit
 * database, the voice's name, and its post-lexical analyser, which renames
 * every "ah" segment to "aa" before the English post-lexical rules run.
 */
module CmuDiphoneVoice {
  import opened Wrappers
  import opened JavaLang
  import opened Features
  import opened Items

  const AH: JString := [0x61, 0x68]  // "ah"
  const AA: JString := [0x61, 0x61]  // "aa"

  /**
   * The rewrite of one segment with features `m`: "ah" becomes "aa" and any
   * other name stays. Comparing the name throws when it is null, and
   * reading it throws when it is not a string.
   */
  function FixAH(m: LinkedMap): (r: Result<LinkedMap, JavaError>)
    ensures r.Ok? <==> m.Get(NAME).Str?
    ensures m.Get(NAME).Null? ==> r == Err(NullPointer)
    ensures r.Err? && !m.Get(NAME).Null? ==> r == Err(ClassCast)
    ensures r.Ok? ==> r.value.Get(NAME).Str? && r.value.Get(NAME) != Str(AH)
    ensures r.Ok? && m.Get(NAME) != Str(AH) ==> r.value == m
    ensures r.Ok? && m.Valid() ==> r.value.keys == m.keys
    ensures r.Ok? ==> forall k :: k != NAME ==> r.value.Get(k) == m.Get(k)
  {
    var name := AsString(m.Get(NAME));
    if name.Err? then Err(name.error)
    else if name.value.None? then Err(NullPointer)
    else if name.value.value == AH then Ok(m.Put(NAME, Str(AA)))
    else Ok(m)
  }

  /** A segment that has been rewritten is left as it is by a second rewrite. */
  lemma FixAHIdempotent(m: LinkedMap)
    requires FixAH(m).Ok?
    ensures FixAH(FixAH(m).value) == FixAH(m)
  {
    var f := FixAH(m).value;
    assert f.Get(NAME).Str? && f.Get(NAME) != Str(AH);
  }

  /**
   * The loop of `fixPhoneme_AH` over the first `n` segments: the features of
   * every segment afterwards and, when a segment threw, the exception. The
   * segments after the one that threw are left as they were.
   */
  function FixFirst(maps: seq<LinkedMap>, n: nat): (r: (seq<LinkedMap>, Option<JavaError>))
    requires n <= |maps|
    ensures |r.0| == |maps|
  {
    if n == 0 then (maps, None)
    else
      var p := FixFirst(maps, n - 1);
      if p.1.Some? then p
      else
        match FixAH(maps[n - 1])
        case Err(e) => (p.0, Some(e))
        case Ok(m) => (p.0[n - 1 := m], None)
  }

  /** The whole loop. */
  function FixAll(maps: seq<LinkedMap>): (seq<LinkedMap>, Option<JavaError>) {
    FixFirst(maps, |maps|)
  }

  /** The index of the first segment whose rewrite throws, or the count when none does. */
  function FirstFailure(maps: seq<LinkedMap>): (j: nat)
    ensures j <= |maps|
    ensures forall k :: 0 <= k < j ==> FixAH(maps[k]).Ok?
    ensures j < |maps| ==> FixAH(maps[j]).Err?
  {
    if maps == [] then 0
    else if FixAH(maps[0]).Err? then 0
    else 1 + FirstFailure(maps[1..])
  }

  /** Only the first failure can be the first failure. */
  lemma {:induction false} FirstFailureIs(maps: seq<LinkedMap>, j: nat)
    requires j <= |maps|
    requires forall k :: 0 <= k < j ==> FixAH(maps[k]).Ok?
    requires j < |maps| ==> FixAH(maps[j]).Err?
    ensures FirstFailure(maps) == j
  {
    if j > 0 {
      assert FixAH(maps[0]).Ok?;
      assert forall k :: 0 <= k < |maps| - 1 ==> maps[1..][k] == maps[k + 1];
      FirstFailureIs(maps[1..], j - 1);
    }
  }

  /**
   * The loop over the first `n` segments rewrites the segments before the
   * first failure, throws that failure's exception when it is among them,
   * and leaves every other segment as it was.
   */
  lemma {:induction false} FixFirstIsReference(maps: seq<LinkedMap>, n: nat, j: nat)
    requires n <= |maps| && j <= |maps|
    requires forall k :: 0 <= k < j ==> FixAH(maps[k]).Ok?
    requires j < |maps| ==> FixAH(maps[j]).Err?
    ensures var r := FixFirst(maps, n);
      && (forall k :: 0 <= k < |maps| ==> r.0[k] == if k < j && k < n then FixAH(maps[k]).value else maps[k])
      && r.1 == if j < n then Some(FixAH(maps[j]).error) else None
  {
    if n > 0 {
      FixFirstIsReference(maps, n - 1, j);
      var p := FixFirst(maps, n - 1);
      var r := FixFirst(maps, n);
      assert j > n - 1 ==> FixAH(maps[n - 1]).Ok?;
      assert p.1.None? && j > n - 1 ==> r == (p.0[n - 1 := FixAH(maps[n - 1]).value], None);
      assert p.1.Some? ==> r == p;
      assert p.1.None? && j == n - 1 ==> r == (p.0, Some(FixAH(maps[j]).error));
      forall k | 0 <= k < |maps|
        ensures r.0[k] == if k < j && k < n then FixAH(maps[k]).value else maps[k]
      {
        if k != n - 1 {
          assert r.0[k] == p.0[k];
        }
      }
    }
  }

  /** The whole loop, stated without the loop. */
  lemma FixAllIsReference(maps: seq<LinkedMap>)
    ensures var j := FirstFailure(maps);
      var r := FixAll(maps);
      && (forall k :: 0 <= k < |maps| ==> r.0[k] == if k < j then FixAH(maps[k]).value else maps[k])
      && r.1 == if j < |maps| then Some(FixAH(maps[j]).error) else None
  {
    FixFirstIsReference(maps, |maps|, FirstFailure(maps));
  }

  /**
   * The rewrite keeps the number and order of the segments, changes only
   * segments named "ah", and, when nothing throws, leaves no segment named
   * "ah" and every name a string.
   */
  lemma FixAllRenames(maps: seq<LinkedMap>)
    ensures |FixAll(maps).0| == |maps|
    ensures forall k :: 0 <= k < |maps| && maps[k].Get(NAME) != Str(AH) ==> FixAll(maps).0[k] == maps[k]
    ensures forall k :: 0 <= k < |maps| && FixAll(maps).0[k] != maps[k] ==>
      maps[k].Get(NAME) == Str(AH) && FixAll(maps).0[k] == maps[k].Put(NAME, Str(AA))
    ensures FixAll(maps).1.None? <==> forall k :: 0 <= k < |maps| ==> maps[k].Get(NAME).Str?
    ensures FixAll(maps).1.None? ==>
      forall k :: 0 <= k < |maps| ==> FixAll(maps).0[k].Get(NAME).Str? && FixAll(maps).0[k].Get(NAME) != Str(AH)
  {
    FixAllIsReference(maps);
    var j := FirstFailure(maps);
    if j < |maps| {
      assert !maps[j].Get(NAME).Str?;
    }
  }

  /** Rewriting twice is rewriting once, whether or not a segment throws. */
  lemma FixAllIdempotent(maps: seq<LinkedMap>)
    ensures FixAll(FixAll(maps).0) == FixAll(maps)
  {
    var r := FixAll(maps);
    var j := FirstFailure(maps);
    FixAllIsReference(maps);
    forall k | 0 <= k < j
      ensures FixAH(r.0[k]) == Ok(r.0[k])
    {
      FixAHIdempotent(maps[k]);
    }
    FirstFailureIs(r.0, j);
    FixAllIsReference(r.0);
    var s := FixAll(r.0);
    assert |s.0| == |r.0|;
    forall k | 0 <= k < |r.0|
      ensures s.0[k] == r.0[k]
    {
      if k < j {
        assert s.0[k] == FixAH(r.0[k]).value;
      }
    }
    assert s.0 == r.0;
    if j < |maps| {
      assert r.0[j] == maps[j];
    }
    assert s.1 == r.1;
  }

  /** One more segment: its rewrite, or the exception that ends the loop. */
  lemma FixNext(maps: seq<LinkedMap>, i: nat, now: seq<LinkedMap>)
    requires i < |maps| && FixFirst(maps, i) == (now, None)
    ensures FixFirst(maps, i + 1) ==
      if FixAH(maps[i]).Ok? then (now[i := FixAH(maps[i]).value], None) else (now, Some(FixAH(maps[i]).error))
  {
  }

  /** Segment `i` has not been visited by the loop over the first `i`. */
  lemma FixUntouched(maps: seq<LinkedMap>, i: nat)
    requires i < |maps|
    ensures FixFirst(maps, i).0[i] == maps[i]
  {
    FixFirstIsReference(maps, i, FirstFailure(maps));
  }

  /** Once a segment has thrown, the loop is over. */
  lemma {:induction false} FixStopped(maps: seq<LinkedMap>, i: nat, n: nat)
    requires i <= n <= |maps| && FixFirst(maps, i).1.Some?
    ensures FixFirst(maps, n) == FixFirst(maps, i)
    decreases n - i
  {
    if i < n {
      FixStopped(maps, i, n - 1);
    }
  }

  /**
   * The post-lexical analyser of the CMU diphone voice; `englishPostLex` is
   * the English analyser it runs after its own rewrite, known here only by
   * the exception it may throw on the segments it is given.
   */
  class PostLexicalAnalyzer {
    const englishPostLex: seq<LinkedMap> -> Result<(), JavaError>

    constructor (englishPostLex: seq<LinkedMap> -> Result<(), JavaError>)
      ensures this.englishPostLex == englishPostLex
    {
      this.englishPostLex := englishPostLex;
    }

    /**
     * `processUtterance`: the "ah" rewrite, then, when it did not throw, the
     * English post-lexical analyser, which sees the rewritten segments.
     */
    method ProcessUtterance(segments: seq<Item>)
      returns (r: Result<(), JavaError>)
      requires Separate(segments)
      modifies FeatureSets(segments)
      ensures var f := FixAll(old(FeatureMaps(segments)));
        r == if f.1.Some? then Err(f.1.value) else englishPostLex(f.0)
    {
      r := FixPhonemeAH(segments);
      if r.Ok? {
        r := englishPostLex(FeatureMaps(segments));
      }
    }

    /**
     * `fixPhoneme_AH`: walks the segments head to tail renaming "ah" to
     * "aa" in place; an exception ends the walk.
     */
    static method FixPhonemeAH(segments: seq<Item>) returns (r: Result<(), JavaError>)
      requires Separate(segments)
      modifies FeatureSets(segments)
      ensures var f := FixAll(old(FeatureMaps(segments)));
        && FeatureMaps(segments) == f.0
        && (r.Ok? <==> f.1.None?)
        && (r.Err? ==> f.1 == Some(r.error))
    {
      ghost var maps := FeatureMaps(segments);
      ghost var now := maps;
      r := Ok(());
      var i := 0;
      while i < |segments| && r.Ok?
        invariant i <= |segments| == |maps|
        invariant FixFirst(maps, i) == (now, if r.Ok? then None else Some(r.error))
        invariant FeatureMaps(segments) == now
      {
        FixUntouched(maps, i);
        r, now := FixAt(segments, i, maps, now);
        i := i + 1;
      }
      if r.Err? {
        FixStopped(maps, i, |segments|);
      }
    }

    /** One turn of the walk, on segment `i`. */
    static method FixAt(segments: seq<Item>, i: nat, ghost maps: seq<LinkedMap>, ghost now: seq<LinkedMap>)
      returns (r: Result<(), JavaError>, ghost now': seq<LinkedMap>)
      requires Separate(segments) && i < |segments| == |maps|
      requires FixFirst(maps, i) == (now, None) && now[i] == maps[i] && FeatureMaps(segments) == now
      modifies segments[i].features
      ensures FeatureMaps(segments) == now'
      ensures FixFirst(maps, i + 1) == (now', if r.Ok? then None else Some(r.error))
    {
      assert segments[i].features.featureMap == maps[i];
      r := FixSegment(segments[i]);
      FixNext(maps, i, now);
      now' := now;
      if r.Ok? {
        now' := now[i := segments[i].features.featureMap];
      }
      assert FeatureMaps(segments) == now';
    }

    /** The loop body for one segment. */
    static method FixSegment(segment: Item) returns (r: Result<(), JavaError>)
      modifies segment.features
      ensures var f := FixAH(old(segment.features.featureMap));
        && (r.Ok? <==> f.Ok?)
        && (f.Ok? ==> segment.features.featureMap == f.value)
        && (f.Err? ==> r.error == f.error && segment.features.featureMap == old(segment.features.featureMap))
    {
      var name := segment.features.GetString(NAME);
      if name.Err? {
        return Err(name.error);
      }
      if name.value.None? {
        return Err(NullPointer);
      }
      if name.value.value == AH {
        segment.features.SetString(NAME, AA);
      }
      r := Ok(());
    }

    function ToString(): (r: JString)
      ensures |r| == 19
    {
      [0x50, 0x6F, 0x73, 0x74, 0x4C, 0x65, 0x78, 0x69, 0x63, 0x61, 0x6C,
       0x41, 0x6E, 0x61, 0x6C, 0x79, 0x7A, 0x65, 0x72]  // "PostLexicalAnalyzer"
    }
  }

  /** "CMUDiphoneVoice(" */
  const VOICE_PREFIX: JString :=
    [0x43, 0x4D, 0x55, 0x44, 0x69, 0x70, 0x68, 0x6F, 0x6E, 0x65, 0x56, 0x6F, 0x69, 0x63, 0x65, 0x28]
  const CLOSE: JChar := 0x29  // ')'

  /**
   * What `getDatabase` finds when no database was given: the named
   * resource as a URI. A missing name or resource is a NullPointerException
   * and a malformed URI a URISyntaxException, both wrapped in an
   * IOException; a name that is not a string fails the cast unwrapped.
   */
  function Lookup(name: Result<Option<JString>, JavaError>, resource: JString -> Option<JString>,
                  toUri: JString -> Option<JString>): (r: Result<JString, JavaError>)
    ensures name.Err? ==> r == Err(name.error)
    ensures name == Ok(None) ==> r == Err(IOCause(NullPointer))
    ensures r.Ok? <==> exists n :: name == Ok(Some(n)) && resource(n).Some? && toUri(resource(n).value).Some?
    ensures r.Ok? ==> r.value == toUri(resource(name.value.value).value).value
  {
    if name.Err? then Err(name.error)
    else if name.value.None? then Err(IOCause(NullPointer))
    else
      var url := resource(name.value.value);
      if url.None? then Err(IOCause(NullPointer))
      else
        var uri := toUri(url.value);
        if uri.None? then Err(IOCause(URISyntax)) else Ok(uri.value)
  }

  /**
   * A CMU diphone voice: its name, its feature set, the feature naming its
   * database (Voice.DATABASE_NAME, whose value is not part of this model),
   * and the database URI, null until given or found.
   */
  class CMUDiphoneVoice {
    const name: Option<JString>
    const features: FeatureSet
    const databaseName: JString
    var database: Option<JString>

    constructor (name: Option<JString>, features: FeatureSet, databaseName: JString, database: Option<JString>)
      ensures this.name == name && this.features == features
      ensures this.databaseName == databaseName && this.database == database
    {
      this.name := name;
      this.features := features;
      this.databaseName := databaseName;
      this.database := database;
    }

    /**
     * `getDatabase`: the stored URI when there is one, with no lookup;
     * otherwise the resource named by the database feature, kept for the
     * next call when it is found.
     */
    method GetDatabase(resource: JString -> Option<JString>, toUri: JString -> Option<JString>)
      returns (r: Result<JString, JavaError>)
      modifies this
      ensures old(database).Some? ==> r == Ok(old(database).value) && database == old(database)
      ensures old(database).None? ==> r == Lookup(features.GetString(databaseName), resource, toUri)
      ensures old(database).None? ==> database == if r.Ok? then Some(r.value) else None
    {
      if database.None? {
        var n := features.GetString(databaseName);
        if n.Err? {
          return Err(n.error);
        }
        if n.value.None? {
          return Err(IOCause(NullPointer));
        }
        var url := resource(n.value.value);
        if url.None? {
          return Err(IOCause(NullPointer));
        }
        var uri := toUri(url.value);
        if uri.None? {
          return Err(IOCause(URISyntax));
        }
        database := uri;
      }
      r := Ok(database.value);
    }

    /** `toString`: "CMUDiphoneVoice(" + name + ")". */
    function ToString(): (r: JString)
      ensures |r| == |VOICE_PREFIX| + |Text(name)| + 1
      ensures r[..|VOICE_PREFIX|] == VOICE_PREFIX && r[|r| - 1] == CLOSE
      ensures r[|VOICE_PREFIX|..|r| - 1] == Text(name)
    {
      VOICE_PREFIX + Text(name) + [CLOSE]
    }
  }
}

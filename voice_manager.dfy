/**
 * The list-and-string logic of the voice registry (VoiceManager): the
 * order-preserving duplicate-free UniqueVector, the reader of a voices
 * file, the directory of the jar a class was loaded from, the class loader
 * that adds each URL once, and the "a b or c" listing of the voice names.
 */
module VoiceRegistry {
  import opened Wrappers
  import opened JavaLang

  /** No element occurs twice. */
  predicate NoDup<T(==,!new)>(xs: seq<T>) {
    forall i, j :: 0 <= i < j < |xs| ==> xs[i] != xs[j]
  }

  /** One `add` on the element list: `o` is appended unless it is already there. */
  function AddOne<T(==,!new)>(vs: seq<T>, o: T): (r: seq<T>)
    ensures o in vs ==> r == vs
    ensures o !in vs ==> r == vs + [o]
  {
    if o in vs then vs else vs + [o]
  }

  /** Successive `add`s of the elements of `xs`, in order. */
  function AddEach<T(==,!new)>(vs: seq<T>, xs: seq<T>): (r: seq<T>)
    ensures forall x :: x in r <==> x in vs || x in xs
  {
    if xs == [] then vs
    else
      assert forall x :: x in xs <==> x in xs[..|xs| - 1] || x == xs[|xs| - 1] by {
        assert xs == xs[..|xs| - 1] + [xs[|xs| - 1]];
      }
      AddOne(AddEach(vs, xs[..|xs| - 1]), xs[|xs| - 1])
  }

  /**
   * The elements of `xs` that are neither in `vs` nor earlier in `xs`, in
   * order: the first occurrences of the new elements.
   */
  function FirstNew<T(==,!new)>(vs: seq<T>, xs: seq<T>): seq<T> {
    if xs == [] then []
    else
      var init := xs[..|xs| - 1];
      var x := xs[|xs| - 1];
      FirstNew(vs, init) + if x in vs || x in init then [] else [x]
  }

  /**
   * Adding the elements of `xs` one by one gives the old list followed by
   * the first occurrences of the elements it did not hold.
   */
  lemma {:induction false} AddEachIsFirstNew<T(!new)>(vs: seq<T>, xs: seq<T>)
    ensures AddEach(vs, xs) == vs + FirstNew(vs, xs)
  {
    if xs != [] {
      var init := xs[..|xs| - 1];
      AddEachIsFirstNew(vs, init);
      assert AddEach(vs, xs) == AddOne(AddEach(vs, init), xs[|xs| - 1]);
    }
  }

  /** Adding keeps a list free of duplicates. */
  lemma {:induction false} AddEachNoDup<T(!new)>(vs: seq<T>, xs: seq<T>)
    requires NoDup(vs)
    ensures NoDup(AddEach(vs, xs))
  {
    if xs != [] {
      AddEachNoDup(vs, xs[..|xs| - 1]);
    }
  }

  /** Adding elements that are all there already changes nothing. */
  lemma {:induction false} AddEachPresent<T(!new)>(vs: seq<T>, xs: seq<T>)
    requires forall x :: x in xs ==> x in vs
    ensures AddEach(vs, xs) == vs
  {
    if xs != [] {
      assert xs[|xs| - 1] in xs;
      AddEachPresent(vs, xs[..|xs| - 1]);
    }
  }

  /** Adding one more element at the end. */
  lemma AddEachSnoc<T(!new)>(vs: seq<T>, xs: seq<T>, x: T)
    ensures AddEach(vs, xs + [x]) == AddOne(AddEach(vs, xs), x)
  {
    assert (xs + [x])[..|xs|] == xs;
  }

  /** One more element added. */
  lemma AddEachNext<T(!new)>(vs: seq<T>, xs: seq<T>, i: nat)
    requires i < |xs|
    ensures AddEach(vs, xs[..i + 1]) == AddOne(AddEach(vs, xs[..i]), xs[i])
  {
    assert xs[..i + 1][..i] == xs[..i];
  }

  /**
   * A vector whose elements are unique, kept in the order they were first
   * added; the set answers `contains`.
   */
  class UniqueVector<T(==,!new)> {
    var elementSet: set<T>
    var elementVector: seq<T>

    /** The list holds no duplicates and the set holds exactly its elements. */
    ghost predicate Valid()
      reads this
    {
      NoDup(elementVector) && forall x :: x in elementSet <==> x in elementVector
    }

    constructor ()
      ensures Valid() && elementVector == [] && elementSet == {}
    {
      elementSet := {};
      elementVector := [];
    }

    /** `add(o)`: appends `o` when it is not contained; otherwise nothing changes. */
    method Add(o: T)
      requires Valid()
      modifies this
      ensures Valid()
      ensures elementVector == AddOne(old(elementVector), o)
      ensures elementSet == old(elementSet) + {o}
    {
      if !Contains(o) {
        elementSet := elementSet + {o};
        elementVector := elementVector + [o];
      }
    }

    /**
     * `addVector(v)`: adds the elements of `v` in order. When `v` is this
     * vector every element is already present and nothing changes.
     */
    method AddVector(v: UniqueVector<T>)
      requires Valid() && v.Valid()
      modifies this
      ensures Valid()
      ensures elementVector == AddEach(old(elementVector), old(v.elementVector))
    {
      ghost var xs := v.elementVector;
      var i := 0;
      while i < v.Size()
        invariant Valid() && v.elementVector == xs && 0 <= i <= |xs|
        invariant elementVector == AddEach(old(elementVector), xs[..i])
      {
        var o := v.Get(i);
        AddEachNext(old(elementVector), xs, i);
        Add(o.value);
        if v == this {
          AddEachPresent(old(elementVector), xs[..i + 1]);
        }
        i := i + 1;
      }
      assert xs[..i] == xs;
    }

    /** `addArray(a)`: adds the elements of `a` in order. */
    method AddArray(a: array<T>)
      requires Valid()
      modifies this
      ensures Valid()
      ensures elementVector == AddEach(old(elementVector), a[..])
    {
      var i := 0;
      while i < a.Length
        invariant Valid() && 0 <= i <= a.Length
        invariant elementVector == AddEach(old(elementVector), a[..i])
      {
        AddEachNext(old(elementVector), a[..], i);
        assert a[..i + 1] == a[..][..i + 1] && a[..i] == a[..][..i];
        Add(a[i]);
        i := i + 1;
      }
      assert a[..i] == a[..];
    }

    function Size(): (r: int)
      reads this
    {
      |elementVector|
    }

    /** `contains(o)`: in a valid vector, whether `o` was ever added. */
    function Contains(o: T): (r: bool)
      reads this
      ensures Valid() ==> (r <==> o in elementVector)
    {
      o in elementSet
    }

    /** `get(index)`: the element added `index`-th; a bad index throws. */
    function Get(index: int): (r: Result<T, JavaError>)
      reads this
      ensures 0 <= index < |elementVector| ==> r == Ok(elementVector[index])
      ensures !(0 <= index < |elementVector|) ==> r == Err(IndexOutOfBounds)
    {
      if 0 <= index < |elementVector| then Ok(elementVector[index]) else Err(IndexOutOfBounds)
    }

    /** `toArray()` and `elements()`: the elements in the order they were added. */
    function Elements(): seq<T>
      reads this
    {
      elementVector
    }

    /** The size of a valid vector is the number of distinct elements added. */
    lemma SizeIsSetSize()
      requires Valid()
      ensures Size() == |elementSet|
    {
      DistinctCount(elementVector);
      assert elementSet == set x | x in elementVector;
    }
  }

  /** A list without repeats has as many elements as its set. */
  lemma {:induction false} DistinctCount<T(!new)>(xs: seq<T>)
    requires NoDup(xs)
    ensures |set x | x in xs| == |xs|
  {
    if xs != [] {
      var init := xs[..|xs| - 1];
      var last := xs[|xs| - 1];
      assert xs == init + [last];
      DistinctCount(init);
      assert (set x | x in xs) == (set x | x in init) + {last};
      assert last !in init;
    }
  }

  const HASH: JChar := 0x23  // '#'

  /** A line of a voices file that names a directory: not blank and not a comment. */
  predicate Named(t: JString) {
    t != [] && !StartsWith(t, [HASH])
  }

  /** The trimmed lines of a voices file that name directories, in file order, repeats included. */
  function Wanted(lines: seq<JString>): (r: seq<JString>)
    ensures forall t :: t in r ==> Named(t)
  {
    if lines == [] then []
    else
      var t := Trim(lines[|lines| - 1]);
      Wanted(lines[..|lines| - 1]) + if Named(t) then [t] else []
  }

  /** A name comes from a voices file iff some line of it, trimmed, is that name. */
  lemma {:induction false} WantedFromLines(lines: seq<JString>, t: JString)
    ensures t in Wanted(lines) <==> Named(t) && exists i :: 0 <= i < |lines| && Trim(lines[i]) == t
  {
    if lines != [] {
      var init := lines[..|lines| - 1];
      WantedFromLines(init, t);
      if exists i :: 0 <= i < |lines| && Trim(lines[i]) == t {
        var i :| 0 <= i < |lines| && Trim(lines[i]) == t;
        if i < |lines| - 1 {
          assert Trim(init[i]) == t;
        }
      }
    }
  }

  /** One more line read. */
  lemma WantedNext(lines: seq<JString>, i: nat)
    requires i < |lines|
    ensures Wanted(lines[..i + 1]) == Wanted(lines[..i]) + if Named(Trim(lines[i])) then [Trim(lines[i])] else []
  {
    assert lines[..i + 1][..i] == lines[..i];
  }

  /**
   * `getVoiceDirectoryNamesFromInputStream`: the directory names of a voices
   * file whose lines are `lines`, each once, in the order of their first line.
   */
  method VoiceDirectoryNames(lines: seq<JString>) returns (names: UniqueVector<JString>)
    ensures fresh(names) && names.Valid()
    ensures names.elementVector == AddEach([], Wanted(lines))
  {
    names := new UniqueVector();
    var i := 0;
    while i < |lines|
      invariant 0 <= i <= |lines| && names.Valid()
      invariant names.elementVector == AddEach([], Wanted(lines[..i]))
    {
      var line := Trim(lines[i]);
      WantedNext(lines, i);
      if !StartsWith(line, [HASH]) && |line| != 0 {
        AddEachSnoc([], Wanted(lines[..i]), line);
        names.Add(line);
        assert names.elementVector == AddEach([], Wanted(lines[..i + 1]));
      } else {
        assert Wanted(lines[..i + 1]) == Wanted(lines[..i]);
      }
      i := i + 1;
    }
    assert lines[..i] == lines;
  }

  /**
   * The names read from a voices file are the first occurrences of the
   * wanted lines, without repeats, and nothing else.
   */
  lemma VoiceDirectoryNamesAre(lines: seq<JString>)
    ensures AddEach([], Wanted(lines)) == FirstNew([], Wanted(lines))
    ensures NoDup(AddEach([], Wanted(lines)))
    ensures forall t :: t in AddEach([], Wanted(lines)) <==> t in Wanted(lines)
  {
    AddEachIsFirstNew([], Wanted(lines));
    AddEachNoDup([], Wanted(lines));
  }

  const FILE_SCHEME: JString := [0x66, 0x69, 0x6C, 0x65, 0x3A]  // "file:"
  const SLASH: JChar := 0x2F  // '/'
  const BANG: JChar := 0x21   // '!'

  /** Where the directory part of a jar URL's path ends: its last '!', or the end. */
  function Cut(path: JString): (r: int)
    ensures 0 <= r <= |path|
    ensures r < |path| ==> path[r] == BANG && forall k :: r < k < |path| ==> path[k] != BANG
    ensures r == |path| ==> BANG !in path
  {
    var i := LastIndexOf(path, BANG);
    if i == -1 then |path| else i
  }

  /** `s.lastIndexOf(c, from)`: the last index at or before `from` holding `c`, or -1. */
  function LastIndexAtOrBefore(s: JString, c: JChar, from: int): (r: int)
    ensures -1 <= r < |s| && (r >= 0 ==> r <= from)
    ensures r >= 0 ==> s[r] == c && forall k :: r < k < |s| && k <= from ==> s[k] != c
    ensures r == -1 ==> forall k :: 0 <= k < |s| && k <= from ==> s[k] != c
  {
    if from < 0 then -1
    else
      var end := if from + 1 < |s| then from + 1 else |s|;
      var r := LastIndexOf(s[..end], c);
      assert forall k :: 0 <= k < end ==> s[..end][k] == s[k] && s[..end][k] in s[..end];
      r
  }

  /**
   * `getURLDirName`, on the path of the URL: "" unless the path is a
   * "file:" one; otherwise the text after "file:" up to the last '/' at or
   * before the last '!' (or anywhere when there is none), then "/". A
   * "file:" path without such a '/' makes `substring` throw.
   */
  function URLDirName(path: JString): (r: Result<JString, JavaError>)
    ensures !StartsWith(path, FILE_SCHEME) ==> r == Ok([])
    ensures r.Err? <==> StartsWith(path, FILE_SCHEME) && forall k :: 5 <= k < |path| && k <= Cut(path) ==> path[k] != SLASH
    ensures r.Err? ==> r.error == IndexOutOfBounds
    ensures StartsWith(path, FILE_SCHEME) && r.Ok? ==>
      && 0 < |r.value| && r.value[|r.value| - 1] == SLASH
      && StartsWith(path, FILE_SCHEME + r.value)
      && 4 + |r.value| <= Cut(path)
      && forall k :: 5 + |r.value| <= k < |path| && k <= Cut(path) ==> path[k] != SLASH
  {
    var i := Cut(path);
    var dir := LastIndexAtOrBefore(path, SLASH, i);
    if !StartsWith(path, FILE_SCHEME) then Ok([])
    else if dir < 5 then
      assert forall k :: 0 <= k < 5 ==> path[k] == FILE_SCHEME[k];
      Err(IndexOutOfBounds)
    else
      var r := path[5..dir] + [SLASH];
      assert (FILE_SCHEME + r)[..] == path[..dir + 1];
      Ok(r)
  }

  const FREETTS_JAR: JString := [0x66, 0x72, 0x65, 0x65, 0x74, 0x74, 0x73, 0x2E, 0x6A, 0x61, 0x72]  // "freetts.jar"

  /**
   * The class loader of dynamically found jars: `urls` is the search path
   * of the URLClassLoader it extends and `classPath` the set of URIs added
   * to it. URIs and URLs are known by their text.
   */
  class DynamicClassLoader {
    var classPath: set<JString>
    var urls: seq<JString>

    /** Every URI in the set is on the search path and the other way round. */
    ghost predicate Valid()
      reads this
    {
      forall u :: u in classPath <==> u in urls
    }

    constructor (urls: seq<JString>)
      ensures Valid() && this.urls == urls
    {
      this.urls := urls;
      classPath := set u | u in urls;
    }

    /**
     * `addUniqueURL(url)`: puts `url` on the search path iff it is not there
     * yet and does not name freetts.jar. `isUrl` tells the URIs that convert
     * to a URL; the others throw MalformedURLException and change nothing.
     */
    method AddUniqueURL(url: JString, isUrl: JString -> bool) returns (r: Result<(), JavaError>)
      requires Valid()
      modifies this
      ensures Valid()
      ensures url !in old(urls) && !ContainsSub(url, FREETTS_JAR) && isUrl(url) ==>
        r == Ok(()) && urls == old(urls) + [url] && classPath == old(classPath) + {url}
      ensures url !in old(urls) && !ContainsSub(url, FREETTS_JAR) && !isUrl(url) ==>
        r == Err(MalformedURL) && urls == old(urls) && classPath == old(classPath)
      ensures url in old(urls) || ContainsSub(url, FREETTS_JAR) ==>
        r == Ok(()) && urls == old(urls) && classPath == old(classPath)
    {
      var name := url;
      if url !in classPath && !ContainsSub(name, FREETTS_JAR) {
        if !isUrl(url) {
          return Err(MalformedURL);
        }
        urls := urls + [url];
        classPath := classPath + {url};
      }
      r := Ok(());
    }
  }

  /** A path free of repeats stays so. */
  lemma AddUniqueKeepsNoDup(urls: seq<JString>, url: JString)
    requires NoDup(urls) && url !in urls
    ensures NoDup(urls + [url])
  {
  }

  const OR: JString := [0x6F, 0x72, 0x20]  // "or "

  /** What `toString` appends for voice `i`: the last one after "or ", the others before a space. */
  function Piece(names: seq<JString>, i: nat): JString
    requires i < |names|
  {
    if i == |names| - 1 then (if i == 0 then names[i] else OR + names[i])
    else names[i] + [SPACE]
  }

  /** The text `toString` has built after `k` voices. */
  function Built(names: seq<JString>, k: nat): JString
    requires k <= |names|
  {
    if k == 0 then [] else Built(names, k - 1) + Piece(names, k - 1)
  }

  /**
   * `toString`: the voice names with a space after each but the last and
   * "or " before the last when there are several. `names` are the voices'
   * names as they print.
   */
  method Listing(names: seq<JString>) returns (r: JString)
    ensures r == Built(names, |names|)
  {
    r := [];
    var i := 0;
    while i < |names|
      invariant 0 <= i <= |names| && r == Built(names, i)
    {
      ghost var before := r;
      if i == |names| - 1 {
        if i == 0 {
          r := r + names[i];
        } else {
          r := r + OR;
          r := r + names[i];
          assert r == before + (OR + names[i]);
        }
      } else {
        r := r + names[i];
        r := r + [SPACE];
      }
      assert r == before + Piece(names, i);
      i := i + 1;
    }
  }

  /** Joining with one more name at the end. */
  lemma {:induction false} JoinWithSnoc(ts: seq<JString>, t: JString, sep: JChar)
    requires |ts| >= 1
    ensures JoinWith(ts + [t], sep) == JoinWith(ts, sep) + [sep] + t
  {
    if |ts| == 1 {
      assert (ts + [t])[1..] == [t];
    } else {
      assert (ts + [t])[1..] == ts[1..] + [t];
      JoinWithSnoc(ts[1..], t, sep);
    }
  }

  /** Before the last voice, the text is the names so far joined by spaces, and a space. */
  lemma {:induction false} BuiltPrefix(names: seq<JString>, k: nat)
    requires 1 <= k < |names|
    ensures Built(names, k) == JoinWith(names[..k], SPACE) + [SPACE]
  {
    if k > 1 {
      BuiltPrefix(names, k - 1);
      assert names[..k] == names[..k - 1] + [names[k - 1]];
      JoinWithSnoc(names[..k - 1], names[k - 1], SPACE);
    }
  }

  /**
   * The listing is "" for no voices, the name alone for one, and otherwise
   * the names joined by single spaces with "or " in front of the last.
   */
  lemma ListingIsJoin(names: seq<JString>)
    ensures |names| == 0 ==> Built(names, 0) == []
    ensures |names| == 1 ==> Built(names, 1) == names[0]
    ensures |names| >= 2 ==>
      Built(names, |names|) == JoinWith(names[..|names| - 1] + [OR + names[|names| - 1]], SPACE)
  {
    var n := |names|;
    if n >= 2 {
      BuiltPrefix(names, n - 1);
      JoinWithSnoc(names[..n - 1], OR + names[n - 1], SPACE);
    }
  }
}

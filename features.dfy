/**
 * FeatureSetImpl: a named set of features backed by a LinkedHashMap, so
 * that its keys keep the order in which they were first inserted.
 */
module Features {
  import opened Wrappers
  import opened JavaLang
  import opened Streams
  import opened Utilities

  /**
   * A feature value: the boxed objects the typed setters store, null, and
   * any other object, known only by an identity.
   */
  datatype Value = Null | Str(s: JString) | IntVal(i: Int32) | FloatVal(f: real) | Object(id: nat)

  const NAME: JString := [0x6E, 0x61, 0x6D, 0x65]  // "name"
  const EQUALS: JChar := 0x3D                      // '='

  /** No key occurs twice. */
  predicate Distinct(ks: seq<JString>) {
    forall i, j :: 0 <= i < j < |ks| ==> ks[i] != ks[j]
  }

  /** `ks` with `n` taken out, the other keys in their order. */
  function Erase(ks: seq<JString>, n: JString): (r: seq<JString>)
    ensures forall k :: k in r <==> k in ks && k != n
    ensures Distinct(ks) ==> Distinct(r)
    ensures n !in ks ==> r == ks
  {
    if ks == [] then []
    else if ks[0] == n then Erase(ks[1..], n)
    else
      assert Distinct(ks) ==> ks[0] !in ks[1..] && Distinct(ks[1..]);
      [ks[0]] + Erase(ks[1..], n)
  }

  /**
   * The contents of a LinkedHashMap<String, Object>: the keys in insertion
   * order and the value of each.
   */
  datatype LinkedMap = LinkedMap(keys: seq<JString>, values: map<JString, Value>) {

    /** The order lists each key of the map exactly once. */
    ghost predicate Valid() {
      Distinct(keys) && forall k :: k in values <==> k in keys
    }

    /** `containsKey`. */
    predicate Present(n: JString) {
      n in values
    }

    /** `get`: the value, or null for an absent key. */
    function Get(n: JString): (r: Value)
      ensures !Present(n) ==> r == Null
    {
      if n in values then values[n] else Null
    }

    /**
     * `put`: afterwards `n` is present with value `v`, every other key keeps
     * its value, and a key that was already present keeps its position.
     */
    function Put(n: JString, v: Value): (r: LinkedMap)
      ensures r.Present(n) && r.Get(n) == v
      ensures forall k :: k != n ==> r.Present(k) == Present(k) && r.Get(k) == Get(k)
      ensures n in keys ==> r.keys == keys
      ensures n !in keys ==> r.keys == keys + [n]
    {
      LinkedMap(if n in keys then keys else keys + [n], values[n := v])
    }

    /** `remove`: `n` becomes absent; every other key and the order of the rest stay. */
    function Remove(n: JString): (r: LinkedMap)
      ensures !r.Present(n) && r.Get(n) == Null
      ensures forall k :: k != n ==> r.Present(k) == Present(k) && r.Get(k) == Get(k)
      ensures forall k :: k in r.keys <==> k in keys && k != n
    {
      LinkedMap(Erase(keys, n), values - {n})
    }
  }

  const EMPTY: LinkedMap := LinkedMap([], map[])

  /** `put` and `remove` keep every key listed exactly once. */
  lemma UpdatesKeepValid(m: LinkedMap, n: JString, v: Value)
    requires m.Valid()
    ensures m.Put(n, v).Valid() && m.Remove(n).Valid()
  {
  }

  /**
   * The typed setters and getters round-trip, and a typed getter applied
   * to a value of another type throws ClassCastException.
   */
  lemma TypedRoundTrip(m: LinkedMap, n: JString, s: JString, i: Int32, f: real)
    ensures AsString(m.Put(n, Str(s)).Get(n)) == Ok(Some(s))
    ensures AsInt(m.Put(n, IntVal(i)).Get(n)) == Ok(i)
    ensures AsFloat(m.Put(n, FloatVal(f)).Get(n)) == Ok(f)
    ensures AsInt(m.Put(n, Str(s)).Get(n)) == Err(ClassCast) && AsFloat(m.Put(n, Str(s)).Get(n)) == Err(ClassCast)
    ensures AsString(m.Put(n, IntVal(i)).Get(n)) == Err(ClassCast) && AsFloat(m.Put(n, IntVal(i)).Get(n)) == Err(ClassCast)
    ensures AsString(m.Put(n, FloatVal(f)).Get(n)) == Err(ClassCast) && AsInt(m.Put(n, FloatVal(f)).Get(n)) == Err(ClassCast)
  {
  }

  /** An absent name is not present and reads as null, so a string getter gives null. */
  lemma AbsentIsNull(m: LinkedMap, n: JString)
    requires !m.Present(n)
    ensures m.Get(n) == Null && AsString(m.Get(n)) == Ok(None)
  {
  }

  /** `(String) v`: null passes, a non-string throws ClassCastException. */
  function AsString(v: Value): (r: Result<Option<JString>, JavaError>)
    ensures r.Ok? <==> v.Null? || v.Str?
    ensures r.Err? ==> r.error == ClassCast
    ensures v.Str? ==> r == Ok(Some(v.s))
    ensures v.Null? ==> r == Ok(None)
  {
    match v
    case Null => Ok(None)
    case Str(s) => Ok(Some(s))
    case _ => Err(ClassCast)
  }

  /**
   * `(Integer) v` unboxed to `int`: null throws NullPointerException and a
   * value of another class ClassCastException.
   */
  function AsInt(v: Value): (r: Result<Int32, JavaError>)
    ensures r.Ok? <==> v.IntVal?
    ensures v.IntVal? ==> r.value == v.i
    ensures v.Null? ==> r == Err(NullPointer)
    ensures !v.Null? && !v.IntVal? ==> r == Err(ClassCast)
  {
    match v
    case IntVal(i) => Ok(i)
    case Null => Err(NullPointer)
    case _ => Err(ClassCast)
  }

  /** `(Float) v` unboxed to `float`, with the same failures as `AsInt`. */
  function AsFloat(v: Value): (r: Result<real, JavaError>)
    ensures r.Ok? <==> v.FloatVal?
    ensures v.FloatVal? ==> r.value == v.f
    ensures v.Null? ==> r == Err(NullPointer)
    ensures !v.Null? && !v.FloatVal? ==> r == Err(ClassCast)
  {
    match v
    case FloatVal(f) => Ok(f)
    case Null => Err(NullPointer)
    case _ => Err(ClassCast)
  }

  /** `ks` last to first (`Collections.reverse`). */
  function Reverse(ks: seq<JString>): (r: seq<JString>)
    ensures |r| == |ks|
    ensures forall i :: 0 <= i < |ks| ==> r[i] == ks[|ks| - 1 - i]
  {
    if ks == [] then [] else Reverse(ks[1..]) + [ks[0]]
  }

  /** The keys `dump` writes, in its order: `ks` without "name" unless `showName`. */
  function Shown(ks: seq<JString>, showName: bool): (r: seq<JString>)
    ensures forall k :: k in r <==> k in ks && (showName || k != NAME)
    ensures showName ==> r == ks
  {
    if ks == [] then []
    else if !showName && ks[0] == NAME then Shown(ks[1..], showName)
    else [ks[0]] + Shown(ks[1..], showName)
  }

  /**
   * The lines one entry of `dump` writes: `key=value`, indented by four
   * more spaces, where a float goes through the formatter `format`. An
   * object that is not a boxed primitive or string writes the lines `other`
   * gives (its own `dump` when it is Dumpable, otherwise its `toString`).
   */
  function EntryLines(key: JString, v: Value, pad: int, format: real -> JString,
                      other: (nat, int, JString) -> seq<JString>): seq<JString>
  {
    if v.Object? then other(v.id, pad + 4, key)
    else [Pad(pad + 4) + (key + [EQUALS] + ValueText(v, format))]
  }

  /** `"" + v` for a value that is not an opaque object. */
  function ValueText(v: Value, format: real -> JString): JString {
    match v
    case FloatVal(f) => format(f)
    case Str(s) => s
    case IntVal(i) => IntToString(i)
    case Null => NULL_TEXT
    case Object(_) => []
  }

  /** The lines of the entries for `ks`, in order. */
  function EntriesLines(ks: seq<JString>, m: LinkedMap, pad: int, format: real -> JString,
                        other: (nat, int, JString) -> seq<JString>): seq<JString>
  {
    if ks == [] then []
    else EntryLines(ks[0], m.Get(ks[0]), pad, format, other) + EntriesLines(ks[1..], m, pad, format, other)
  }

  /** One step of `dump`'s loop: the entry for `ks[i]`, unless skipped, then the rest. */
  lemma EntriesStep(ks: seq<JString>, i: nat, showName: bool, m: LinkedMap, pad: int,
                    format: real -> JString, other: (nat, int, JString) -> seq<JString>)
    requires i < |ks|
    ensures EntriesLines(Shown(ks[i..], showName), m, pad, format, other)
      == (if !showName && ks[i] == NAME then [] else EntryLines(ks[i], m.Get(ks[i]), pad, format, other))
        + EntriesLines(Shown(ks[i + 1..], showName), m, pad, format, other)
  {
    assert ks[i..][1..] == ks[i + 1..];
  }

  /** One entry of `dump`: a Dumpable value dumps itself, any other value prints `key=value`. */
  method DumpEntry(output: LineOutput, pad: int, key: JString, value: Value, format: real -> JString,
                   other: (nat, int, JString) -> seq<JString>)
    modifies output
    ensures output.lines == old(output.lines) + EntryLines(key, value, pad, format, other)
  {
    if value.Object? {
      output.PrintLines(other(value.id, pad + 4, key));
    } else {
      Utilities.Dump(output, pad + 4, key + [EQUALS] + ValueText(value, format));
    }
  }

  class FeatureSet {
    var featureMap: LinkedMap

    /** An empty feature set. */
    constructor ()
      ensures featureMap == EMPTY && featureMap.Valid()
    {
      featureMap := EMPTY;
    }

    predicate IsPresent(name: JString)
      reads this
    {
      featureMap.Present(name)
    }

    function GetObject(name: JString): Value
      reads this
    {
      featureMap.Get(name)
    }

    function GetString(name: JString): Result<Option<JString>, JavaError>
      reads this
    {
      AsString(GetObject(name))
    }

    function GetInt(name: JString): Result<Int32, JavaError>
      reads this
    {
      AsInt(GetObject(name))
    }

    function GetFloat(name: JString): Result<real, JavaError>
      reads this
    {
      AsFloat(GetObject(name))
    }

    method Remove(name: JString)
      modifies this
      ensures featureMap == old(featureMap).Remove(name)
      ensures !IsPresent(name)
      ensures forall k :: k != name ==> IsPresent(k) == old(IsPresent(k)) && GetObject(k) == old(GetObject(k))
    {
      featureMap := featureMap.Remove(name);
    }

    method SetObject(name: JString, value: Value)
      modifies this
      ensures featureMap == old(featureMap).Put(name, value)
      ensures IsPresent(name) && GetObject(name) == value
      ensures forall k :: k != name ==> IsPresent(k) == old(IsPresent(k)) && GetObject(k) == old(GetObject(k))
    {
      featureMap := featureMap.Put(name, value);
    }

    method SetString(name: JString, value: JString)
      modifies this
      ensures featureMap == old(featureMap).Put(name, Str(value))
    {
      SetObject(name, Str(value));
    }

    method SetInt(name: JString, value: Int32)
      modifies this
      ensures featureMap == old(featureMap).Put(name, IntVal(value))
    {
      SetObject(name, IntVal(value));
    }

    method SetFloat(name: JString, value: real)
      modifies this
      ensures featureMap == old(featureMap).Put(name, FloatVal(value))
    {
      SetObject(name, FloatVal(value));
    }

    /**
     * `dump(output, pad, title, showName)`: the padded title, then one entry
     * per key, last inserted first, leaving out "name" unless `showName`.
     */
    method Dump(output: LineOutput, pad: int, title: JString, showName: bool,
                format: real -> JString, other: (nat, int, JString) -> seq<JString>)
      modifies output
      ensures output.lines == old(output.lines) + [Pad(pad) + title]
        + EntriesLines(Shown(Reverse(featureMap.keys), showName), featureMap, pad, format, other)
    {
      var keys := Reverse(featureMap.keys);
      Utilities.Dump(output, pad, title);
      ghost var start := output.lines;
      var i := 0;
      while i < |keys|
        invariant 0 <= i <= |keys|
        invariant output.lines + EntriesLines(Shown(keys[i..], showName), featureMap, pad, format, other)
          == start + EntriesLines(Shown(keys, showName), featureMap, pad, format, other)
      {
        var key := keys[i];
        EntriesStep(keys, i, showName, featureMap, pad, format, other);
        if !showName && key == NAME {
          i := i + 1;
          continue;
        }
        var value := GetObject(key);
        ghost var lines := EntryLines(key, value, pad, format, other);
        AppendAssoc(output.lines, lines, EntriesLines(Shown(keys[i + 1..], showName), featureMap, pad, format, other));
        DumpEntry(output, pad, key, value, format, other);
        i := i + 1;
      }
    }
  }
}

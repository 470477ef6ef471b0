/**
 * FreeTTSEngineCentral: the voices known to the voice manager grouped by
 * (domain, locale), one synthesizer mode description per group.
 */
module EngineCentral {
  import opened Wrappers
  import opened JavaLang
  import opened VoiceRegistry

  /** What DomainLocale.equals compares: the domain and the locale. */
  datatype Key<L> = Key(domain: JString, locale: L)

  /**
   * One combination of domain and locale and the voices that have it, in
   * the order they were added. `L` is the locale type and `V` the voice type.
   */
  class DomainLocale<L(==,!new), V> {
    const domain: JString
    const locale: L
    var voices: seq<V>

    constructor (domain: JString, locale: L)
      ensures this.domain == domain && this.locale == locale && voices == []
    {
      this.domain := domain;
      this.locale := locale;
      voices := [];
    }

    function GetKey(): Key<L> {
      Key(domain, locale)
    }

    /** `equals(o)`: false for null; otherwise whether domain and locale agree. */
    predicate Equals(o: DomainLocale?<L, V>) {
      o != null && domain == o.domain && locale == o.locale
    }

    /** `addVoice(voice)`: appended. */
    method AddVoice(voice: V)
      modifies this
      ensures voices == old(voices) + [voice]
    {
      voices := voices + [voice];
    }

    /** `getVoices()`: a fresh array of the voices, in order. */
    method GetVoices() returns (r: array<V>)
      ensures fresh(r) && r[..] == voices
    {
      var vs := voices;
      r := new V[|vs|](i requires 0 <= i < |vs| => vs[i]);
    }
  }

  /** Two DomainLocales are equal exactly when their keys are; the voices are not compared. */
  lemma EqualsIsSameKey<L(!new), V>(a: DomainLocale<L, V>, b: DomainLocale<L, V>)
    ensures a.Equals(b) <==> a.GetKey() == b.GetKey()
    ensures a.Equals(b) <==> b.Equals(a)
  {
  }

  /**
   * `getItem(vector, o)`: the first element of `vector` equal to `o`, or
   * null when there is none.
   */
  method GetItem<L(==,!new), V>(vector: seq<DomainLocale<L, V>>, o: DomainLocale<L, V>)
    returns (r: DomainLocale?<L, V>, ghost at: int)
    ensures r == null <==> forall i :: 0 <= i < |vector| ==> !vector[i].Equals(o)
    ensures r != null ==>
      && 0 <= at < |vector| && vector[at] == r && r.Equals(o)
      && forall k :: 0 <= k < at ==> !vector[k].Equals(o)
  {
    var i := 0;
    while i < |vector|
      invariant 0 <= i <= |vector|
      invariant forall k :: 0 <= k < i ==> !vector[k].Equals(o)
    {
      if vector[i].Equals(o) {
        return vector[i], i;
      }
      i := i + 1;
    }
    r, at := null, -1;
  }

  /** The key of a voice. */
  function KeyOf<L, V>(v: V, domainOf: V -> JString, localeOf: V -> L): Key<L> {
    Key(domainOf(v), localeOf(v))
  }

  /** The keys of the voices, in input order. */
  function KeysOf<L, V>(vs: seq<V>, domainOf: V -> JString, localeOf: V -> L): seq<Key<L>> {
    if vs == [] then [] else KeysOf(vs[..|vs| - 1], domainOf, localeOf) + [KeyOf(vs[|vs| - 1], domainOf, localeOf)]
  }

  /** The voices with key `k`, in input order. */
  function VoicesWith<L(==), V>(vs: seq<V>, k: Key<L>, domainOf: V -> JString, localeOf: V -> L): seq<V> {
    if vs == [] then []
    else
      var last := vs[|vs| - 1];
      VoicesWith(vs[..|vs| - 1], k, domainOf, localeOf) + if KeyOf(last, domainOf, localeOf) == k then [last] else []
  }

  /** The keys of the groups, in order. */
  function GroupKeys<L(==,!new), V>(groups: seq<DomainLocale<L, V>>): (r: seq<Key<L>>)
    ensures |r| == |groups| && forall j :: 0 <= j < |groups| ==> r[j] == groups[j].GetKey()
  {
    seq(|groups|, j requires 0 <= j < |groups| => groups[j].GetKey())
  }

  /** The voices of each group, in the current state. */
  ghost function GroupVoices<L(!new), V>(groups: seq<DomainLocale<L, V>>): (r: seq<seq<V>>)
    reads groups
    ensures |r| == |groups| && forall j :: 0 <= j < |groups| ==> r[j] == groups[j].voices
  {
    seq(|groups|, j reads groups requires 0 <= j < |groups| => groups[j].voices)
  }

  /**
   * The groups after the voices `vs`: one per key, in order of first
   * occurrence, each holding the voices with its key in input order.
   */
  ghost predicate Grouped<L(!new), V>(groups: seq<DomainLocale<L, V>>, vs: seq<V>, domainOf: V -> JString, localeOf: V -> L)
    reads groups
  {
    && GroupKeys(groups) == AddEach([], KeysOf(vs, domainOf, localeOf))
    && forall j :: 0 <= j < |groups| ==> groups[j].voices == VoicesWith(vs, groups[j].GetKey(), domainOf, localeOf)
  }

  /** The keys of the groups are distinct, so the groups are distinct objects. */
  lemma GroupsDistinct<L(!new), V>(groups: seq<DomainLocale<L, V>>, ks: seq<Key<L>>, a: nat, b: nat)
    requires GroupKeys(groups) == AddEach([], ks)
    requires a < b < |groups|
    ensures groups[a].GetKey() != groups[b].GetKey() && groups[a] != groups[b]
  {
    AddEachNoDup([], ks);
    assert GroupKeys(groups)[a] != GroupKeys(groups)[b];
  }

  /** One more voice: the voices of each key after it. */
  lemma VoicesWithSnoc<L, V>(vs: seq<V>, v: V, k: Key<L>, domainOf: V -> JString, localeOf: V -> L)
    ensures VoicesWith(vs + [v], k, domainOf, localeOf)
         == VoicesWith(vs, k, domainOf, localeOf) + if KeyOf(v, domainOf, localeOf) == k then [v] else []
  {
    assert (vs + [v])[..|vs|] == vs;
  }

  /** One more voice: its key comes last. */
  lemma KeysOfSnoc<L, V>(vs: seq<V>, v: V, domainOf: V -> JString, localeOf: V -> L)
    ensures KeysOf(vs + [v], domainOf, localeOf) == KeysOf(vs, domainOf, localeOf) + [KeyOf(v, domainOf, localeOf)]
  {
    assert (vs + [v])[..|vs|] == vs;
  }

  /** No voice has a key that is not among the keys of the voices. */
  lemma {:induction false} VoicesWithAbsent<L, V>(vs: seq<V>, k: Key<L>, domainOf: V -> JString, localeOf: V -> L)
    requires k !in KeysOf(vs, domainOf, localeOf)
    ensures VoicesWith(vs, k, domainOf, localeOf) == []
  {
    if vs != [] {
      var init := vs[..|vs| - 1];
      assert KeysOf(vs, domainOf, localeOf) == KeysOf(init, domainOf, localeOf) + [KeyOf(vs[|vs| - 1], domainOf, localeOf)];
      VoicesWithAbsent(init, k, domainOf, localeOf);
    }
  }

  /**
   * The loop body of the grouping: a DomainLocale for the voice's key is
   * made and looked up, appended when there is none, and the voice is
   * added to the one found or appended.
   */
  method AddToGroups<L(==,!new), V>(groups: seq<DomainLocale<L, V>>, v: V, ghost vs: seq<V>,
                                     domainOf: V -> JString, localeOf: V -> L)
    returns (groups': seq<DomainLocale<L, V>>)
    requires Grouped(groups, vs, domainOf, localeOf)
    modifies groups
    ensures Grouped(groups', vs + [v], domainOf, localeOf)
    ensures |groups| <= |groups'| && groups'[..|groups|] == groups
    ensures forall j :: |groups| <= j < |groups'| ==> fresh(groups'[j])
  {
    var dl := new DomainLocale(domainOf(v), localeOf(v));
    var entry, at := GetItem(groups, dl);
    if entry == null {
      groups' := AppendGroup(groups, dl, v, vs, domainOf, localeOf);
    } else {
      ExtendGroup(groups, entry, at, v, vs, domainOf, localeOf);
      groups' := groups;
    }
  }

  /** No group equal to `dl`: no group has its key. */
  lemma NoEqualNoKey<L(!new), V>(groups: seq<DomainLocale<L, V>>, dl: DomainLocale<L, V>)
    requires forall i :: 0 <= i < |groups| ==> !groups[i].Equals(dl)
    ensures dl.GetKey() !in GroupKeys(groups)
  {
    forall j | 0 <= j < |groups|
      ensures GroupKeys(groups)[j] != dl.GetKey()
    {
      assert !groups[j].Equals(dl);
    }
  }

  /** A new DomainLocale for a key no group has, appended and given the voice. */
  method AppendGroup<L(==,!new), V>(groups: seq<DomainLocale<L, V>>, dl: DomainLocale<L, V>, v: V, ghost vs: seq<V>,
                                     domainOf: V -> JString, localeOf: V -> L)
    returns (groups': seq<DomainLocale<L, V>>)
    requires Grouped(groups, vs, domainOf, localeOf)
    requires dl.voices == [] && dl.GetKey() == KeyOf(v, domainOf, localeOf)
    requires forall i :: 0 <= i < |groups| ==> !groups[i].Equals(dl)
    modifies dl
    ensures |groups| <= |groups'| && groups'[..|groups|] == groups
    ensures forall j :: |groups| <= j < |groups'| ==> groups'[j] == dl
    ensures Grouped(groups', vs + [v], domainOf, localeOf)
  {
    NoEqualNoKey(groups, dl);
    var k := dl.GetKey();
    VoicesWithAbsent(vs, k, domainOf, localeOf);
    assert forall j :: 0 <= j < |groups| ==> GroupKeys(groups)[j] != k;
    assert dl !in groups;
    ghost var before := GroupVoices(groups);
    dl.AddVoice(v);
    assert GroupVoices(groups) == before;
    groups' := groups + [dl];
    KeysAfterNew(groups, dl, vs, v, domainOf, localeOf);
    assert groups'[..|groups|] == groups;
    forall j | 0 <= j < |groups'|
      ensures groups'[j].voices == VoicesWith(vs + [v], groups'[j].GetKey(), domainOf, localeOf)
    {
      VoicesWithSnoc(vs, v, groups'[j].GetKey(), domainOf, localeOf);
      if j < |groups| {
        assert groups'[j] == groups[j] && GroupKeys(groups)[j] != k;
        assert groups[j].voices == before[j];
      }
    }
  }

  /** The keys of the groups after a group for a new key is appended. */
  lemma KeysAfterNew<L(!new), V>(groups: seq<DomainLocale<L, V>>, dl: DomainLocale<L, V>, vs: seq<V>, v: V,
                                 domainOf: V -> JString, localeOf: V -> L)
    requires GroupKeys(groups) == AddEach([], KeysOf(vs, domainOf, localeOf))
    requires dl.GetKey() == KeyOf(v, domainOf, localeOf) && dl.GetKey() !in GroupKeys(groups)
    ensures GroupKeys(groups + [dl]) == AddEach([], KeysOf(vs + [v], domainOf, localeOf))
  {
    KeysOfSnoc(vs, v, domainOf, localeOf);
    AddEachSnoc([], KeysOf(vs, domainOf, localeOf), dl.GetKey());
    assert GroupKeys(groups + [dl]) == GroupKeys(groups) + [dl.GetKey()];
  }

  /** The keys of the groups stay when a voice with a key some group has comes. */
  lemma KeysAfterOld<L(!new), V>(groups: seq<DomainLocale<L, V>>, e: nat, vs: seq<V>, v: V,
                                 domainOf: V -> JString, localeOf: V -> L)
    requires GroupKeys(groups) == AddEach([], KeysOf(vs, domainOf, localeOf))
    requires e < |groups| && groups[e].GetKey() == KeyOf(v, domainOf, localeOf)
    ensures GroupKeys(groups) == AddEach([], KeysOf(vs + [v], domainOf, localeOf))
  {
    KeysOfSnoc(vs, v, domainOf, localeOf);
    AddEachSnoc([], KeysOf(vs, domainOf, localeOf), KeyOf(v, domainOf, localeOf));
    assert GroupKeys(groups)[e] == KeyOf(v, domainOf, localeOf);
  }

  /** The voice added to the group that has its key. */
  method ExtendGroup<L(==,!new), V>(groups: seq<DomainLocale<L, V>>, entry: DomainLocale<L, V>, ghost e: int, v: V,
                                     ghost vs: seq<V>, domainOf: V -> JString, localeOf: V -> L)
    requires Grouped(groups, vs, domainOf, localeOf)
    requires 0 <= e < |groups| && groups[e] == entry && entry.GetKey() == KeyOf(v, domainOf, localeOf)
    modifies entry
    ensures Grouped(groups, vs + [v], domainOf, localeOf)
  {
    ghost var ks := KeysOf(vs, domainOf, localeOf);
    KeysAfterOld(groups, e, vs, v, domainOf, localeOf);
    entry.AddVoice(v);
    forall j | 0 <= j < |groups|
      ensures groups[j].voices == VoicesWith(vs + [v], groups[j].GetKey(), domainOf, localeOf)
    {
      VoicesWithSnoc(vs, v, groups[j].GetKey(), domainOf, localeOf);
      assert old(groups[j].voices) == VoicesWith(vs, groups[j].GetKey(), domainOf, localeOf);
      if j == e {
        assert groups[j].voices == old(groups[j].voices) + [v];
      } else {
        if j < e {
          GroupsDistinct(groups, ks, j, e);
        } else {
          GroupsDistinct(groups, ks, e, j);
        }
        assert groups[j].voices == old(groups[j].voices);
      }
    }
  }

  /**
   * The first loop of `createEngineList`: every voice goes to the group of
   * its (domain, locale), made when the key is first seen.
   */
  method GroupAll<L(==,!new), V>(voices: seq<V>, domainOf: V -> JString, localeOf: V -> L)
    returns (groups: seq<DomainLocale<L, V>>)
    ensures Grouped(groups, voices, domainOf, localeOf)
    ensures forall j :: 0 <= j < |groups| ==> fresh(groups[j])
  {
    groups := [];
    var i := 0;
    while i < |voices|
      invariant 0 <= i <= |voices|
      invariant Grouped(groups, voices[..i], domainOf, localeOf)
      invariant forall j :: 0 <= j < |groups| ==> fresh(groups[j])
    {
      var next := AddToGroups(groups, voices[i], voices[..i], domainOf, localeOf);
      assert forall j :: 0 <= j < |groups| ==> next[j] == groups[j];
      groups := next;
      assert voices[..i + 1] == voices[..i] + [voices[i]];
      i := i + 1;
    }
    assert voices[..i] == voices;
  }

  /**
   * A synthesizer mode description: engine name, mode name, locale and
   * the voices, each wrapped as a JSAPI voice.
   */
  datatype ModeDesc<L, V> = ModeDesc(engineName: JString, modeName: JString, locale: L, voices: seq<V>)

  const FREETTS: JString := Lit("FreeTTS ")
  const SYNTHESIZER: JString := Lit(" synthesizer")

  /** "FreeTTS <locale> <domain> synthesizer"; `localeText` is Locale.toString. */
  function EngineName<L>(k: Key<L>, localeText: L -> JString): JString {
    FREETTS + localeText(k.locale) + [SPACE] + k.domain + SYNTHESIZER
  }

  /** The description made for one group. */
  function Descriptor<L, V>(k: Key<L>, vs: seq<V>, localeText: L -> JString): ModeDesc<L, V> {
    ModeDesc(EngineName(k, localeText), k.domain, k.locale, vs)
  }

  /**
   * Whether a description is put in the list: it matches the required
   * mode, or none is required, and it validates.
   */
  predicate Kept<L, V, R>(d: ModeDesc<L, V>, require: Option<R>, matches: (ModeDesc<L, V>, R) -> bool,
                          valid: ModeDesc<L, V> -> bool) {
    (require.None? || matches(d, require.value)) && valid(d)
  }

  /** The kept descriptions of the groups with keys `ks`, in the order of the keys. */
  function Descriptions<L(==), V, R>(ks: seq<Key<L>>, voices: seq<V>, domainOf: V -> JString, localeOf: V -> L,
                                     localeText: L -> JString, require: Option<R>,
                                     matches: (ModeDesc<L, V>, R) -> bool, valid: ModeDesc<L, V> -> bool)
    : seq<ModeDesc<L, V>>
  {
    if ks == [] then []
    else
      var d := Descriptor(ks[|ks| - 1], VoicesWith(voices, ks[|ks| - 1], domainOf, localeOf), localeText);
      Descriptions(ks[..|ks| - 1], voices, domainOf, localeOf, localeText, require, matches, valid)
        + if Kept(d, require, matches, valid) then [d] else []
  }

  /** One more group described. */
  lemma DescriptionsNext<L, V, R>(ks: seq<Key<L>>, j: nat, voices: seq<V>, domainOf: V -> JString, localeOf: V -> L,
                                      localeText: L -> JString, require: Option<R>,
                                      matches: (ModeDesc<L, V>, R) -> bool, valid: ModeDesc<L, V> -> bool)
    requires j < |ks|
    ensures var d := Descriptor(ks[j], VoicesWith(voices, ks[j], domainOf, localeOf), localeText);
            Descriptions(ks[..j + 1], voices, domainOf, localeOf, localeText, require, matches, valid)
            == Descriptions(ks[..j], voices, domainOf, localeOf, localeText, require, matches, valid)
               + if Kept(d, require, matches, valid) then [d] else []
  {
    assert ks[..j + 1][..j] == ks[..j];
  }

  /** What `createEngineList` returns: the kept descriptions, or null when there are none. */
  function EngineList<L(==,!new), V, R>(voices: seq<V>, domainOf: V -> JString, localeOf: V -> L,
                                        localeText: L -> JString, require: Option<R>,
                                        matches: (ModeDesc<L, V>, R) -> bool, valid: ModeDesc<L, V> -> bool)
    : Option<seq<ModeDesc<L, V>>>
  {
    var ds := Descriptions(AddEach([], KeysOf(voices, domainOf, localeOf)), voices, domainOf, localeOf,
                           localeText, require, matches, valid);
    if ds == [] then None else Some(ds)
  }

  /**
   * `createEngineList(require)` over the voices of the voice manager:
   * groups them, makes one description per group, and keeps those that
   * match and validate. `domainOf`, `localeOf` are Voice.getDomain and
   * Voice.getLocale, `matches` is EngineModeDesc.match and `valid` whether
   * validate() does not throw.
   */
  method CreateEngineList<L(==,!new), V, R>(voices: seq<V>, domainOf: V -> JString, localeOf: V -> L,
                                            localeText: L -> JString, require: Option<R>,
                                            matches: (ModeDesc<L, V>, R) -> bool, valid: ModeDesc<L, V> -> bool)
    returns (el: Option<seq<ModeDesc<L, V>>>)
    ensures el == EngineList(voices, domainOf, localeOf, localeText, require, matches, valid)
  {
    var groups := GroupAll(voices, domainOf, localeOf);
    ghost var ks := GroupKeys(groups);
    var descs := [];
    var j := 0;
    while j < |groups|
      invariant 0 <= j <= |groups|
      invariant Grouped(groups, voices, domainOf, localeOf)
      invariant descs == Descriptions(ks[..j], voices, domainOf, localeOf, localeText, require, matches, valid)
    {
      var desc := Describe(groups[j], localeText);
      DescriptionsNext(ks, j, voices, domainOf, localeOf, localeText, require, matches, valid);
      assert desc == Descriptor(ks[j], VoicesWith(voices, ks[j], domainOf, localeOf), localeText);
      if Kept(desc, require, matches, valid) {
        descs := descs + [desc];
      }
      j := j + 1;
    }
    assert ks[..j] == ks;
    if descs == [] {
      el := None;
    } else {
      el := Some(descs);
    }
  }

  /** The description of one group: the name, its domain, its locale, and its voices added one by one. */
  method Describe<L(==,!new), V>(dl: DomainLocale<L, V>, localeText: L -> JString) returns (desc: ModeDesc<L, V>)
    ensures desc == Descriptor(dl.GetKey(), dl.voices, localeText)
  {
    desc := ModeDesc(EngineName(dl.GetKey(), localeText), dl.domain, dl.locale, []);
    var voices := dl.GetVoices();
    var i := 0;
    while i < voices.Length
      invariant 0 <= i <= voices.Length
      invariant desc == ModeDesc(EngineName(dl.GetKey(), localeText), dl.domain, dl.locale, voices[..i])
    {
      desc := desc.(voices := desc.voices + [voices[i]]);
      assert voices[..i + 1] == voices[..i] + [voices[i]];
      i := i + 1;
    }
    assert voices[..i] == voices[..];
  }

  /** A group holds the voices that have its key, and every voice that has it. */
  lemma {:induction false} VoicesWithIsFilter<L, V>(vs: seq<V>, k: Key<L>, domainOf: V -> JString, localeOf: V -> L)
    ensures forall x :: x in VoicesWith(vs, k, domainOf, localeOf) ==> KeyOf(x, domainOf, localeOf) == k
    ensures forall i :: 0 <= i < |vs| && KeyOf(vs[i], domainOf, localeOf) == k ==> vs[i] in VoicesWith(vs, k, domainOf, localeOf)
  {
    if vs != [] {
      var init := vs[..|vs| - 1];
      VoicesWithIsFilter(init, k, domainOf, localeOf);
      forall i | 0 <= i < |vs| - 1
        ensures vs[i] == init[i]
      {
      }
    }
  }

  /** The number of voices in the groups with keys `ks`. */
  function GroupSizes<L(==), V>(vs: seq<V>, ks: seq<Key<L>>, domainOf: V -> JString, localeOf: V -> L): nat {
    if ks == [] then 0
    else GroupSizes(vs, ks[..|ks| - 1], domainOf, localeOf) + |VoicesWith(vs, ks[|ks| - 1], domainOf, localeOf)|
  }

  /** One more voice adds one to the group of its key, if that key is among `ks`. */
  lemma {:induction false} GroupSizesSnoc<L(!new), V>(vs: seq<V>, v: V, ks: seq<Key<L>>, domainOf: V -> JString, localeOf: V -> L)
    requires NoDup(ks)
    ensures GroupSizes(vs + [v], ks, domainOf, localeOf)
         == GroupSizes(vs, ks, domainOf, localeOf) + if KeyOf(v, domainOf, localeOf) in ks then 1 else 0
  {
    if ks != [] {
      var init := ks[..|ks| - 1];
      var last := ks[|ks| - 1];
      assert NoDup(init) by {
        forall a, b | 0 <= a < b < |init|
          ensures init[a] != init[b]
        {
          assert init[a] == ks[a] && init[b] == ks[b];
        }
      }
      assert last !in init by {
        forall a | 0 <= a < |init|
          ensures init[a] != last
        {
          assert init[a] == ks[a];
        }
      }
      assert ks == init + [last];
      GroupSizesSnoc(vs, v, init, domainOf, localeOf);
      VoicesWithSnoc(vs, v, last, domainOf, localeOf);
    }
  }

  /**
   * Every voice lands in exactly one group: the groups together hold as
   * many voices as there are.
   */
  lemma {:induction false} GroupsCoverVoices<L(!new), V>(vs: seq<V>, domainOf: V -> JString, localeOf: V -> L)
    ensures GroupSizes(vs, AddEach([], KeysOf(vs, domainOf, localeOf)), domainOf, localeOf) == |vs|
  {
    if vs != [] {
      var init := vs[..|vs| - 1];
      var v := vs[|vs| - 1];
      var k := KeyOf(v, domainOf, localeOf);
      var ks := AddEach([], KeysOf(init, domainOf, localeOf));
      assert vs == init + [v];
      GroupsCoverVoices(init, domainOf, localeOf);
      KeysOfSnoc(init, v, domainOf, localeOf);
      AddEachSnoc([], KeysOf(init, domainOf, localeOf), k);
      AddEachNoDup([], KeysOf(init, domainOf, localeOf));
      GroupSizesSnoc(init, v, ks, domainOf, localeOf);
      if k !in ks {
        VoicesWithAbsent(init, k, domainOf, localeOf);
        VoicesWithSnoc(init, v, k, domainOf, localeOf);
        assert (ks + [k])[..|ks|] == ks;
      }
    }
  }

  /**
   * In a grouping every voice is in the group of its key, and no other
   * group has that key.
   */
  lemma VoiceInOneGroup<L(!new), V>(groups: seq<DomainLocale<L, V>>, vs: seq<V>, domainOf: V -> JString, localeOf: V -> L,
                                    i: nat)
    requires Grouped(groups, vs, domainOf, localeOf) && i < |vs|
    ensures exists j :: 0 <= j < |groups| && groups[j].GetKey() == KeyOf(vs[i], domainOf, localeOf)
                       && vs[i] in groups[j].voices
                       && forall m :: 0 <= m < |groups| && m != j ==> groups[m].GetKey() != groups[j].GetKey()
  {
    var k := KeyOf(vs[i], domainOf, localeOf);
    var ks := GroupKeys(groups);
    KeyAmongKeys(vs, domainOf, localeOf, i);
    assert k in ks;
    var j :| 0 <= j < |ks| && ks[j] == k;
    assert groups[j].GetKey() == k;
    VoicesWithIsFilter(vs, k, domainOf, localeOf);
    assert vs[i] in groups[j].voices;
    forall m | 0 <= m < |groups| && m != j
      ensures groups[m].GetKey() != groups[j].GetKey()
    {
      if m < j {
        GroupsDistinct(groups, KeysOf(vs, domainOf, localeOf), m, j);
      } else {
        GroupsDistinct(groups, KeysOf(vs, domainOf, localeOf), j, m);
      }
    }
  }

  /** The key of every voice is among the keys of the voices. */
  lemma {:induction false} KeyAmongKeys<L(!new), V>(vs: seq<V>, domainOf: V -> JString, localeOf: V -> L, i: nat)
    requires i < |vs|
    ensures KeyOf(vs[i], domainOf, localeOf) in KeysOf(vs, domainOf, localeOf)
    ensures KeyOf(vs[i], domainOf, localeOf) in AddEach([], KeysOf(vs, domainOf, localeOf))
  {
    var init := vs[..|vs| - 1];
    if i < |vs| - 1 {
      KeyAmongKeys(init, domainOf, localeOf, i);
      assert init[i] == vs[i];
    }
  }

  /**
   * Each description in the list is made for one of the keys: its engine
   * name is "FreeTTS <locale> <domain> synthesizer", its mode name the
   * domain, its voices the group's, and it was kept.
   */
  lemma {:induction false} DescriptionsShape<L, V, R>(ks: seq<Key<L>>, voices: seq<V>, domainOf: V -> JString, localeOf: V -> L,
                                                      localeText: L -> JString, require: Option<R>,
                                                      matches: (ModeDesc<L, V>, R) -> bool, valid: ModeDesc<L, V> -> bool)
    ensures var ds := Descriptions(ks, voices, domainOf, localeOf, localeText, require, matches, valid);
      forall d :: d in ds ==>
        && Key(d.modeName, d.locale) in ks
        && d.engineName == FREETTS + localeText(d.locale) + [SPACE] + d.modeName + SYNTHESIZER
        && d.voices == VoicesWith(voices, Key(d.modeName, d.locale), domainOf, localeOf)
        && Kept(d, require, matches, valid)
  {
    if ks != [] {
      var init := ks[..|ks| - 1];
      DescriptionsShape(init, voices, domainOf, localeOf, localeText, require, matches, valid);
      assert ks == init + [ks[|ks| - 1]];
    }
  }

  /** The list is null exactly when no group's description is kept. */
  lemma {:induction false} DescriptionsEmpty<L, V, R>(ks: seq<Key<L>>, voices: seq<V>, domainOf: V -> JString, localeOf: V -> L,
                                                      localeText: L -> JString, require: Option<R>,
                                                      matches: (ModeDesc<L, V>, R) -> bool, valid: ModeDesc<L, V> -> bool)
    ensures Descriptions(ks, voices, domainOf, localeOf, localeText, require, matches, valid) == [] ==>
      forall k :: k in ks ==> !Kept(Descriptor(k, VoicesWith(voices, k, domainOf, localeOf), localeText), require, matches, valid)
    ensures (forall k :: k in ks ==> !Kept(Descriptor(k, VoicesWith(voices, k, domainOf, localeOf), localeText), require, matches, valid))
      ==> Descriptions(ks, voices, domainOf, localeOf, localeText, require, matches, valid) == []
  {
    if ks != [] {
      var init := ks[..|ks| - 1];
      var last := ks[|ks| - 1];
      DescriptionsEmpty(init, voices, domainOf, localeOf, localeText, require, matches, valid);
      assert ks == init + [last];
      var d := Descriptor(last, VoicesWith(voices, last, domainOf, localeOf), localeText);
      var prev := Descriptions(init, voices, domainOf, localeOf, localeText, require, matches, valid);
      assert Descriptions(ks, voices, domainOf, localeOf, localeText, require, matches, valid)
          == prev + if Kept(d, require, matches, valid) then [d] else [];
      forall k | k in ks
        ensures k in init || k == last
      {
        var a :| 0 <= a < |ks| && ks[a] == k;
        if a < |init| {
          assert init[a] == k;
        }
      }
    }
  }

  /** No two descriptions share a (domain, locale) when the keys are distinct. */
  lemma {:induction false} DescriptionsDistinct<L(!new), V, R>(ks: seq<Key<L>>, voices: seq<V>, domainOf: V -> JString,
                                                               localeOf: V -> L, localeText: L -> JString, require: Option<R>,
                                                               matches: (ModeDesc<L, V>, R) -> bool, valid: ModeDesc<L, V> -> bool)
    requires NoDup(ks)
    ensures var ds := Descriptions(ks, voices, domainOf, localeOf, localeText, require, matches, valid);
      forall a, b :: 0 <= a < b < |ds| ==> Key(ds[a].modeName, ds[a].locale) != Key(ds[b].modeName, ds[b].locale)
  {
    if ks != [] {
      var init := ks[..|ks| - 1];
      var last := ks[|ks| - 1];
      assert NoDup(init) by {
        forall a, b | 0 <= a < b < |init|
          ensures init[a] != init[b]
        {
          assert init[a] == ks[a] && init[b] == ks[b];
        }
      }
      assert last !in init by {
        forall a | 0 <= a < |init|
          ensures init[a] != last
        {
          assert init[a] == ks[a];
        }
      }
      DescriptionsDistinct(init, voices, domainOf, localeOf, localeText, require, matches, valid);
      DescriptionsShape(init, voices, domainOf, localeOf, localeText, require, matches, valid);
      var prev := Descriptions(init, voices, domainOf, localeOf, localeText, require, matches, valid);
      var ds := Descriptions(ks, voices, domainOf, localeOf, localeText, require, matches, valid);
      forall a, b | 0 <= a < b < |ds|
        ensures Key(ds[a].modeName, ds[a].locale) != Key(ds[b].modeName, ds[b].locale)
      {
        if b >= |prev| {
          assert ds[a] == prev[a] && ds[a] in prev;
          assert Key(ds[b].modeName, ds[b].locale) == last;
        } else {
          assert ds[a] == prev[a] && ds[b] == prev[b];
        }
      }
    }
  }

  /** A key is among the keys of the voices exactly when some voice has it. */
  lemma {:induction false} KeysOfMembers<L, V>(vs: seq<V>, domainOf: V -> JString, localeOf: V -> L, k: Key<L>)
    ensures k in KeysOf(vs, domainOf, localeOf) <==> exists i :: 0 <= i < |vs| && KeyOf(vs[i], domainOf, localeOf) == k
  {
    if vs != [] {
      var init := vs[..|vs| - 1];
      KeysOfMembers(init, domainOf, localeOf, k);
      assert forall i :: 0 <= i < |init| ==> init[i] == vs[i];
      if exists i :: 0 <= i < |vs| && KeyOf(vs[i], domainOf, localeOf) == k {
        var i :| 0 <= i < |vs| && KeyOf(vs[i], domainOf, localeOf) == k;
        if i < |init| {
          assert KeyOf(init[i], domainOf, localeOf) == k;
        }
      }
    }
  }

  /**
   * `createEngineList`: null exactly when no group's description is kept;
   * otherwise one description per kept group, each for a (domain, locale)
   * some voice has, named after it, holding exactly the voices with that
   * domain and locale, and no two for the same (domain, locale).
   */
  lemma EngineListProperties<L(!new), V, R>(voices: seq<V>, domainOf: V -> JString, localeOf: V -> L,
                                            localeText: L -> JString, require: Option<R>,
                                            matches: (ModeDesc<L, V>, R) -> bool, valid: ModeDesc<L, V> -> bool)
    ensures var el := EngineList(voices, domainOf, localeOf, localeText, require, matches, valid);
      el.None? <==> forall i :: 0 <= i < |voices| ==>
        var k := KeyOf(voices[i], domainOf, localeOf);
        !Kept(Descriptor(k, VoicesWith(voices, k, domainOf, localeOf), localeText), require, matches, valid)
    ensures var el := EngineList(voices, domainOf, localeOf, localeText, require, matches, valid);
      el.Some? ==> forall d :: d in el.value ==>
        && (exists i :: 0 <= i < |voices| && KeyOf(voices[i], domainOf, localeOf) == Key(d.modeName, d.locale))
        && d.engineName == FREETTS + localeText(d.locale) + [SPACE] + d.modeName + SYNTHESIZER
        && d.voices == VoicesWith(voices, Key(d.modeName, d.locale), domainOf, localeOf)
        && Kept(d, require, matches, valid)
    ensures var el := EngineList(voices, domainOf, localeOf, localeText, require, matches, valid);
      el.Some? ==> forall a, b :: 0 <= a < b < |el.value| ==>
        Key(el.value[a].modeName, el.value[a].locale) != Key(el.value[b].modeName, el.value[b].locale)
  {
    var ks := AddEach([], KeysOf(voices, domainOf, localeOf));
    AddEachNoDup([], KeysOf(voices, domainOf, localeOf));
    DescriptionsShape(ks, voices, domainOf, localeOf, localeText, require, matches, valid);
    DescriptionsEmpty(ks, voices, domainOf, localeOf, localeText, require, matches, valid);
    DescriptionsDistinct(ks, voices, domainOf, localeOf, localeText, require, matches, valid);
    forall k
      ensures k in ks <==> exists i :: 0 <= i < |voices| && KeyOf(voices[i], domainOf, localeOf) == k
    {
      KeysOfMembers(voices, domainOf, localeOf, k);
    }
  }
}

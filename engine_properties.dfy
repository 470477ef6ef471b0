/**
 * BaseEngineProperties: the list of property-change listeners of an
 * engine, and how a property change is handed to them.
 */
module EngineProperties {
  import opened Wrappers
  import opened JavaLang
  import opened VoiceRegistry

  /** `Collection.remove(x)`: the first occurrence of `x` taken out, if there is one. */
  function RemoveFirst<T(==)>(xs: seq<T>, x: T): seq<T> {
    if xs == [] then []
    else if xs[0] == x then xs[1..]
    else [xs[0]] + RemoveFirst(xs[1..], x)
  }

  /** Removing an element that is not there changes nothing. */
  lemma {:induction false} RemoveFirstAbsent<T>(xs: seq<T>, x: T)
    requires x !in xs
    ensures RemoveFirst(xs, x) == xs
  {
    if xs != [] {
      assert xs[0] != x;
      assert x !in xs[1..];
      RemoveFirstAbsent(xs[1..], x);
      assert xs == [xs[0]] + xs[1..];
    }
  }

  /** Removing takes out the first occurrence, at `i`. */
  lemma {:induction false} RemoveFirstAt<T>(xs: seq<T>, x: T, i: nat)
    requires i < |xs| && xs[i] == x && forall k :: 0 <= k < i ==> xs[k] != x
    ensures RemoveFirst(xs, x) == xs[..i] + xs[i + 1..]
  {
    if i > 0 {
      var tail := xs[1..];
      assert forall k :: 0 <= k < i - 1 ==> tail[k] == xs[k + 1];
      RemoveFirstAt(tail, x, i - 1);
      assert xs[..i] == [xs[0]] + tail[..i - 1];
      assert xs[i + 1..] == tail[i..];
    }
  }

  /**
   * Removing from a list without repeats takes out exactly that element,
   * keeps the others in order, and keeps the list free of repeats.
   */
  lemma RemoveFirstFromUnique<T(!new)>(xs: seq<T>, x: T)
    requires NoDup(xs)
    ensures x !in xs ==> RemoveFirst(xs, x) == xs
    ensures x in xs ==> exists i :: 0 <= i < |xs| && xs[i] == x && RemoveFirst(xs, x) == xs[..i] + xs[i + 1..]
    ensures forall y :: y in RemoveFirst(xs, x) <==> y in xs && y != x
    ensures NoDup(RemoveFirst(xs, x))
  {
    if x !in xs {
      RemoveFirstAbsent(xs, x);
    } else {
      var i :| 0 <= i < |xs| && xs[i] == x;
      RemoveFirstAt(xs, x, i);
      var r := xs[..i] + xs[i + 1..];
      forall y | y in r
        ensures y in xs && y != x
      {
        var k :| 0 <= k < |r| && r[k] == y;
        SkipIndex(xs, i, k);
      }
      forall y | y in xs && y != x
        ensures y in r
      {
        var m :| 0 <= m < |xs| && xs[m] == y;
        var k := if m < i then m else m - 1;
        SkipIndex(xs, i, k);
      }
      forall a, b | 0 <= a < b < |r|
        ensures r[a] != r[b]
      {
        SkipIndex(xs, i, a);
        SkipIndex(xs, i, b);
      }
    }
  }

  /** The elements of a list with index `i` taken out. */
  lemma SkipIndex<T>(xs: seq<T>, i: nat, k: nat)
    requires i < |xs| && k < |xs| - 1
    ensures (xs[..i] + xs[i + 1..])[k] == xs[if k < i then k else k + 1]
  {
    if k < i {
      assert (xs[..i] + xs[i + 1..])[k] == xs[..i][k];
    } else {
      assert (xs[..i] + xs[i + 1..])[k] == xs[i + 1..][k - i];
    }
  }

  /** The object a speech event carries: a property change or something else. */
  datatype EventObject<E> = PropertyChange(change: E) | OtherObject

  /** A speech event: the wrapper of an event object, or another kind of event. */
  datatype SpeechEvent<E> = SpeechEventWrapper(eventObject: EventObject<E>) | OtherSpeechEvent

  const TYPE_ERROR: JString := Lit("BaseEngineProperties: speech event type error")

  /**
   * The listeners of an engine's properties, in registration order;
   * `L` is the listener type and `E` the type of property-change events.
   */
  class BaseEngineProperties<L(==,!new), E> {
    var propertyChangeListeners: seq<L>

    /** No listener is registered twice. */
    ghost predicate Valid()
      reads this
    {
      NoDup(propertyChangeListeners)
    }

    constructor ()
      ensures Valid() && propertyChangeListeners == []
    {
      propertyChangeListeners := [];
    }

    /** `addPropertyChangeListener`: appended unless already registered. */
    method AddPropertyChangeListener(listener: L)
      requires Valid()
      modifies this
      ensures Valid()
      ensures propertyChangeListeners == AddOne(old(propertyChangeListeners), listener)
    {
      if listener !in propertyChangeListeners {
        propertyChangeListeners := propertyChangeListeners + [listener];
      }
      AddEachNoDup(old(propertyChangeListeners), [listener]);
      assert [listener][..0] == [];
    }

    /** `removePropertyChangeListener`: taken out if registered; otherwise nothing changes. */
    method RemovePropertyChangeListener(listener: L)
      requires Valid()
      modifies this
      ensures Valid()
      ensures propertyChangeListeners == RemoveFirst(old(propertyChangeListeners), listener)
    {
      RemoveFirstFromUnique(propertyChangeListeners, listener);
      propertyChangeListeners := RemoveFirst(propertyChangeListeners, listener);
    }

    /**
     * `firePropertyChangeEvent`: the event goes once to every registered
     * listener, in registration order. The deliveries are returned in the
     * order they are made.
     */
    method FirePropertyChangeEvent(event: E) returns (delivered: seq<(L, E)>)
      ensures |delivered| == |propertyChangeListeners|
      ensures forall i :: 0 <= i < |delivered| ==> delivered[i] == (propertyChangeListeners[i], event)
    {
      delivered := [];
      var i := 0;
      while i < |propertyChangeListeners|
        invariant 0 <= i <= |propertyChangeListeners| && |delivered| == i
        invariant forall k :: 0 <= k < i ==> delivered[k] == (propertyChangeListeners[k], event)
      {
        delivered := delivered + [(propertyChangeListeners[i], event)];
        i := i + 1;
      }
    }

    /**
     * `dispatchSpeechEvent`: a wrapped property change is fired; a wrapper
     * of anything else fails the cast, and any other event is an error.
     */
    method DispatchSpeechEvent(event: SpeechEvent<E>) returns (r: Result<seq<(L, E)>, JavaError>)
      ensures event.OtherSpeechEvent? ==> r == Err(Fatal(TYPE_ERROR))
      ensures event.SpeechEventWrapper? && event.eventObject.OtherObject? ==> r == Err(ClassCast)
      ensures event.SpeechEventWrapper? && event.eventObject.PropertyChange? ==>
        && r.Ok? && |r.value| == |propertyChangeListeners|
        && forall i :: 0 <= i < |r.value| ==> r.value[i] == (propertyChangeListeners[i], event.eventObject.change)
    {
      if event.SpeechEventWrapper? {
        if event.eventObject.OtherObject? {
          return Err(ClassCast);
        }
        var delivered := FirePropertyChangeEvent(event.eventObject.change);
        r := Ok(delivered);
      } else {
        r := Err(Fatal(TYPE_ERROR));
      }
    }
  }
}

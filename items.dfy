/**
 * The part of an utterance the segment processors touch: the items of a
 * relation, each with its own feature set. The linked item list of a
 * relation (its head and each item's `getNext`) is the sequence of its
 * items, head first.
 */
module Items {
  import opened Features

  class Item {
    const features: FeatureSet

    constructor (features: FeatureSet)
      ensures this.features == features
    {
      this.features := features;
    }
  }

  /** The items of one relation own distinct feature sets. */
  ghost predicate Separate(items: seq<Item>) {
    forall i, j :: 0 <= i < j < |items| ==> items[i].features != items[j].features
  }

  /** The feature sets of `items`. */
  function FeatureSets(items: seq<Item>): set<FeatureSet> {
    set k | 0 <= k < |items| :: items[k].features
  }

  /** The feature maps of `items`, in order. */
  function FeatureMaps(items: seq<Item>): (r: seq<LinkedMap>)
    reads FeatureSets(items)
    ensures |r| == |items|
    ensures forall k :: 0 <= k < |items| ==> r[k] == items[k].features.featureMap
  {
    if items == [] then []
    else
      assert FeatureSets(items[..|items| - 1]) <= FeatureSets(items);
      FeatureMaps(items[..|items| - 1]) + [items[|items| - 1].features.featureMap]
  }
}

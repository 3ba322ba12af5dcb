/** GeoJSON feature collections and the case-insensitive name filter both
    dashboard servers apply to them. */
module GeoJson {
  import opened Wrappers
  import opened Text
  import opened Seqs

  /** A GeoJSON feature: its string-valued properties, and its geometry, which
      the handlers copy without looking at it. */
  datatype Feature = Feature(properties: map<string, string>, geometry: string)

  /** A feature collection: its features and its other top-level members
      (`type`, `name`, `crs`, …). */
  datatype FeatureCollection = FeatureCollection(features: seq<Feature>, members: map<string, string>)

  /** Every feature carries the property `key`. */
  predicate AllHave(features: seq<Feature>, key: string) {
    forall i :: 0 <= i < |features| ==> key in features[i].properties
  }

  /** `feature.properties[key].toLowerCase() === name.toLowerCase()`. */
  predicate MatchesName(f: Feature, key: string, name: string) {
    key in f.properties && SameIgnoringCase(f.properties[key], name)
  }

  /** `features.filter(f => f.properties[key].toLowerCase() === name.toLowerCase())`.
      The filter reads the property of every feature, so one feature without
      it raises a TypeError: that is `None`. */
  function FilterByName(features: seq<Feature>, key: string, name: string): (r: Option<seq<Feature>>)
    ensures r.Some? <==> AllHave(features, key)
    ensures r.Some? ==> IsSubsequence(r.value, features)
    ensures r.Some? ==> forall f :: f in r.value <==> f in features && MatchesName(f, key, name)
    ensures r.Some? ==> forall f :: multiset(r.value)[f] == if MatchesName(f, key, name) then multiset(features)[f] else 0
    ensures r.Some? ==> (r.value == [] <==> forall i :: 0 <= i < |features| ==> !MatchesName(features[i], key, name))
  {
    if !AllHave(features, key) then None
    else
      var p := (f: Feature) => MatchesName(f, key, name);
      var kept := Filter(features, p);
      FilterIsSubsequence(features, p);
      FilterEmpty(features, p);
      assert forall f :: f in kept <==> f in features && MatchesName(f, key, name) by {
        forall f ensures f in kept <==> f in features && MatchesName(f, key, name) {
          FilterMembership(features, p, f);
        }
      }
      assert forall f :: multiset(kept)[f] == if MatchesName(f, key, name) then multiset(features)[f] else 0 by {
        forall f ensures multiset(kept)[f] == if MatchesName(f, key, name) then multiset(features)[f] else 0 {
          FilterKeepsExactly(features, p, f);
        }
      }
      Some(kept)
  }

  /** `{...collection, features: kept}`: the same collection with its features
      replaced. */
  function WithFeatures(collection: FeatureCollection, kept: seq<Feature>): (r: FeatureCollection)
    ensures r.members == collection.members && r.features == kept
  {
    collection.(features := kept)
  }
}

/** server.js: the CORS origin check and the two per-region endpoints, which
    read a GeoJSON file on each request and filter it by name. */
module GeoServer {
  import opened Wrappers
  import opened Text
  import opened Seqs
  import opened GeoJson

  /** The origins the browser may call from. */
  const AllowedOrigins: seq<string> := ["https://yuvasaathi-frontend.vercel.app", "http://localhost:3000"]

  /** The `origin` callback of the CORS options: a request without an origin
      header (or with an empty one) is let through, as is one from a listed
      origin; any other is refused. */
  function CorsAllows(origin: Option<string>): (allowed: bool)
    ensures allowed <==> origin.None? || origin.value == "" || origin.value in AllowedOrigins
  {
    var listed := origin.Some? && IndexOf(AllowedOrigins, origin.value) != -1;
    var falsy := origin.None? || origin.value == "";
    listed || falsy
  }

  datatype RegionReply =
    | MapOnly(mapGeojson: FeatureCollection)  // 200 `{ map_geojson }`
    | NothingFound                            // 404 "No blocks/villages found for this …"
    | DataUnavailable                         // 500 "… map data not available."
  {
    function Status(): int {
      match this
      case MapOnly(_) => 200
      case NothingFound => 404
      case DataUnavailable => 500
    }
  }

  /** The shared body of `/api/district-data/:district_name` and
      `/api/mandal-data/:mandal_name`. `data` is the parsed file (absent when
      reading or parsing throws); `key` is the property matched. */
  function RegionFeatures(data: Option<FeatureCollection>, key: string, name: string): (r: RegionReply)
    ensures r == DataUnavailable <==> data.None? || !AllHave(data.value.features, key)
    ensures r == NothingFound <==>
      && data.Some? && AllHave(data.value.features, key)
      && forall i :: 0 <= i < |data.value.features| ==> !MatchesName(data.value.features[i], key, name)
    ensures r.MapOnly? ==>
      && data.Some?
      && r.mapGeojson.members == data.value.members
      && r.mapGeojson.features != []
      && IsSubsequence(r.mapGeojson.features, data.value.features)
      && (forall f :: f in r.mapGeojson.features <==> f in data.value.features && MatchesName(f, key, name))
      && forall f :: multiset(r.mapGeojson.features)[f] ==
           if MatchesName(f, key, name) then multiset(data.value.features)[f] else 0
  {
    if data.None? then DataUnavailable
    else match FilterByName(data.value.features, key, Lower(name))
      case None => DataUnavailable
      case Some(kept) =>
        MatchLoweredNeedle(data.value.features, key, name);
        if |kept| == 0 then NothingFound else MapOnly(WithFeatures(data.value, kept))
  }

  /** Lower-casing the request parameter first (as the handlers do) does not
      change which features match. */
  lemma MatchLoweredNeedle(features: seq<Feature>, key: string, name: string)
    ensures forall f :: MatchesName(f, key, Lower(name)) <==> MatchesName(f, key, name)
  {
    LowerIdempotent(name);
  }

  /** `/api/district-data/:district_name` in server.js. */
  function DistrictBlocks(blocks: Option<FeatureCollection>, districtName: string): RegionReply {
    RegionFeatures(blocks, "district_name", districtName)
  }

  /** `/api/mandal-data/:mandal_name` in server.js. */
  function MandalVillages(villages: Option<FeatureCollection>, mandalName: string): RegionReply {
    RegionFeatures(villages, "mandal_name", mandalName)
  }
}

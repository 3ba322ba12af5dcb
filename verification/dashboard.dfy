/** app.js: the dashboard server. The skills CSV is parsed once at start-up;
    the map endpoint enriches every district with its skills row, and the two
    drill-down endpoints answer one region's chart figures together with the
    boundaries inside it. */
module Dashboard {
  import opened Wrappers
  import opened Text
  import opened Seqs
  import opened GeoJson

  // ---------------------------------------------------------------------------
  // The skills CSV

  datatype SkillDevelopment = SkillDevelopment(completed: int, inProgress: int, pending: int)

  /** One CSV line. A name is `None` when the line has too few fields
      (destructuring yields `undefined`); a figure is `None` when `parseInt`
      gives `NaN`. */
  datatype SkillRow = SkillRow(
    districtName: Option<string>,
    mandalName: Option<string>,
    itJobs: Option<int>,
    nonItJobs: Option<int>,
    testResults: Option<int>,
    skillDevelopment: SkillDevelopment)

  /** The `i`-th element of a destructured array, `undefined` past its end. */
  function Field(fields: seq<string>, i: nat): Option<string> {
    if i < |fields| then Some(fields[i]) else None
  }

  /** `parseInt(field)`; `parseInt(undefined)` is `NaN`. */
  function Number(parse: string -> Option<int>, field: Option<string>): Option<int> {
    if field.None? then None else parse(field.value)
  }

  /** The `line => { … }` callback of the CSV parser. `parse` stands for
      `parseInt`; `parseInt(x) || 0` turns `NaN` (and `0`) into `0`. */
  function ParseRow(line: string, parse: string -> Option<int>): (row: SkillRow)
    ensures row.districtName.Some?
    ensures row.mandalName.Some? <==> ',' in line
  {
    var fields := Split(line, ',');
    SplitCount(line, ',');
    OccurrencesPositive(line, ',');
    SkillRow(
      Field(fields, 0),
      Field(fields, 1),
      Number(parse, Field(fields, 2)),
      Number(parse, Field(fields, 3)),
      Number(parse, Field(fields, 4)),
      SkillDevelopment(
        Number(parse, Field(fields, 5)).GetOr(0),
        Number(parse, Field(fields, 6)).GetOr(0),
        Number(parse, Field(fields, 7)).GetOr(0)))
  }

  /** `skillsCsv.split('\n').slice(1).map(…)`: one row per line after the
      header, so as many rows as the text has line breaks. */
  function ParseSkills(csv: string, parse: string -> Option<int>): (rows: seq<SkillRow>)
    ensures |rows| == Occurrences(csv, '\n')
    ensures forall i :: 0 <= i < |rows| ==> rows[i].districtName.Some?
  {
    var lines := Split(csv, '\n')[1..];
    SplitCount(csv, '\n');
    seq(|lines|, i requires 0 <= i < |lines| => ParseRow(lines[i], parse))
  }

  /** A line written from comma-free fields parses back into those fields:
      names verbatim, figures through `parseInt`, `undefined` past the last
      field, and the three skill-development counts defaulting to 0. With
      eight or more fields every column is defined; with five or fewer the
      skill-development counts are all 0. */
  lemma ParseRowOfFields(fields: seq<string>, parse: string -> Option<int>)
    requires |fields| >= 1
    requires forall k :: 0 <= k < |fields| ==> ',' !in fields[k]
    ensures ParseRow(Join(fields, ','), parse) == SkillRow(
      Field(fields, 0), Field(fields, 1),
      Number(parse, Field(fields, 2)), Number(parse, Field(fields, 3)), Number(parse, Field(fields, 4)),
      SkillDevelopment(Number(parse, Field(fields, 5)).GetOr(0), Number(parse, Field(fields, 6)).GetOr(0),
                       Number(parse, Field(fields, 7)).GetOr(0)))
    ensures |fields| >= 8 ==> ParseRow(Join(fields, ','), parse) == SkillRow(
      Some(fields[0]), Some(fields[1]), parse(fields[2]), parse(fields[3]), parse(fields[4]),
      SkillDevelopment(parse(fields[5]).GetOr(0), parse(fields[6]).GetOr(0), parse(fields[7]).GetOr(0)))
    ensures |fields| <= 5 ==> ParseRow(Join(fields, ','), parse).skillDevelopment == SkillDevelopment(0, 0, 0)
    ensures ParseRow(Join(fields, ','), parse).mandalName.Some? <==> |fields| >= 2
  {
    SplitJoin(fields, ',');
  }

  /** A line without a comma is a district name alone: everything else is
      `undefined`/`NaN`, and the skill-development counts are 0. */
  lemma ParseRowWithoutComma(line: string, parse: string -> Option<int>)
    requires ',' !in line
    ensures ParseRow(line, parse) == SkillRow(Some(line), None, None, None, None, SkillDevelopment(0, 0, 0))
  {
    SplitWithoutSeparator(line, ',');
  }

  /** A CSV text written as a header followed by lines parses into one row
      per line, in order. */
  lemma ParseSkillsOfLines(header: string, lines: seq<string>, parse: string -> Option<int>)
    requires '\n' !in header
    requires forall k :: 0 <= k < |lines| ==> '\n' !in lines[k]
    ensures |ParseSkills(Join([header] + lines, '\n'), parse)| == |lines|
    ensures forall i :: 0 <= i < |lines| ==> ParseSkills(Join([header] + lines, '\n'), parse)[i] == ParseRow(lines[i], parse)
  {
    var all := [header] + lines;
    SplitJoin(all, '\n');
    assert all[1..] == lines;
  }

  // ---------------------------------------------------------------------------
  // `skillsData.find(item => item[key].toLowerCase() === name.toLowerCase())`

  datatype Key = DistrictKey | MandalKey

  function KeyOf(row: SkillRow, key: Key): Option<string> {
    match key
    case DistrictKey => row.districtName
    case MandalKey => row.mandalName
  }

  /** The callback is true for `row`. */
  predicate RowMatches(row: SkillRow, key: Key, needle: string) {
    KeyOf(row, key).Some? && SameIgnoringCase(KeyOf(row, key).value, needle)
  }

  /** The callback returns false for `row` without raising: both sides are
      defined and differ ignoring case. */
  predicate PassedOver(row: SkillRow, key: Key, needle: Option<string>) {
    KeyOf(row, key).Some? && needle.Some? && !SameIgnoringCase(KeyOf(row, key).value, needle.value)
  }

  /** Where `find` stops: at the first row the callback accepts, at the end of
      the rows (`undefined`), or at the first row where `.toLowerCase()` is
      called on `undefined`. */
  datatype Search = Hit(index: nat) | Miss | Crash(at: nat)

  function FindFrom(rows: seq<SkillRow>, key: Key, needle: Option<string>, start: nat): (r: Search)
    requires start <= |rows|
    ensures r.Hit? ==>
      && start <= r.index < |rows| && needle.Some? && RowMatches(rows[r.index], key, needle.value)
      && forall j :: start <= j < r.index ==> PassedOver(rows[j], key, needle)
    ensures r.Crash? ==>
      && start <= r.at < |rows| && (KeyOf(rows[r.at], key).None? || needle.None?)
      && forall j :: start <= j < r.at ==> PassedOver(rows[j], key, needle)
    ensures r.Miss? <==> forall j :: start <= j < |rows| ==> PassedOver(rows[j], key, needle)
    decreases |rows| - start
  {
    if start == |rows| then Miss
    else if KeyOf(rows[start], key).None? || needle.None? then Crash(start)
    else if SameIgnoringCase(KeyOf(rows[start], key).value, needle.value) then Hit(start)
    else FindFrom(rows, key, needle, start + 1)
  }

  /** `Array.prototype.find` with the name-matching callback. */
  function FindRow(rows: seq<SkillRow>, key: Key, needle: Option<string>): (r: Search)
    ensures r.Hit? ==>
      && r.index < |rows| && needle.Some? && RowMatches(rows[r.index], key, needle.value)
      && forall j :: 0 <= j < r.index ==> PassedOver(rows[j], key, needle)
    ensures r.Crash? ==>
      && r.at < |rows| && (KeyOf(rows[r.at], key).None? || needle.None?)
      && forall j :: 0 <= j < r.at ==> PassedOver(rows[j], key, needle)
    ensures r.Miss? <==> forall j :: 0 <= j < |rows| ==> PassedOver(rows[j], key, needle)
  {
    FindFrom(rows, key, needle, 0)
  }

  /** When every row names its region and the needle is defined, `find`
      cannot raise, and it returns the first matching row if there is one. */
  lemma FindRowIsFirstMatch(rows: seq<SkillRow>, key: Key, needle: string)
    requires forall j :: 0 <= j < |rows| ==> KeyOf(rows[j], key).Some?
    ensures !FindRow(rows, key, Some(needle)).Crash?
    ensures FindRow(rows, key, Some(needle)).Miss? <==> forall j :: 0 <= j < |rows| ==> !RowMatches(rows[j], key, needle)
    ensures forall i ::
      (0 <= i < |rows| && RowMatches(rows[i], key, needle) && (forall j :: 0 <= j < i ==> !RowMatches(rows[j], key, needle)))
      ==> FindRow(rows, key, Some(needle)) == Hit(i)
  {
    var r := FindRow(rows, key, Some(needle));
    forall i | 0 <= i < |rows| && RowMatches(rows[i], key, needle) && (forall j :: 0 <= j < i ==> !RowMatches(rows[j], key, needle))
      ensures r == Hit(i)
    {
    }
  }

  /** Parsed rows always carry a district name, so looking a district up
      never raises. */
  lemma DistrictLookupNeverCrashes(csv: string, parse: string -> Option<int>, needle: string)
    ensures !FindRow(ParseSkills(csv, parse), DistrictKey, Some(needle)).Crash?
  {
    FindRowIsFirstMatch(ParseSkills(csv, parse), DistrictKey, needle);
  }

  // ---------------------------------------------------------------------------
  // `/api/district-data/:district_name` and `/api/mandal-data/:mandal_name`

  /** `{ labels, values }` of the pie chart (district) or bar graph (mandal). */
  datatype Chart = Chart(labels: seq<string>, values: seq<Option<int>>)

  const SummaryLabels: seq<string> := ["IT Jobs", "Non-IT Jobs", "Test Results"]

  function SummaryChart(row: SkillRow): Chart {
    Chart(SummaryLabels, [row.itJobs, row.nonItJobs, row.testResults])
  }

  datatype DrillDown =
    | RegionData(chart: Chart, mapGeojson: FeatureCollection)  // 200
    | RegionNotFound                                           // 404 "… not found or data missing."
    | ServerError                                              // 500: a TypeError escapes the handler
  {
    function Status(): int {
      match this
      case RegionData(_, _) => 200
      case RegionNotFound => 404
      case ServerError => 500
    }
  }

  /** The shared body of the two drill-down handlers: `find` on the skills
      rows, then `filter` on the boundary features, and only then the 404
      check on the skills row. `skills` and `regions` are absent when loading
      failed at start-up. */
  function DrillDownFor(skills: Option<seq<SkillRow>>, regions: Option<FeatureCollection>,
                        key: Key, property: string, name: string): (r: DrillDown)
    ensures r.Status() == 404 <==>
      && skills.Some? && regions.Some? && AllHave(regions.value.features, property)
      && forall j :: 0 <= j < |skills.value| ==> PassedOver(skills.value[j], key, Some(name))
    ensures r.RegionData? <==>
      skills.Some? && regions.Some? && AllHave(regions.value.features, property) && FindRow(skills.value, key, Some(name)).Hit?
    ensures r.RegionData? ==>
      exists i :: 0 <= i < |skills.value| && RowMatches(skills.value[i], key, name)
        && (forall j :: 0 <= j < i ==> PassedOver(skills.value[j], key, Some(name)))
        && r.chart == Chart(SummaryLabels, [skills.value[i].itJobs, skills.value[i].nonItJobs, skills.value[i].testResults])
    ensures r.RegionData? ==>
      && r.mapGeojson.members == regions.value.members
      && IsSubsequence(r.mapGeojson.features, regions.value.features)
      && (forall f :: f in r.mapGeojson.features <==> f in regions.value.features && MatchesName(f, property, name))
      && forall f :: multiset(r.mapGeojson.features)[f] ==
           if MatchesName(f, property, name) then multiset(regions.value.features)[f] else 0
  {
    if skills.None? then ServerError
    else
      var found := FindRow(skills.value, key, Some(name));
      if found.Crash? || regions.None? then ServerError
      else match FilterByName(regions.value.features, property, name)
        case None => ServerError
        case Some(kept) =>
          if found.Miss? then RegionNotFound
          else
            assert found.Hit?;
            RegionData(SummaryChart(skills.value[found.index]), WithFeatures(regions.value, kept))
  }

  /** `/api/district-data/:district_name` in app.js. */
  function DistrictData(skills: Option<seq<SkillRow>>, blocks: Option<FeatureCollection>, districtName: string): DrillDown {
    DrillDownFor(skills, blocks, DistrictKey, "district_name", districtName)
  }

  /** `/api/mandal-data/:mandal_name` in app.js. */
  function MandalData(skills: Option<seq<SkillRow>>, villages: Option<FeatureCollection>, mandalName: string): DrillDown {
    DrillDownFor(skills, villages, MandalKey, "mandal_name", mandalName)
  }

  /** A district with a skills row but no block boundaries is still answered
      with 200 and an empty `map_geojson` feature list: the 404 depends on the
      skills row alone. */
  lemma NoBoundariesStillAnswered(skills: seq<SkillRow>, blocks: FeatureCollection, districtName: string)
    requires exists i :: 0 <= i < |skills| && RowMatches(skills[i], DistrictKey, districtName)
    requires forall j :: 0 <= j < |skills| ==> skills[j].districtName.Some?
    requires AllHave(blocks.features, "district_name")
    requires forall k :: 0 <= k < |blocks.features| ==> !MatchesName(blocks.features[k], "district_name", districtName)
    ensures DistrictData(Some(skills), Some(blocks), districtName).Status() == 200
    ensures DistrictData(Some(skills), Some(blocks), districtName).mapGeojson.features == []
  {
    FindRowIsFirstMatch(skills, DistrictKey, districtName);
    var i :| 0 <= i < |skills| && RowMatches(skills[i], DistrictKey, districtName);
    assert !PassedOver(skills[i], DistrictKey, Some(districtName));
    var r := DistrictData(Some(skills), Some(blocks), districtName);
    assert forall f :: f in r.mapGeojson.features ==> MatchesName(f, "district_name", districtName);
  }

  // ---------------------------------------------------------------------------
  // `/api/bihar-map-data`

  /** An enriched figure: the row's value (`NaN` as `None`), or `'N/A'` when
      the district has no skills row. */
  datatype Figure = Reported(value: Option<int>) | NotAvailable

  /** A district feature with the skills properties the map endpoint adds to
      it. The random `displayType` is not modelled. */
  datatype DistrictView = DistrictView(
    feature: Feature,
    skillDevelopment: SkillDevelopment,
    itJobs: Figure,
    nonItJobs: Figure,
    testResults: Figure)

  /** `feature.properties.DISTRICT`. */
  function DistrictOf(feature: Feature): Option<string> {
    if "DISTRICT" in feature.properties then Some(feature.properties["DISTRICT"]) else None
  }

  /** The `features.map` callback for one district: `None` when `find` raises. */
  function Enrich(feature: Feature, rows: seq<SkillRow>): (v: Option<DistrictView>)
    ensures v.Some? ==> v.value.feature == feature
    ensures DistrictOf(feature).None? && rows != [] ==> v.None?
    ensures DistrictOf(feature).Some? && (forall j :: 0 <= j < |rows| ==> rows[j].districtName.Some?) ==> v.Some?
    ensures v.Some? && v.value.itJobs.NotAvailable? <==> forall j :: 0 <= j < |rows| ==> PassedOver(rows[j], DistrictKey, DistrictOf(feature))
    ensures v.Some? && v.value.itJobs.NotAvailable? ==>
      v.value == DistrictView(feature, SkillDevelopment(0, 0, 0), NotAvailable, NotAvailable, NotAvailable)
    ensures v.Some? && v.value.itJobs.Reported? ==>
      exists i :: 0 <= i < |rows| && DistrictOf(feature).Some? && RowMatches(rows[i], DistrictKey, DistrictOf(feature).value)
        && (forall j :: 0 <= j < i ==> PassedOver(rows[j], DistrictKey, DistrictOf(feature)))
        && v.value == DistrictView(feature, rows[i].skillDevelopment,
                                   Reported(rows[i].itJobs), Reported(rows[i].nonItJobs), Reported(rows[i].testResults))
  {
    match FindRow(rows, DistrictKey, DistrictOf(feature))
    case Crash(_) => None
    case Miss => Some(DistrictView(feature, SkillDevelopment(0, 0, 0), NotAvailable, NotAvailable, NotAvailable))
    case Hit(i) =>
      Some(DistrictView(feature, rows[i].skillDevelopment,
                        Reported(rows[i].itJobs), Reported(rows[i].nonItJobs), Reported(rows[i].testResults)))
  }

  /** `features.map(…)`: every district enriched in order, or `None` if any
      callback raises. */
  function EnrichAll(features: seq<Feature>, rows: seq<SkillRow>): (r: Option<seq<DistrictView>>)
    ensures r.Some? <==> forall i :: 0 <= i < |features| ==> Enrich(features[i], rows).Some?
    ensures r.Some? ==> |r.value| == |features| && forall i :: 0 <= i < |features| ==> Enrich(features[i], rows) == Some(r.value[i])
  {
    if |features| == 0 then Some([])
    else match Enrich(features[0], rows)
      case None => None
      case Some(v) =>
        match EnrichAll(features[1..], rows)
        case None =>
          assert exists i :: 1 <= i < |features| && Enrich(features[i], rows).None? by {
            var k :| 0 <= k < |features[1..]| && Enrich(features[1..][k], rows).None?;
            assert features[1..][k] == features[k + 1];
          }
          None
        case Some(vs) =>
          assert forall i :: 1 <= i < |features| ==> features[i] == features[1..][i - 1];
          Some([v] + vs)
  }

  datatype MapReply =
    | DistrictsMap(members: map<string, string>, views: seq<DistrictView>)  // 200 the enriched collection
    | MapUnavailable                                                       // 500 "District map data not available."
    | MapCrashed                                                           // 500: a TypeError escapes the handler
  {
    function Status(): int {
      if DistrictsMap? then 200 else 500
    }
  }

  /** `/api/bihar-map-data` in app.js. */
  function MapData(districts: Option<FeatureCollection>, skills: Option<seq<SkillRow>>): (r: MapReply)
    ensures r == MapUnavailable <==> districts.None?
    ensures r.DistrictsMap? ==>
      && r.members == districts.value.members
      && |r.views| == |districts.value.features|
      && forall i :: 0 <= i < |r.views| ==> r.views[i].feature == districts.value.features[i]
    ensures r.DistrictsMap? && districts.value.features != [] ==>
      && skills.Some?
      && forall i :: 0 <= i < |r.views| ==> Enrich(districts.value.features[i], skills.value) == Some(r.views[i])
    ensures r.DistrictsMap? <==>
      districts.Some? && (districts.value.features == [] || (skills.Some? &&
        forall i :: 0 <= i < |districts.value.features| ==> Enrich(districts.value.features[i], skills.value).Some?))
  {
    if districts.None? then MapUnavailable
    else if districts.value.features == [] then DistrictsMap(districts.value.members, [])
    else if skills.None? then MapCrashed
    else match EnrichAll(districts.value.features, skills.value)
      case None => MapCrashed
      case Some(views) => DistrictsMap(districts.value.members, views)
  }

  /** With parsed skills and every district naming itself, the map endpoint
      answers: unmatched districts get zero counts and `'N/A'` figures. */
  lemma MapDataAnswersAfterParse(districts: FeatureCollection, csv: string, parse: string -> Option<int>)
    requires forall i :: 0 <= i < |districts.features| ==> DistrictOf(districts.features[i]).Some?
    ensures MapData(Some(districts), Some(ParseSkills(csv, parse))).DistrictsMap?
  {
    var rows := ParseSkills(csv, parse);
    forall i | 0 <= i < |districts.features|
      ensures Enrich(districts.features[i], rows).Some?
    {
    }
  }
}

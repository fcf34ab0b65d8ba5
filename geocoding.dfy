/** Turning an address into coordinates: the reading of a Yandex geocoder response and the
    chain of providers tried by geocodeAddress. The two HTTP providers are parameters, each
    a function from a query to an optional coordinate (they never throw: a network or
    parse failure already resolves to null). */
module Geocoding {
  import opened Common
  import opened JsStrings
  import opened Seqs
  import opened Geo
  import opened Address

  /** A parsed JSON value. `JNull` also stands for `undefined`, which JavaScript gives for a
      missing property or index; both are falsy and neither has properties. */
  datatype Json =
    | JNull
    | JBool(b: bool)
    | JNum(n: real)
    | JStr(s: string)
    | JArr(items: seq<Json>)
    | JObj(fields: map<string, Json>)

  /** `j.name`: the property of an object, undefined for anything else. */
  function Prop(j: Json, name: string): Json {
    if j.JObj? && name in j.fields then j.fields[name] else JNull
  }

  /** JavaScript truthiness of a JSON value (JSON text holds no NaN). */
  predicate Truthy(j: Json) {
    match j
    case JNull => false
    case JBool(b) => b
    case JNum(n) => n != 0.0
    case JStr(s) => s != ""
    case _ => true
  }

  /** `parseFloat(x)` for a JSON value: a number converts to itself, a string goes through
      `parseFloat`, and everything else reads as NaN. */
  function ToFloat(j: Json, parseFloat: string -> Float): Float {
    match j
    case JNum(n) => Finite(n)
    case JStr(s) => parseFloat(s)
    case _ => NaN
  }

  /** `features[0].geometry.coordinates` when it is an array of at least two entries. */
  function FeatureCoordinates(result: Json): Option<seq<Json>> {
    var features := Prop(result, "features");
    if Truthy(result) && features.JArr? && |features.items| > 0 then
      var coordinates := Prop(Prop(features.items[0], "geometry"), "coordinates");
      if coordinates.JArr? && |coordinates.items| >= 2 then Some(coordinates.items) else None
    else None
  }

  /** `response.GeoObjectCollection.featureMember`. */
  function FeatureMembers(result: Json): Json {
    Prop(Prop(Prop(result, "response"), "GeoObjectCollection"), "featureMember")
  }

  /** The legacy `"lon lat"` string: split on single spaces, each piece trimmed; a missing
      second piece leaves the latitude NaN. */
  function CoordFromPos(pos: string, parseFloat: string -> Float): Coord {
    var pieces := Split(pos, ' ');
    var latitude := if |pieces| >= 2 then parseFloat(Trim(pieces[1])) else NaN;
    Coord(latitude, parseFloat(Trim(pieces[0])))
  }

  /** parseYandexCoordinates. The GeoJSON-style `coordinates` array is longitude first,
      as positions are in section 3.1.1 of RFC 7946; the legacy `pos` string is too.
      `Threw` is a TypeError: `featureMember[0]` is null, or `pos` is truthy but not a string. */
  function ParseYandexCoordinates(result: Json, parseFloat: string -> Float): Fetch<Coord> {
    match FeatureCoordinates(result)
    case Some(c) => Returned(Some(Coord(ToFloat(c[1], parseFloat), ToFloat(c[0], parseFloat))))
    case None =>
      var members := FeatureMembers(result);
      if members.JArr? && |members.items| > 0 then
        if members.items[0] == JNull then Threw
        else
          var pos := Prop(Prop(Prop(members.items[0], "GeoObject"), "Point"), "pos");
          if !Truthy(pos) then Returned(None)
          else if pos.JStr? then Returned(Some(CoordFromPos(pos.s, parseFloat)))
          else Threw
      else Returned(None)
  }

  /** What yandexGeocode resolves to for a parsed response: the coordinates, or null
      when parsing found none or threw. */
  function YandexResult(result: Json, parseFloat: string -> Float): Option<Coord> {
    match ParseYandexCoordinates(result, parseFloat)
    case Threw => None
    case Returned(c) => c
  }

  // ---------------------------------------------------------------- response shapes

  /** `{"features": [{"geometry": {"coordinates": [lon, lat]}}]}`. */
  function FeatureResponse(lon: Json, lat: Json): Json {
    JObj(map["features" := JArr([JObj(map["geometry" := JObj(map["coordinates" := JArr([lon, lat])])])])])
  }

  /** `{"response": {"GeoObjectCollection": {"featureMember": [{"GeoObject": {"Point": {"pos": pos}}}]}}}`. */
  function LegacyResponse(pos: string): Json {
    JObj(map["response" := JObj(map["GeoObjectCollection" := JObj(map["featureMember" :=
      JArr([JObj(map["GeoObject" := JObj(map["Point" := JObj(map["pos" := JStr(pos)])])])])])])])
  }

  /** A feature position [lon, lat] reads back with the two swapped into latitude, longitude. */
  lemma FeatureRoundTrip(lon: real, lat: real, parseFloat: string -> Float)
    ensures ParseYandexCoordinates(FeatureResponse(JNum(lon), JNum(lat)), parseFloat)
            == Returned(Some(Coord(Finite(lat), Finite(lon))))
  {
    var features := Prop(FeatureResponse(JNum(lon), JNum(lat)), "features");
    assert features.items[0] == JObj(map["geometry" := JObj(map["coordinates" := JArr([JNum(lon), JNum(lat)])])]);
  }

  /** A `"lon lat"` string of two trimmed numerals reads as latitude = the second and
      longitude = the first. */
  lemma PosRoundTrip(lonText: string, latText: string, parseFloat: string -> Float)
    requires IsTrimmed(lonText) && IsTrimmed(latText)
    requires ' ' !in lonText && ' ' !in latText
    ensures CoordFromPos(lonText + " " + latText, parseFloat) == Coord(parseFloat(latText), parseFloat(lonText))
  {
    assert lonText + " " + latText == lonText + [' '] + latText;
    SplitConcat(lonText, latText, ' ');
    SplitWithoutSeparator(lonText, ' ');
    SplitWithoutSeparator(latText, ' ');
    TrimOfTrimmed(lonText);
    TrimOfTrimmed(latText);
  }

  /** A legacy response without features reads its non-empty `pos` string. */
  lemma LegacyReadsPos(pos: string, parseFloat: string -> Float)
    requires pos != ""
    ensures ParseYandexCoordinates(LegacyResponse(pos), parseFloat) == Returned(Some(CoordFromPos(pos, parseFloat)))
  {
    var result := LegacyResponse(pos);
    assert Prop(result, "features") == JNull;
    assert FeatureCoordinates(result) == None;
    var member := JObj(map["GeoObject" := JObj(map["Point" := JObj(map["pos" := JStr(pos)])])]);
    assert FeatureMembers(result) == JArr([member]);
    assert Prop(Prop(Prop(member, "GeoObject"), "Point"), "pos") == JStr(pos);
  }

  /** A legacy response with the position `"lon lat"` reads as latitude = lat, longitude = lon. */
  lemma LegacyRoundTrip(lonText: string, latText: string, parseFloat: string -> Float)
    requires IsTrimmed(lonText) && IsTrimmed(latText)
    requires ' ' !in lonText && ' ' !in latText
    ensures ParseYandexCoordinates(LegacyResponse(lonText + " " + latText), parseFloat)
            == Returned(Some(Coord(parseFloat(latText), parseFloat(lonText))))
  {
    var pos := lonText + " " + latText;
    assert pos[|lonText|] == ' ';
    LegacyReadsPos(pos, parseFloat);
    PosRoundTrip(lonText, latText, parseFloat);
  }

  /** The feature shape is preferred: when it is present, nothing under `response` matters. */
  lemma FeaturesPreferred(fields: map<string, Json>, legacy: Json, parseFloat: string -> Float)
    requires FeatureCoordinates(JObj(fields)).Some?
    ensures ParseYandexCoordinates(JObj(fields["response" := legacy]), parseFloat)
            == ParseYandexCoordinates(JObj(fields), parseFloat)
    ensures ParseYandexCoordinates(JObj(fields), parseFloat).Returned?
            && ParseYandexCoordinates(JObj(fields), parseFloat).result.Some?
  {
    assert Prop(JObj(fields["response" := legacy]), "features") == Prop(JObj(fields), "features");
  }

  /** With neither shape present the result is null. */
  lemma NeitherShapeIsNull(fields: map<string, Json>, parseFloat: string -> Float)
    requires "features" !in fields && "response" !in fields
    ensures ParseYandexCoordinates(JObj(fields), parseFloat) == Returned(None)
  {
  }

  /** A legacy response whose first member is null makes the parser throw, and yandexGeocode
      then resolves to null. */
  lemma NullMemberThrows(parseFloat: string -> Float)
    ensures var result := JObj(map["response" := JObj(map["GeoObjectCollection" :=
              JObj(map["featureMember" := JArr([JNull])])])]);
            ParseYandexCoordinates(result, parseFloat) == Threw && YandexResult(result, parseFloat) == None
  {
    var result := JObj(map["response" := JObj(map["GeoObjectCollection" :=
      JObj(map["featureMember" := JArr([JNull])])])]);
    assert FeatureMembers(result) == JArr([JNull]);
  }

  // ---------------------------------------------------------------- provider chain

  /** The primary provider's answer for the first query it answers, if any. */
  function FirstHit(queries: seq<string>, primary: string -> Option<Coord>): Option<Coord> {
    if |queries| == 0 then None
    else if primary(queries[0]).Some? then primary(queries[0])
    else FirstHit(queries[1..], primary)
  }

  /** `i` is the first query the primary provider answers. */
  predicate FirstAnswered(queries: seq<string>, primary: string -> Option<Coord>, i: int) {
    0 <= i < |queries| && primary(queries[i]).Some? && forall k :: 0 <= k < i ==> primary(queries[k]).None?
  }

  lemma {:induction false} FirstHitSpec(queries: seq<string>, primary: string -> Option<Coord>)
    ensures FirstHit(queries, primary).None? <==> forall k :: 0 <= k < |queries| ==> primary(queries[k]).None?
    ensures FirstHit(queries, primary).Some? ==>
              exists i :: FirstAnswered(queries, primary, i) && FirstHit(queries, primary) == primary(queries[i])
  {
    if |queries| > 0 {
      FirstHitSpec(queries[1..], primary);
      if primary(queries[0]).Some? {
        assert FirstAnswered(queries, primary, 0);
      } else {
        if FirstHit(queries[1..], primary).Some? {
          var i :| FirstAnswered(queries[1..], primary, i) && FirstHit(queries[1..], primary) == primary(queries[1..][i]);
          assert FirstAnswered(queries, primary, i + 1);
        }
        forall k | 0 < k < |queries| ensures primary(queries[k]) == primary(queries[1..][k - 1]) { }
      }
    }
  }

  /** geocodeAddress as a value: the primary provider over the address variants in order,
      then the secondary provider on the first variant. */
  function Geocoded(address: string, lower: string -> string,
                    primary: string -> Option<Coord>, secondary: string -> Option<Coord>): Option<Coord>
  {
    var variants := DedupBy(AddressCandidates(address, lower), lower);
    var hit := FirstHit(variants, primary);
    if hit.Some? then hit else if |variants| > 0 then secondary(variants[0]) else None
  }

  /** The provider chain: either the answer for the first variant the primary provider
      answers, or, when it answers none, the secondary provider's answer for the first
      variant (the trimmed address). */
  lemma GeocodedSpec(address: string, lower: string -> string,
                     primary: string -> Option<Coord>, secondary: string -> Option<Coord>)
    ensures var variants := DedupBy(AddressCandidates(address, lower), lower);
            var r := Geocoded(address, lower, primary, secondary);
            (forall k :: 0 <= k < |variants| ==> primary(variants[k]).None?) ==> r == secondary(Trim(address))
    ensures var variants := DedupBy(AddressCandidates(address, lower), lower);
            var r := Geocoded(address, lower, primary, secondary);
            (exists k :: 0 <= k < |variants| && primary(variants[k]).Some?) ==>
              exists i :: FirstAnswered(variants, primary, i) && r == primary(variants[i])
  {
    var variants := DedupBy(AddressCandidates(address, lower), lower);
    FirstHitSpec(variants, primary);
    DedupKeepsHead(AddressCandidates(address, lower), lower);
  }

  /** geocodeAddress: tries the primary provider on each variant, returning the first
      answer; otherwise asks the secondary provider about the first variant. */
  method GeocodeAddress(address: string, lower: string -> string,
                        primary: string -> Option<Coord>, secondary: string -> Option<Coord>)
    returns (r: Option<Coord>)
    ensures r == Geocoded(address, lower, primary, secondary)
  {
    var variants := BuildAddressVariants(address, lower);
    for i := 0 to |variants|
      invariant FirstHit(variants, primary) == FirstHit(variants[i..], primary)
    {
      var ya := primary(variants[i]);
      assert variants[i..][0] == variants[i];
      if ya.Some? {
        assert FirstHit(variants[i..], primary) == ya;
        return ya;
      }
      assert variants[i..][1..] == variants[i + 1..];
    }
    assert variants[|variants|..] == [];
    r := secondary(variants[0]);
  }
}

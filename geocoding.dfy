/** The coordinates stage: replace the list of place names under `geo_locations` by a list of
    `{name, location}` records, one per name and in the same order, using a geocoder. */
module Geocoding {
  import opened JsonDocument
  import EntityExtraction

  /** The `geometry` entry of a geocoder result, which may or may not hold a `location`. */
  datatype Geometry = Geometry(location: Option<Json>)

  /** One result object of the geocoder, which may or may not hold a `geometry` entry. */
  datatype GeocodeResult = GeocodeResult(geometry: Option<Geometry>)

  datatype CoordinatesError = NotIterable

  const NameField: string := "name"
  const LocationField: string := "location"

  /** The elements a loop over a JSON value visits: the items of an array, the one-character
      strings of a string; no other value can be looped over. */
  function Iterated(v: Json): (names: Option<seq<Json>>)
    ensures names.Some? <==> v.Arr? || v.Str?
    ensures v.Arr? ==> names == Some(v.items)
    ensures v.Str? ==> |names.value| == |v.s| && forall i :: 0 <= i < |v.s| ==> names.value[i] == Str([v.s[i]])
  {
    match v
    case Arr(items) => Some(items)
    case Str(s) => Some(seq(|s|, i requires 0 <= i < |s| => Str([s[i]])))
    case _ => None
  }

  /** The record for one place name given what the geocoder returned for it. */
  function GeoRecord(name: Json, results: seq<GeocodeResult>): (rec: Json)
    ensures rec.Obj? && rec.fields.Keys == {NameField, LocationField}
    ensures rec.fields[NameField] == name
    ensures (results == [] || results[0].geometry.None?) ==> rec.fields[LocationField] == Null
    ensures results != [] && results[0].geometry.Some? ==>
      rec.fields[LocationField] ==
        match results[0].geometry.value.location
        case Some(loc) => loc
        case None => Null
  {
    var location :=
      if results != [] && results[0].geometry.Some? then
        match results[0].geometry.value.location
        case Some(loc) => loc
        case None => Null
      else Null;
    Obj(map[NameField := name, LocationField := location])
  }

  /** The records for `names`, in order, built by a left-to-right pass. */
  function Resolved(names: seq<Json>, geocode: Json -> seq<GeocodeResult>): seq<Json>
  {
    if names == [] then []
    else
      var last := names[|names| - 1];
      Resolved(names[..|names| - 1], geocode) + [GeoRecord(last, geocode(last))]
  }

  /** Resolving keeps the length and the order: the record at index i is that of the name at index i. */
  lemma {:induction false} ResolvedAt(names: seq<Json>, geocode: Json -> seq<GeocodeResult>)
    ensures |Resolved(names, geocode)| == |names|
    ensures forall i :: 0 <= i < |names| ==>
      Resolved(names, geocode)[i] == GeoRecord(names[i], geocode(names[i]))
  {
    if names != [] {
      var init := names[..|names| - 1];
      ResolvedAt(init, geocode);
      forall i | 0 <= i < |init|
        ensures Resolved(names, geocode)[i] == GeoRecord(names[i], geocode(names[i]))
      {
        assert names[i] == init[i];
      }
    }
  }

  /** The loop that looks up every name once and appends its record. */
  method ResolveAll(names: seq<Json>, geocode: Json -> seq<GeocodeResult>) returns (finalGeo: seq<Json>)
    ensures finalGeo == Resolved(names, geocode)
  {
    finalGeo := [];
    for i := 0 to |names|
      invariant finalGeo == Resolved(names[..i], geocode)
    {
      var geoLocation := names[i];
      var geocodeResult := geocode(geoLocation);
      assert names[..i + 1][..i] == names[..i];
      finalGeo := finalGeo + [GeoRecord(geoLocation, geocodeResult)];
    }
    assert names[..|names|] == names;
  }

  /** The coordinates stage, updating the document in place. Without `geo_locations` it does
      nothing; a value that cannot be looped over fails before anything is written. */
  method ExtractCoordinates(data: Document, geocode: Json -> seq<GeocodeResult>) returns (r: Outcome<CoordinatesError>)
    modifies data
    ensures EntityExtraction.PlacesKey !in old(data.fields) ==> r == Pass && data.fields == old(data.fields)
    ensures EntityExtraction.PlacesKey in old(data.fields) && Iterated(old(data.fields)[EntityExtraction.PlacesKey]).None? ==>
      r == Fail(NotIterable) && data.fields == old(data.fields)
    ensures EntityExtraction.PlacesKey in old(data.fields) && Iterated(old(data.fields)[EntityExtraction.PlacesKey]).Some? ==>
      r == Pass &&
      data.fields == old(data.fields)[EntityExtraction.PlacesKey :=
        Arr(Resolved(Iterated(old(data.fields)[EntityExtraction.PlacesKey]).value, geocode))]
  {
    if EntityExtraction.PlacesKey !in data.fields {
      return Pass;
    }
    var names := Iterated(data.fields[EntityExtraction.PlacesKey]);
    if names.None? {
      return Fail(NotIterable);
    }
    var finalGeo := ResolveAll(names.value, geocode);
    data.fields := data.fields[EntityExtraction.PlacesKey := Arr(finalGeo)];
    r := Pass;
  }

  /** After extraction has stored the place names, the coordinates stage gives one record per
      place: the record names are the extracted places, each exactly once. */
  lemma RecordsNameExtractedPlaces(v: Json, places: set<string>, geocode: Json -> seq<GeocodeResult>)
    requires ListsSet(v, places)
    ensures Iterated(v).Some?
    ensures var recs := Resolved(Iterated(v).value, geocode);
      && (forall i :: 0 <= i < |recs| ==> recs[i].Obj? && NameField in recs[i].fields)
      && (forall i :: 0 <= i < |recs| ==> recs[i].fields[NameField].Str? && recs[i].fields[NameField].s in places)
      && (forall i, j :: 0 <= i < j < |recs| ==> recs[i].fields[NameField] != recs[j].fields[NameField])
      && (forall x :: x in places ==> exists i :: 0 <= i < |recs| && recs[i].fields[NameField] == Str(x))
  {
    var names := v.items;
    ResolvedAt(names, geocode);
    var recs := Resolved(names, geocode);
    forall i | 0 <= i < |recs|
      ensures recs[i].fields[NameField].Str? && recs[i].fields[NameField].s in places
    {
      assert recs[i].fields[NameField] == names[i];
    }
    forall x | x in places
      ensures exists i :: 0 <= i < |recs| && recs[i].fields[NameField] == Str(x)
    {
      assert x in Listed(v);
      var i :| 0 <= i < |names| && names[i].Str? && names[i].s == x;
      assert recs[i].fields[NameField] == Str(x);
    }
  }
}

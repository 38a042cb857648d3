/**
  The location value the profile page stores, the map plots and the location picker emits:
  a display name and two coordinates. Coordinates are opaque values here; only their truthiness
  is ever checked.
*/
module Locations {
  import opened Common
  import opened JsValues

  datatype Location = Location(displayName: JsValue, lat: JsValue, lng: JsValue)

  const UnknownLocation: string := "Unknown Location"

  /** The object a location is stored as. */
  function LocationValue(l: Location): JsValue {
    Obj(map["displayName" := l.displayName, "lat" := l.lat, "lng" := l.lng])
  }

  /**
    The structured-location test the profile page and the map share: an object with truthy `lat`
    and `lng` becomes a location whose name is `displayName || display_name || "Unknown Location"`.
  */
  function StructuredLocation(v: JsValue): (r: Option<Location>)
    ensures r.Some? ==> WellFormed(r.value)
  {
    if IsObjectType(v) && Truthy(Field(v, "lat")) && Truthy(Field(v, "lng")) then
      Some(Location(Or(Or(Field(v, "displayName"), Field(v, "display_name")), Str(UnknownLocation)),
                    Field(v, "lat"), Field(v, "lng")))
    else None
  }

  /** A location with a truthy name and truthy coordinates, as the test produces. */
  predicate WellFormed(l: Location) {
    Truthy(l.displayName) && Truthy(l.lat) && Truthy(l.lng)
  }

  /**
    Only an object with truthy coordinates is a structured location; it keeps them, and its name is
    the first truthy of the two stored names, else "Unknown Location", so it is never blank.
  */
  lemma StructuredLocationSpec(v: JsValue)
    ensures StructuredLocation(v).Some? <==> v.Obj? && Truthy(Field(v, "lat")) && Truthy(Field(v, "lng"))
    ensures StructuredLocation(v).Some? ==>
      var l := StructuredLocation(v).value;
      && WellFormed(l) && l.lat == Field(v, "lat") && l.lng == Field(v, "lng")
      && (Truthy(Field(v, "displayName")) ==> l.displayName == Field(v, "displayName"))
      && (!Truthy(Field(v, "displayName")) && Truthy(Field(v, "display_name")) ==> l.displayName == Field(v, "display_name"))
      && (!Truthy(Field(v, "displayName")) && !Truthy(Field(v, "display_name")) ==> l.displayName == Str(UnknownLocation))
  {
  }

  /** A stored location reads back as itself. */
  lemma StoredLocationReadsBack(l: Location)
    requires WellFormed(l)
    ensures StructuredLocation(LocationValue(l)) == Some(l)
  {
  }
}

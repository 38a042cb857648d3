/**
  The member map: every `users` document is given a location, either the structured location it
  stores or, for a stored string, what the geocoder answers for it; only users with a location are
  plotted, in snapshot order. The geocoder is asked nothing for a blank string.
*/
module MapPage {
  import opened Common
  import opened JsString
  import opened JsValues
  import opened Lists
  import opened Locations

  /** A document of the `users` snapshot. */
  datatype UserDoc = UserDoc(id: string, data: Doc)

  datatype UserLocation = UserLocation(id: string, username: JsValue, profilePicture: JsValue,
                                       classYear: JsValue, location: Location)

  const UnknownUser: string := "Unknown User"

  /** `geocodeLocation`'s guard: a request is sent only for a string that is not empty after trimming. */
  predicate NeedsGeocoding(s: string) {
    s != "" && |Trim(s)| != 0
  }

  /** The strings the geocoder is spared are exactly the all-whitespace ones. */
  lemma NeedsGeocodingSpec(s: string)
    ensures NeedsGeocoding(s) <==> !AllSpace(s)
  {
    BlankIffAllSpace(s);
  }

  /**
    `geocodeLocation(s)`: `answer` is what the geocoder returns (its first match, None when there
    is none or the request fails). A blank string gets no location and sends no request.
  */
  method GeocodeLocation(s: string, answer: Option<Location>) returns (requested: bool, r: Option<Location>)
    ensures requested <==> !AllSpace(s)
    ensures !requested ==> r.None?
    ensures requested ==> r == answer
  {
    NeedsGeocodingSpec(s);
    if !NeedsGeocoding(s) {
      return false, None;
    }
    return true, answer;
  }

  /** Whether the loop geocodes the user's stored location. */
  predicate RequestsGeocoding(u: UserDoc) {
    var cl := Get(u.data, "currentLocation");
    cl.Str? && NeedsGeocoding(cl.s)
  }

  /**
    The location the loop finds for a user: a structured one as it is, a string through the
    geocoder (`answer`), anything else none.
  */
  function ResolvedLocation(u: UserDoc, answer: Option<Location>): Option<Location> {
    var cl := Get(u.data, "currentLocation");
    if !Truthy(cl) then None
    else match StructuredLocation(cl)
      case Some(l) => Some(l)
      case None => if RequestsGeocoding(u) then answer else None
  }

  /**
    A structured location is kept; a string location is resolved only through the geocoder; any
    other stored value gives no location.
  */
  lemma ResolvedLocationSpec(u: UserDoc, answer: Option<Location>)
    ensures StructuredLocation(Get(u.data, "currentLocation")).Some? ==>
      ResolvedLocation(u, answer) == StructuredLocation(Get(u.data, "currentLocation"))
    ensures Get(u.data, "currentLocation").Str? ==>
      ResolvedLocation(u, answer) == if RequestsGeocoding(u) then answer else None
    ensures !Get(u.data, "currentLocation").Str? && StructuredLocation(Get(u.data, "currentLocation")).None? ==>
      ResolvedLocation(u, answer).None?
  {
  }

  /** A user paired with the geocoder's answer for it. */
  type Lookup = (UserDoc, Option<Location>)

  function Lookups(users: seq<UserDoc>, answers: seq<Option<Location>>): (r: seq<Lookup>)
    requires |answers| == |users|
    ensures |r| == |users|
  {
    seq(|users|, i requires 0 <= i < |users| => (users[i], answers[i]))
  }

  predicate Resolves(p: Lookup) {
    ResolvedLocation(p.0, p.1).Some?
  }

  /** The entry pushed for a user with a location. */
  function EntryOf(p: Lookup): (e: UserLocation)
    ensures e.id == p.0.id && Truthy(e.username)
    ensures DefaultsTo(Get(p.0.data, "username"), e.username, Str(UnknownUser))
    ensures e.profilePicture == Get(p.0.data, "profilePicture") && e.classYear == Get(p.0.data, "classYear")
    ensures Resolves(p) ==> e.location == ResolvedLocation(p.0, p.1).value
  {
    var location := match ResolvedLocation(p.0, p.1)
      case Some(l) => l
      case None => Location(Undefined, Undefined, Undefined);
    UserLocation(p.0.id, Or(Get(p.0.data, "username"), Str(UnknownUser)), Get(p.0.data, "profilePicture"),
                 Get(p.0.data, "classYear"), location)
  }

  /** The list the loop builds: the users with a location, in snapshot order. */
  function UserLocations(users: seq<UserDoc>, answers: seq<Option<Location>>): seq<UserLocation>
    requires |answers| == |users|
  {
    Map(Filter(Lookups(users, answers), Resolves), EntryOf)
  }

  function LocationText(u: UserDoc): string {
    TextOf(Get(u.data, "currentLocation"))
  }

  /** The strings sent to the geocoder, in snapshot order. */
  function GeocodeRequests(users: seq<UserDoc>): seq<string> {
    Map(Filter(users, RequestsGeocoding), LocationText)
  }

  /**
    An entry is plotted exactly for a user whose location resolves, carrying that user's id and
    location; every plotted entry has a username ("Unknown User" when the stored one is falsy);
    there is one entry per resolving user.
  */
  lemma UserLocationsSpec(users: seq<UserDoc>, answers: seq<Option<Location>>)
    requires |answers| == |users|
    ensures forall e :: e in UserLocations(users, answers) <==>
      exists p :: p in Lookups(users, answers) && Resolves(p) && EntryOf(p) == e
    ensures forall e :: e in UserLocations(users, answers) ==> Truthy(e.username)
    ensures forall e :: e in UserLocations(users, answers) ==>
      exists p :: p in Lookups(users, answers) && Resolves(p) && e.id == p.0.id
        && DefaultsTo(Get(p.0.data, "username"), e.username, Str(UnknownUser))
        && e.profilePicture == Get(p.0.data, "profilePicture") && e.classYear == Get(p.0.data, "classYear")
    ensures |UserLocations(users, answers)| == Count(Lookups(users, answers), Resolves)
  {
    MapFilterMembers(Lookups(users, answers), Resolves, EntryOf);
    FilterLength(Lookups(users, answers), Resolves);
  }

  /** Every string sent is a user's stored, non-blank location. */
  lemma GeocodeRequestsSpec(users: seq<UserDoc>)
    ensures forall s :: s in GeocodeRequests(users) <==>
      exists u :: u in users && Get(u.data, "currentLocation") == Str(s) && !AllSpace(s)
  {
    MapFilterMembers(users, RequestsGeocoding, LocationText);
    forall u | u in users && Get(u.data, "currentLocation").Str? {
      NeedsGeocodingSpec(Get(u.data, "currentLocation").s);
    }
  }

  /** One iteration of the loop: the user's location, and whether its string went to the geocoder. */
  method ResolveUser(u: UserDoc, answer: Option<Location>) returns (requested: bool, location: Option<Location>)
    ensures requested == RequestsGeocoding(u)
    ensures location == ResolvedLocation(u, answer)
  {
    requested, location := false, None;
    var cl := Get(u.data, "currentLocation");
    if Truthy(cl) {
      var structured := StructuredLocation(cl);
      if structured.Some? {
        location := structured;
      } else if cl.Str? {
        requested, location := GeocodeLocation(cl.s, answer);
        NeedsGeocodingSpec(cl.s);
      }
    }
  }

  class MapView {
    var userLocations: seq<UserLocation>
    var loading: bool

    constructor ()
      ensures userLocations == [] && loading
    {
      userLocations, loading := [], true;
    }

    /**
      `fetchUserLocations`: `snapshot` is the `users` collection as read (None when the read
      failed, which keeps the list), `answers[i]` the geocoder's answer for the i-th user, consulted
      only when that user's string location is sent; `requests` are the strings sent, in order.
    */
    method FetchUserLocations(snapshot: Option<seq<UserDoc>>, answers: seq<Option<Location>>)
      returns (requests: seq<string>)
      requires snapshot.Some? ==> |answers| == |snapshot.value|
      modifies this
      ensures snapshot.Some? ==> userLocations == UserLocations(snapshot.value, answers)
      ensures snapshot.Some? ==> requests == GeocodeRequests(snapshot.value)
      ensures snapshot.None? ==> userLocations == old(userLocations) && requests == []
      ensures !loading
    {
      requests := [];
      if snapshot.Some? {
        var users := snapshot.value;
        ghost var ps := Lookups(users, answers);
        var locations: seq<UserLocation> := [];
        for i := 0 to |users|
          invariant locations == Map(Filter(ps[..i], Resolves), EntryOf)
          invariant requests == Map(Filter(users[..i], RequestsGeocoding), LocationText)
        {
          assert ps[..i + 1] == ps[..i] + [ps[i]];
          assert users[..i + 1] == users[..i] + [users[i]];
          MapFilterSnoc(ps[..i], ps[i], Resolves, EntryOf);
          MapFilterSnoc(users[..i], users[i], RequestsGeocoding, LocationText);
          var requested, location := ResolveUser(users[i], answers[i]);
          if requested {
            requests := requests + [users[i].data["currentLocation"].s];
          }
          if location.Some? {
            var userData := users[i].data;
            locations := locations + [UserLocation(users[i].id, Or(Get(userData, "username"), Str(UnknownUser)),
                                                   Get(userData, "profilePicture"), Get(userData, "classYear"),
                                                   location.value)];
          }
        }
        assert ps[..|users|] == ps && users[..|users|] == users;
        userLocations := locations;
      }
      loading := false;
    }
  }
}

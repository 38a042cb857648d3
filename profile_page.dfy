/**
  The profile page: the signed-in user's `users` document is read into a profile whose text
  fields default to "" and whose `currentLocation` is normalised to a place, a name or nothing;
  saving writes the same five fields to the user document and, when the user has claimed a member
  entry, to that `members` document as well, one write after the other.
*/
module ProfilePage {
  import opened Common
  import opened JsValues
  import opened Firestore
  import opened Locations
  import AuthFlow

  /** `string | Location | undefined` as the page holds it. */
  datatype CurrentLocation = NoLocation | Named(name: string) | Placed(loc: Location)

  /**
    The normalisation in `fetchUserProfile`: a falsy value is no location; an object with truthy
    coordinates is a place; a string is kept as a name; anything else is no location.
  */
  function NormalisedLocation(v: JsValue): (c: CurrentLocation)
    ensures Normal(c)
  {
    if !Truthy(v) then NoLocation
    else match StructuredLocation(v)
      case Some(l) => Placed(l)
      case None => if v.Str? then Named(v.s) else NoLocation
  }

  /** What the page holds: a name is never blank and a place is well formed. */
  predicate Normal(c: CurrentLocation) {
    match c
    case NoLocation => true
    case Named(s) => s != ""
    case Placed(l) => WellFormed(l)
  }

  /**
    A string is kept verbatim (the empty string being falsy), a structured object becomes a place,
    and anything else, an object whose `lat` or `lng` is 0 or missing included, becomes nothing.
  */
  lemma NormalisedLocationSpec(v: JsValue)
    ensures Normal(NormalisedLocation(v))
    ensures v.Str? ==> NormalisedLocation(v) == if v.s == "" then NoLocation else Named(v.s)
    ensures StructuredLocation(v).Some? ==> NormalisedLocation(v) == Placed(StructuredLocation(v).value)
    ensures !v.Str? && StructuredLocation(v).None? ==> NormalisedLocation(v) == NoLocation
  {
    StructuredLocationSpec(v);
  }

  /** `locationToSave`: a place is stored as its object, a non-empty name as itself, anything else as null. */
  function LocationToSave(c: CurrentLocation): JsValue {
    match c
    case Placed(l) => LocationValue(l)
    case Named(s) => if s != "" then Str(s) else Null
    case NoLocation => Null
  }

  /** Saving a normal location and reading it back gives the same location. */
  lemma SavedLocationReadsBack(c: CurrentLocation)
    requires Normal(c)
    ensures NormalisedLocation(LocationToSave(c)) == c
  {
    if c.Placed? {
      StoredLocationReadsBack(c.loc);
    }
  }

  /** The profile the page edits: every text field defaulted, the location normalised. */
  datatype Profile = Profile(
    id: string, username: JsValue, bio: JsValue, hometown: JsValue, currentLocation: CurrentLocation,
    profilePicture: JsValue, classYear: JsValue, email: JsValue, memberId: Option<string>)

  /** `stored || ""`, as a relation between the stored value and the shown one. */
  predicate Defaulted(stored: JsValue, shown: JsValue) {
    if Truthy(stored) then shown == stored else shown == Str("")
  }

  function ProfileOf(uid: string, data: Doc, memberId: Option<string>): Profile {
    Profile(uid, Or(Get(data, "username"), Str("")), Or(Get(data, "bio"), Str("")),
            Or(Get(data, "hometown"), Str("")), NormalisedLocation(Get(data, "currentLocation")),
            Or(Get(data, "profilePicture"), Str("")), Or(Get(data, "classYear"), Str("")),
            Or(Get(data, "email"), Str("")), memberId)
  }

  /** Each missing or falsy text field reads as ""; a truthy one is kept. */
  lemma ProfileDefaults(uid: string, data: Doc, memberId: Option<string>)
    ensures var p := ProfileOf(uid, data, memberId);
      && Defaulted(Get(data, "username"), p.username) && Defaulted(Get(data, "bio"), p.bio)
      && Defaulted(Get(data, "hometown"), p.hometown) && Defaulted(Get(data, "profilePicture"), p.profilePicture)
      && Defaulted(Get(data, "classYear"), p.classYear) && Defaulted(Get(data, "email"), p.email)
      && Normal(p.currentLocation) && p.id == uid
  {
    NormalisedLocationSpec(Get(data, "currentLocation"));
  }

  /**
    The claimed member entry: the first id the `claimedBy == uid` query returned, if any; a failed
    query (None) is only logged.
  */
  function MemberIdOf(claimed: Option<seq<string>>): Option<string> {
    if claimed.Some? && |claimed.value| > 0 then Some(claimed.value[0]) else None
  }

  /** `userProfile?.memberId` taken as a condition. */
  function MemberDocOf(p: Option<Profile>): Option<string> {
    if p.Some? && p.value.memberId.Some? && p.value.memberId.value != "" then p.value.memberId else None
  }

  /** The five fields `handleSave` writes. */
  function SavedFields(p: Profile): Doc {
    map["username" := p.username, "bio" := p.bio, "hometown" := p.hometown,
        "currentLocation" := LocationToSave(p.currentLocation), "profilePicture" := p.profilePicture]
  }

  /** The store after `handleSave`'s writes: the user document first, then the member document. */
  function SaveWrites(cols: Collections, uid: string, memberId: Option<string>, fields: Doc,
                      userReachable: bool, memberReachable: bool): Collections
  {
    if !(userReachable && uid in CollOf(cols, "users")) then cols
    else
      var afterUser := Merged(cols, "users", uid, fields);
      if memberId.Some? && memberReachable && memberId.value in CollOf(afterUser, "members") then
        Merged(afterUser, "members", memberId.value, fields)
      else afterUser
  }

  /** Whether every write `handleSave` attempts succeeds. */
  predicate SaveSucceeds(cols: Collections, uid: string, memberId: Option<string>, userReachable: bool, memberReachable: bool) {
    userReachable && uid in CollOf(cols, "users") &&
    (memberId.Some? ==> memberReachable && memberId.value in CollOf(cols, "members"))
  }

  /**
    The user document receives the five fields; the member document receives the same five
    exactly when there is one and the user write went through; no other document or collection
    changes. The writes are not atomic: a failed member write leaves the user write in place.
  */
  lemma SaveWritesSpec(cols: Collections, uid: string, memberId: Option<string>, fields: Doc,
                       userReachable: bool, memberReachable: bool)
    ensures var r := SaveWrites(cols, uid, memberId, fields, userReachable, memberReachable);
      && (forall n :: n != "users" && n != "members" ==> CollOf(r, n) == CollOf(cols, n))
      && (userReachable && uid in CollOf(cols, "users") ==>
            CollOf(r, "users") == CollOf(cols, "users")[uid := CollOf(cols, "users")[uid] + fields])
      && (!(userReachable && uid in CollOf(cols, "users")) ==> r == cols)
      && (memberId.None? ==> CollOf(r, "members") == CollOf(cols, "members"))
      && (SaveSucceeds(cols, uid, memberId, userReachable, memberReachable) && memberId.Some? ==>
            CollOf(r, "members") ==
              CollOf(cols, "members")[memberId.value := CollOf(cols, "members")[memberId.value] + fields])
      && (!SaveSucceeds(cols, uid, memberId, userReachable, memberReachable) && userReachable && uid in CollOf(cols, "users") ==>
            CollOf(r, "members") == CollOf(cols, "members"))
  {
    if userReachable && uid in CollOf(cols, "users") {
      var afterUser := Merged(cols, "users", uid, fields);
      assert CollOf(afterUser, "members") == CollOf(cols, "members");
    }
  }

  class ProfileView {
    var userProfile: Option<Profile>
    var editedProfile: Option<Profile>
    var loading: bool
    var saving: bool
    var editMode: bool

    constructor ()
      ensures userProfile.None? && editedProfile.None? && loading && !saving && !editMode
    {
      userProfile, editedProfile := None, None;
      loading, saving, editMode := true, false, false;
    }

    /**
      `fetchUserProfile(uid)`: `fetch` is the read of `users/<uid>` and `claimed` the ids of the
      `members` documents whose `claimedBy` is `uid` (None when that query failed). Only an existing
      document sets the profile and the edited copy.
    */
    method FetchUserProfile(uid: string, fetch: AuthFlow.ProfileFetch, claimed: Option<seq<string>>)
      modifies this
      ensures fetch.Found? ==>
        userProfile == Some(ProfileOf(uid, fetch.profile, MemberIdOf(claimed))) && editedProfile == userProfile
      ensures !fetch.Found? ==> userProfile == old(userProfile) && editedProfile == old(editedProfile)
      ensures !loading && saving == old(saving) && editMode == old(editMode)
    {
      if fetch.Found? {
        var memberId: Option<string> := None;
        if claimed.Some? && |claimed.value| > 0 {
          memberId := Some(claimed.value[0]);
        }
        var profile := ProfileOf(uid, fetch.profile, memberId);
        userProfile := Some(profile);
        editedProfile := Some(profile);
      }
      loading := false;
    }

    /** The picker's `onChange` while editing: a cleared picker leaves the empty string. */
    method SetLocation(location: Option<Location>)
      requires editedProfile.Some?
      modifies this
      ensures editedProfile == Some(old(editedProfile.value).(currentLocation :=
        if location.Some? then Placed(location.value) else Named("")))
      ensures userProfile == old(userProfile) && editMode == old(editMode)
      ensures loading == old(loading) && saving == old(saving)
    {
      var c := if location.Some? then Placed(location.value) else Named("");
      editedProfile := Some(editedProfile.value.(currentLocation := c));
    }

    /**
      `handleSave`: without a signed-in user or an edited profile nothing happens. Otherwise the
      five fields go to the user document and then, when the saved profile names a claimed member
      entry, to that member document; when both succeed the edited profile becomes the saved one
      and edit mode ends; a failure raises the alert (returned) and keeps edit mode.
    */
    method HandleSave(db: Db, user: Option<AuthFlow.User>, userReachable: bool, memberReachable: bool)
      returns (alerted: bool)
      modifies this, db
      ensures user.None? || old(editedProfile).None? ==>
        db.collections == old(db.collections) && !alerted && userProfile == old(userProfile) &&
        editMode == old(editMode) && saving == old(saving)
      ensures user.Some? && old(editedProfile).Some? ==>
        var ok := SaveSucceeds(old(db.collections), user.value.uid, MemberDocOf(old(userProfile)), userReachable, memberReachable);
        && db.collections == SaveWrites(old(db.collections), user.value.uid, MemberDocOf(old(userProfile)),
                                        SavedFields(old(editedProfile).value), userReachable, memberReachable)
        && alerted == !ok && !saving
        && (ok ==> userProfile == old(editedProfile) && !editMode)
        && (!ok ==> userProfile == old(userProfile) && editMode == old(editMode))
      ensures editedProfile == old(editedProfile) && loading == old(loading)
    {
      alerted := false;
      if user.None? || editedProfile.None? {
        return;
      }
      saving := true;
      var fields := SavedFields(editedProfile.value);
      var memberId := MemberDocOf(userProfile);
      var ok := db.UpdateDoc("users", user.value.uid, fields, userReachable);
      if ok && memberId.Some? {
        ok := db.UpdateDoc("members", memberId.value, fields, memberReachable);
      }
      if ok {
        userProfile := editedProfile;
        editMode := false;
      } else {
        alerted := true;
      }
      saving := false;
    }

    /** `handleCancel`: the edited copy goes back to the saved profile and edit mode ends. */
    method HandleCancel()
      modifies this
      ensures editedProfile == userProfile == old(userProfile) && !editMode
      ensures loading == old(loading) && saving == old(saving)
    {
      editedProfile := userProfile;
      editMode := false;
    }
  }
}

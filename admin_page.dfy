/**
  The administrator page's access decision: who the auth-state listener lets stay, where it sends
  everyone else, and the render guard in front of the dashboard.
*/
module AdminPage {
  import opened Common
  import opened JsValues
  import opened AuthFlow

  /** The guard in front of the dashboard: a signed-in user with an administrator profile. */
  predicate DashboardAllowed(user: Option<User>, profile: Option<Doc>) {
    user.Some? && profile.Some? && IsAdminProfile(profile.value)
  }

  class AdminGate {
    var user: Option<User>
    var userProfile: Option<Doc>
    var loading: bool
    /** Every route pushed, in order. */
    var routes: seq<Route>

    constructor ()
      ensures user.None? && userProfile.None? && loading && routes == []
    {
      user, userProfile, loading, routes := None, None, true, [];
    }

    /** The dashboard is on screen. */
    predicate ShowsDashboard()
      reads this
    {
      !loading && DashboardAllowed(user, userProfile)
    }

    /**
      The auth-state listener: no account goes to the login page; a stored profile is kept and a
      non-administrator sent home; without a readable record the administrator's email gets the
      built-in profile and any other account is sent home.
    */
    method OnAuthStateChanged(u: Option<User>, fetch: ProfileFetch, adminEmail: string)
      modifies this
      ensures user == u && !loading
      ensures u.None? ==> routes == old(routes) + [LoginRoute] && userProfile == old(userProfile)
      ensures u.Some? && ResolvedProfile(u.value, fetch, adminEmail).Some? ==>
        userProfile == ResolvedProfile(u.value, fetch, adminEmail)
      ensures u.Some? && ResolvedProfile(u.value, fetch, adminEmail).None? ==> userProfile == old(userProfile)
      ensures u.Some? ==>
        routes == old(routes) + (if DashboardAllowed(u, ResolvedProfile(u.value, fetch, adminEmail)) then [] else [Home])
    {
      user := u;
      match u {
        case None =>
          routes := routes + [LoginRoute];
        case Some(v) =>
          match fetch {
            case Found(profile) =>
              userProfile := Some(profile);
              if !IsAdminProfile(profile) {
                routes := routes + [Home];
              }
            case _ =>
              if HasAdminEmail(v, adminEmail) {
                AdminFallbackIsAdmin(adminEmail);
                userProfile := Some(AdminFallbackProfile(adminEmail));
              } else {
                routes := routes + [Home];
              }
          }
      }
      loading := false;
    }

    /** `handleSignOut`: after a successful sign-out the page goes to the login route. */
    method SignOut(ok: bool)
      modifies this
      ensures routes == old(routes) + (if ok then [LoginRoute] else [])
      ensures user == old(user) && userProfile == old(userProfile) && loading == old(loading)
    {
      if ok {
        routes := routes + [LoginRoute];
      }
    }
  }

  /**
    Each listener call either lets the dashboard show or sends the browser away, and on a page with
    no earlier profile it does exactly one of the two.
  */
  lemma ListenerDecides(u: Option<User>, fetch: ProfileFetch, adminEmail: string, previous: Option<Doc>)
    ensures var profile :=
      if u.Some? && ResolvedProfile(u.value, fetch, adminEmail).Some? then ResolvedProfile(u.value, fetch, adminEmail) else previous;
      var redirected := u.None? || !DashboardAllowed(u, ResolvedProfile(u.value, fetch, adminEmail));
      && (DashboardAllowed(u, profile) || redirected)
      && (previous.None? ==> (DashboardAllowed(u, profile) <==> !redirected))
  {
  }

  /** The administrator's email reaches the dashboard even when its user record cannot be read. */
  lemma AdminEmailAdmitted(uid: string, fetch: ProfileFetch, adminEmail: string)
    requires !fetch.Found?
    ensures DashboardAllowed(Some(User(uid, Some(adminEmail))), ResolvedProfile(User(uid, Some(adminEmail)), fetch, adminEmail))
  {
    AdminFallbackIsAdmin(adminEmail);
  }

  /** A stored record admits its account exactly when it marks the account as an administrator. */
  lemma StoredProfileDecides(u: User, profile: Doc, adminEmail: string)
    ensures DashboardAllowed(Some(u), ResolvedProfile(u, Found(profile), adminEmail)) <==> IsAdminProfile(profile)
  {
  }
}

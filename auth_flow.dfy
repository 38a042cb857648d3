/**
  The sign-in page's step machine (choose a class, then a member, or log in as the administrator)
  and what the auth-state listener makes of a signed-in account: the stored user record, or, when
  that is missing or cannot be read, a built-in administrator profile for the administrator's email.
*/
module AuthFlow {
  import opened Common
  import opened JsValues
  import MemberSelection

  /** A signed-in account: its id and its email, which the identity provider may leave unset. */
  datatype User = User(uid: string, email: Option<string>)

  /** The result of reading `users/<uid>`: the document, no such document, or a failed read. */
  datatype ProfileFetch = Found(profile: Doc) | Missing | FetchFailed

  datatype Step = ClassStep | MembersStep | AdminStep | AdminLoginStep

  /** The page routes the sign-in flow sends a browser to. */
  datatype Route = Home | AdminRoute | LoginRoute

  /** `profile?.isAdmin` taken as a condition. */
  predicate IsAdminProfile(p: Doc) {
    Truthy(Get(p, "isAdmin"))
  }

  /** The profile used for the administrator's account when its user record is missing or unreadable. */
  function AdminFallbackProfile(email: string): Doc {
    map["email" := Str(email), "username" := Str("admin"), "firstName" := Str("Admin"),
        "lastName" := Str("User"), "isAdmin" := Bool(true)]
  }

  lemma AdminFallbackIsAdmin(email: string)
    ensures IsAdminProfile(AdminFallbackProfile(email))
    ensures Get(AdminFallbackProfile(email), "email") == Str(email)
  {
  }

  /** `user.email === ADMIN_EMAIL`: an account without an email never matches. */
  predicate HasAdminEmail(u: User, adminEmail: string) {
    u.email == Some(adminEmail)
  }

  /**
    The profile the listener sets for a signed-in account, or None when it sets none (and the
    previous profile stays).
  */
  function ResolvedProfile(u: User, fetch: ProfileFetch, adminEmail: string): (r: Option<Doc>)
    ensures fetch.Found? ==> r == Some(fetch.profile)
    ensures !fetch.Found? ==> (r.Some? <==> HasAdminEmail(u, adminEmail))
    ensures !fetch.Found? && r.Some? ==> IsAdminProfile(r.value)
  {
    match fetch
    case Found(p) => Some(p)
    case _ => if HasAdminEmail(u, adminEmail) then Some(AdminFallbackProfile(adminEmail)) else None
  }

  /** The `Auth` component of the sign-in page. */
  class AuthPanel {
    var user: Option<User>
    var userProfile: Option<Doc>
    var loading: bool
    var currentStep: Step
    var selectedClass: string
    var error: string

    /** No handler ever moves to the embedded dashboard step. */
    ghost predicate Valid()
      reads this
    {
      currentStep != AdminStep
    }

    constructor ()
      ensures Valid() && user.None? && userProfile.None? && loading
      ensures currentStep == ClassStep && selectedClass == "" && error == ""
    {
      user, userProfile, loading := None, None, true;
      currentStep, selectedClass, error := ClassStep, "", "";
    }

    /**
      The auth-state listener: a signed-out state clears the profile and returns to the class step;
      a signed-in account takes its stored profile or, for the administrator's email, the built-in one.
    */
    method OnAuthStateChanged(u: Option<User>, fetch: ProfileFetch, adminEmail: string)
      requires Valid()
      modifies this
      ensures Valid() && user == u && !loading
      ensures u.None? ==> userProfile.None? && currentStep == ClassStep
      ensures u.Some? ==> currentStep == old(currentStep)
      ensures u.Some? && ResolvedProfile(u.value, fetch, adminEmail).Some? ==>
        userProfile == ResolvedProfile(u.value, fetch, adminEmail)
      ensures u.Some? && ResolvedProfile(u.value, fetch, adminEmail).None? ==> userProfile == old(userProfile)
      ensures selectedClass == old(selectedClass) && error == old(error)
    {
      user := u;
      if u.Some? {
        var p := ResolvedProfile(u.value, fetch, adminEmail);
        if p.Some? {
          userProfile := p;
        }
      } else {
        userProfile := None;
        currentStep := ClassStep;
      }
      loading := false;
    }

    /** Where the redirect effect sends the browser, if anywhere. */
    function Redirect(): (r: Option<Route>)
      reads this
      ensures r.Some? <==> user.Some? && userProfile.Some?
      ensures r == Some(AdminRoute) <==> user.Some? && userProfile.Some? && IsAdminProfile(userProfile.value)
      ensures r.Some? ==> r.value != LoginRoute
    {
      if user.Some? && userProfile.Some? then
        if IsAdminProfile(userProfile.value) then Some(AdminRoute) else Some(Home)
      else None
    }

    /** `handleClassSelected` */
    method SelectClass(classYear: string)
      requires Valid()
      modifies this
      ensures Valid() && selectedClass == classYear && currentStep == MembersStep
      ensures user == old(user) && userProfile == old(userProfile) && loading == old(loading) && error == old(error)
    {
      selectedClass := classYear;
      currentStep := MembersStep;
    }

    /** `handleBackToClass`, the member panel's Back button. */
    method BackToClass()
      requires Valid()
      modifies this
      ensures Valid() && selectedClass == "" && currentStep == ClassStep
      ensures user == old(user) && userProfile == old(userProfile) && loading == old(loading) && error == old(error)
    {
      currentStep := ClassStep;
      selectedClass := "";
    }

    /** The "Admin Login" link under the class chooser. */
    method ShowAdminLogin()
      requires Valid()
      modifies this
      ensures Valid() && currentStep == AdminLoginStep && selectedClass == old(selectedClass)
      ensures user == old(user) && userProfile == old(userProfile) && loading == old(loading) && error == old(error)
    {
      currentStep := AdminLoginStep;
    }

    /** "Back to Member Login" on the administrator form: the chosen class is kept. */
    method BackToMemberLogin()
      requires Valid()
      modifies this
      ensures Valid() && currentStep == ClassStep && selectedClass == old(selectedClass)
      ensures user == old(user) && userProfile == old(userProfile) && loading == old(loading) && error == old(error)
    {
      currentStep := ClassStep;
    }

    /** `handleAdminLogin`: a failed sign-in shows the provider's message; success is left to the listener. */
    method AdminLogin(result: MemberSelection.AuthResult)
      requires Valid()
      modifies this
      ensures Valid()
      ensures result.Failed? ==> error == result.message
      ensures result.Signed? ==> error == ""
      ensures currentStep == old(currentStep) && selectedClass == old(selectedClass)
      ensures user == old(user) && userProfile == old(userProfile) && loading == old(loading)
    {
      error := "";
      if result.Failed? {
        error := result.message;
      }
    }
  }

  /** What the sign-in page renders, in the order it tests for it. */
  datatype Screen = Spinner | Redirecting | Dashboard | AdminLoginForm | Members(classYear: string) | ClassChooser

  function ScreenOf(loading: bool, signedInWithProfile: bool, step: Step, selectedClass: string): (s: Screen)
    ensures s.Members? ==> !loading && !signedInWithProfile && step == MembersStep && s.classYear == selectedClass
    ensures s == ClassChooser <==> !loading && !signedInWithProfile && step == ClassStep
    ensures s == Dashboard ==> step == AdminStep
  {
    if loading then Spinner
    else if signedInWithProfile then Redirecting
    else match step
      case AdminStep => Dashboard
      case AdminLoginStep => AdminLoginForm
      case MembersStep => Members(selectedClass)
      case ClassStep => ClassChooser
  }

  /** The embedded dashboard is never rendered on the sign-in page: no handler reaches its step. */
  lemma NoDashboardOnSignIn(p: AuthPanel)
    requires p.Valid()
    ensures ScreenOf(p.loading, p.user.Some? && p.userProfile.Some?, p.currentStep, p.selectedClass) != Dashboard
  {
  }
}

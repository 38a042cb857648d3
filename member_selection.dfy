/**
  The member-claim workflow of the sign-in page: the three-word passphrase gate, the ordered
  validation before an account is claimed, the two non-atomic writes that bind a roster entry to a
  new account, signing in to an already claimed entry, and adding a roster entry.
*/
module MemberSelection {
  import opened Common
  import opened JsString
  import opened JsValues
  import opened Firestore

  // ---------------------------------------------------------------------------------------------
  // The passphrase

  /** `input.trim().split(/\s+/)` */
  function Words(input: string): seq<string> {
    SplitWs(Trim(input))
  }

  /** `word.charAt(0).toUpperCase() === letter` */
  predicate InitialIs(word: string, letter: char) {
    |word| > 0 && ToUpperChar(word[0]) == letter
  }

  /** `verifyKeyword`: exactly three words, whose initials are B, A and R in that order. */
  predicate VerifyKeyword(input: string) {
    var words := Words(input);
    |words| == 3 && InitialIs(words[0], 'B') && InitialIs(words[1], 'A') && InitialIs(words[2], 'R')
  }

  /** A whitespace run that separates two words. */
  predicate Separator(s: string) {
    |s| > 0 && AllSpace(s)
  }

  /** `t` is the words `w0`, `w1`, `w2` with initials B, A, R, separated by the runs `s1` and `s2`. */
  predicate PassphraseParts(t: string, w0: string, s1: string, w1: string, s2: string, w2: string) {
    && t == w0 + s1 + w1 + s2 + w2
    && NoSpace(w0) && NoSpace(w1) && NoSpace(w2)
    && Separator(s1) && Separator(s2)
    && InitialIs(w0, 'B') && InitialIs(w1, 'A') && InitialIs(w2, 'R')
  }

  /**
    The passphrase rule stated without `split`: the trimmed phrase is three whitespace-free words
    joined by whitespace runs, with initials B, A, R.
  */
  ghost predicate IsPassphrase(input: string) {
    exists w0, s1, w1, s2, w2 :: PassphraseParts(Trim(input), w0, s1, w1, s2, w2)
  }

  lemma VerifyKeywordIffPassphrase(input: string)
    ensures VerifyKeyword(input) <==> IsPassphrase(input)
  {
    if VerifyKeyword(input) { AcceptedIsPassphrase(input); }
    if IsPassphrase(input) { PassphraseAccepted(input); }
  }

  lemma AcceptedIsPassphrase(input: string)
    requires VerifyKeyword(input)
    ensures IsPassphrase(input)
  {
    var w0, s1, w1, s2, w2 := AcceptedParts(input);
    PartsArePassphrase(input, w0, s1, w1, s2, w2);
  }

  lemma AcceptedParts(input: string) returns (w0: string, s1: string, w1: string, s2: string, w2: string)
    requires VerifyKeyword(input)
    ensures PassphraseParts(Trim(input), w0, s1, w1, s2, w2)
  {
    var ws := Words(input);
    SplitWsNoSpace(Trim(input));
    s1, s2 := SplitThree(Trim(input));
    w0, w1, w2 := ws[0], ws[1], ws[2];
  }

  /** A split into three pieces is the pieces joined by two whitespace runs. */
  lemma SplitThree(t: string) returns (s1: string, s2: string)
    requires |SplitWs(t)| == 3
    ensures Separator(s1) && Separator(s2)
    ensures t == SplitWs(t)[0] + s1 + SplitWs(t)[1] + s2 + SplitWs(t)[2]
  {
    var ws := SplitWs(t);
    var t1, t2;
    s1, t1 := SplitWsHead(t);
    s2, t2 := SplitWsHead(t1);
    SplitWsOne(t2);
    assert SplitWs(t1)[0] == ws[1] && t2 == ws[2];
    assert t1 == ws[1] + s2 + ws[2];
    assert t == ws[0] + s1 + (ws[1] + s2 + ws[2]);
  }

  lemma PartsArePassphrase(input: string, w0: string, s1: string, w1: string, s2: string, w2: string)
    requires PassphraseParts(Trim(input), w0, s1, w1, s2, w2)
    ensures IsPassphrase(input)
  {
  }

  lemma PassphraseAccepted(input: string)
    requires IsPassphrase(input)
    ensures VerifyKeyword(input)
  {
    var w0, s1, w1, s2, w2 :| PassphraseParts(Trim(input), w0, s1, w1, s2, w2);
    ThreeWords(w0, s1, w1, s2, w2);
  }

  lemma ThreeWords(w0: string, s1: string, w1: string, s2: string, w2: string)
    requires NoSpace(w0) && NoSpace(w1) && NoSpace(w2) && Separator(s1) && Separator(s2)
    requires w1 != [] && w2 != []
    ensures SplitWs(w0 + s1 + w1 + s2 + w2) == [w0, w1, w2]
  {
    SplitWsWord(w2);
    SplitWsCons(w1, s2, w2);
    assert (w1 + s2 + w2)[0] == w1[0];
    SplitWsCons(w0, s1, w1 + s2 + w2);
    assert w0 + s1 + w1 + s2 + w2 == w0 + s1 + (w1 + s2 + w2);
  }

  /** An empty or blank phrase splits into one (empty) word and is refused. */
  lemma BlankPhraseRejected(input: string)
    requires IsBlank(input)
    ensures Words(input) == [""] && !VerifyKeyword(input)
  {
    assert SplitWs("") == [""];
  }

  /**
    Words joined by single spaces pass exactly when there are three of them with initials B, A
    and R: a fourth word, or a missing one, is refused whatever the initials.
  */
  lemma SingleSpacedPhrase(words: seq<string>)
    requires |words| >= 1
    requires forall i :: 0 <= i < |words| ==> words[i] != [] && NoSpace(words[i])
    ensures VerifyKeyword(Join(words, " ")) <==>
              |words| == 3 && InitialIs(words[0], 'B') && InitialIs(words[1], 'A') && InitialIs(words[2], 'R')
  {
    JoinedWordsTrimmed(words);
    SplitWsJoin(words);
    assert Words(Join(words, " ")) == words;
  }

  /** The example phrase is accepted. */
  lemma AcceptsBoldAmbitiousRascals()
    ensures VerifyKeyword(Join(["Bold", "Ambitious", "Rascals"], " "))
  {
    SingleSpacedPhrase(["Bold", "Ambitious", "Rascals"]);
  }

  /** A no-break space separates words like any other whitespace. */
  lemma AcceptsNoBreakSpace()
    ensures VerifyKeyword("Bold" + "\U{00A0}" + "Ambitious" + " " + "Rascals")
  {
    var w0, w1, w2 := "Bold", "Ambitious", "Rascals";
    var t := w0 + "\U{00A0}" + w1 + " " + w2;
    assert t[0] == 'B' && t[|t| - 1] == 's';
    TrimNoOuterSpace(t);
    ThreeWords(w0, "\U{00A0}", w1, " ", w2);
  }

  /** Letter case does not matter. */
  lemma AcceptsLowerCase()
    ensures VerifyKeyword(Join(["bold", "ambitious", "rascals"], " "))
  {
    SingleSpacedPhrase(["bold", "ambitious", "rascals"]);
  }

  /** The right initials in the wrong order are refused. */
  lemma RejectsWrongOrder()
    ensures !VerifyKeyword(Join(["Amber", "Bright", "Rain"], " "))
  {
    SingleSpacedPhrase(["Amber", "Bright", "Rain"]);
  }

  /** A fourth word is refused even when the first three would pass. */
  lemma RejectsFourthWord()
    ensures !VerifyKeyword(Join(["Bold", "Ambitious", "Rascals", "indeed"], " "))
  {
    SingleSpacedPhrase(["Bold", "Ambitious", "Rascals", "indeed"]);
  }

  // ---------------------------------------------------------------------------------------------
  // The claim workflow

  /** A roster entry as the page loaded it. */
  datatype Member = Member(
    id: string, firstName: string, lastName: string, email: Option<string>,
    classYear: string, isClaimed: bool)

  /** `!!member.email` */
  predicate HasEmail(m: Member) {
    m.email.Some? && m.email.value != ""
  }

  /** The outcome of an identity-provider call: the new or signed-in account, or the error's message. */
  datatype AuthResult = Signed(uid: string) | Failed(message: string)

  /** A call the page makes to the identity provider. */
  datatype AuthRequest = CreateAccount(email: string, password: string) | SignIn(email: string, password: string)

  const EmptyPhraseMessage := "The sacred phrase cannot be empty"
  const UnknownPhraseMessage := "The phrase you have entered is not recognized. Please try again."
  const MustVerifyMessage := "You must first prove your knowledge of our traditions"
  const MismatchMessage := "Passwords do not match"
  const ShortPasswordMessage := "Password must be at least 6 characters"
  const UsernameRequiredMessage := "Username is required"
  const EmailRequiredMessage := "Email is required"
  const PasswordRequiredMessage := "Password is required"
  const NotClaimedMessage := "This account hasn't been claimed yet. Please claim it first."
  const WrongAddKeywordMessage := "Please enter the correct verification keyword"
  const AddFailedMessage := "Failed to add member. Please try again."
  /** Stands for the message of the error a failed database write raises. */
  const WriteFailedMessage := "write failed"

  /** The claim / log-in form: `username`, `email`, `password` and `confirmPassword`. */
  datatype AccountForm = AccountForm(username: string, email: string, password: string, confirm: string)

  const BlankAccountForm := AccountForm("", "", "", "")

  /** The add-member form's names (`newMember`). */
  datatype NewMemberNames = NewMemberNames(firstName: string, lastName: string)

  /** The first check `handleClaimAccount` fails, in the order it makes them, or None when all pass. */
  function ClaimError(keywordVerified: bool, f: AccountForm): (r: Option<string>)
    ensures r.None? <==>
      keywordVerified && f.password == f.confirm && Utf16Length(f.password) >= 6 && !IsBlank(f.username) && !IsBlank(f.email)
  {
    if !keywordVerified then Some(MustVerifyMessage)
    else if f.password != f.confirm then Some(MismatchMessage)
    else if Utf16Length(f.password) < 6 then Some(ShortPasswordMessage)
    else if IsBlank(f.username) then Some(UsernameRequiredMessage)
    else if IsBlank(f.email) then Some(EmailRequiredMessage)
    else None
  }

  /** Each check is reported only when every earlier one passed. */
  lemma ClaimErrorOrder(kv: bool, f: AccountForm)
    ensures ClaimError(kv, f) == Some(MustVerifyMessage) <==> !kv
    ensures ClaimError(kv, f) == Some(MismatchMessage) <==> kv && f.password != f.confirm
    ensures ClaimError(kv, f) == Some(ShortPasswordMessage) <==> kv && f.password == f.confirm && Utf16Length(f.password) < 6
    ensures ClaimError(kv, f) == Some(UsernameRequiredMessage) <==>
              kv && f.password == f.confirm && Utf16Length(f.password) >= 6 && IsBlank(f.username)
    ensures ClaimError(kv, f) == Some(EmailRequiredMessage) <==>
              kv && f.password == f.confirm && Utf16Length(f.password) >= 6 && !IsBlank(f.username) && IsBlank(f.email)
  {
  }

  /** `.length` counts UTF-16 code units: four letters and one emoji make a long enough password. */
  lemma EmojiPasswordLongEnough()
    ensures ClaimError(true, AccountForm("u", "e", "abcd\U{1F600}", "abcd\U{1F600}")).None?
  {
    var p := "abcd\U{1F600}";
    assert Utf16Length(p[4..]) == 2;
    assert Utf16Length(p[3..]) == 3;
    assert Utf16Length(p[2..]) == 4;
    assert Utf16Length(p[1..]) == 5;
    BlankIffAllSpace("u");
    BlankIffAllSpace("e");
    assert !IsSpace("u"[0]) && !IsSpace("e"[0]);
  }

  /** The fields the claim merges into the member document. */
  function ClaimedMemberFields(uid: string, f: AccountForm): Doc {
    map["isClaimed" := Bool(true), "claimedBy" := Str(uid),
        "username" := Str(Trim(f.username)), "email" := Str(Trim(f.email))]
  }

  /** The claim marks the member claimed by the account, with the trimmed username and email. */
  lemma ClaimedMemberFieldsShape(uid: string, f: AccountForm)
    ensures var d := ClaimedMemberFields(uid, f);
      && d.Keys == {"isClaimed", "claimedBy", "username", "email"}
      && d["isClaimed"] == Bool(true) && d["claimedBy"] == Str(uid)
      && d["username"] == Str(Trim(f.username)) && d["email"] == Str(Trim(f.email))
  {
  }

  /** The user document the claim creates: names and class year copied from the member, never an admin. */
  function ClaimedUserRecord(m: Member, f: AccountForm): Doc {
    map["memberId" := Str(m.id), "firstName" := Str(m.firstName), "lastName" := Str(m.lastName),
        "username" := Str(Trim(f.username)), "classYear" := Str(m.classYear),
        "email" := Str(Trim(f.email)), "isAdmin" := Bool(false)]
  }

  /** The user record copies the member's names and class year, links the member and is never an admin. */
  lemma ClaimedUserRecordShape(m: Member, f: AccountForm)
    ensures var d := ClaimedUserRecord(m, f);
      && d.Keys == {"memberId", "firstName", "lastName", "username", "classYear", "email", "isAdmin"}
      && d["memberId"] == Str(m.id) && d["isAdmin"] == Bool(false)
      && d["firstName"] == Str(m.firstName) && d["lastName"] == Str(m.lastName)
      && d["classYear"] == Str(m.classYear)
      && d["username"] == Str(Trim(f.username)) && d["email"] == Str(Trim(f.email))
  {
  }

  /**
    The collections after the claim's two writes: the member update, then the user record, where
    the first write that fails ends the sequence and the writes before it stay.
  */
  function ClaimWrites(cols: Collections, m: Member, uid: string, f: AccountForm,
                       memberReachable: bool, userReachable: bool): Collections
  {
    if !memberReachable || m.id !in CollOf(cols, "members") then cols
    else
      var claimed := Merged(cols, "members", m.id, ClaimedMemberFields(uid, f));
      if !userReachable then claimed
      else Stored(claimed, "users", uid, ClaimedUserRecord(m, f))
  }

  /**
    A completed claim binds the two records to each other: the member is claimed by the new account
    and the account's user record names the member. Every other document is as before.
  */
  lemma ClaimBindsRecords(cols: Collections, m: Member, uid: string, f: AccountForm)
    requires m.id in CollOf(cols, "members")
    ensures var after := ClaimWrites(cols, m, uid, f, true, true);
      && CollOf(after, "members")[m.id]["isClaimed"] == Bool(true)
      && CollOf(after, "members")[m.id]["claimedBy"] == Str(uid)
      && CollOf(after, "users")[uid]["memberId"] == Str(m.id)
      && CollOf(after, "users")[uid]["isAdmin"] == Bool(false)
      && (forall id :: id != m.id && id in CollOf(cols, "members") ==> CollOf(after, "members")[id] == CollOf(cols, "members")[id])
      && (forall c :: c in cols && c != "members" && c != "users" ==> after[c] == cols[c])
  {
    var d := ClaimedMemberFields(uid, f);
    ClaimedMemberFieldsShape(uid, f);
    ClaimedUserRecordShape(m, f);
    var claimed := Merged(cols, "members", m.id, d);
    assert CollOf(claimed, "members")[m.id] == CollOf(cols, "members")[m.id] + d;
  }

  /**
    The writes are not atomic: when the user record cannot be written the member stays claimed by an
    account that has no user record.
  */
  lemma ClaimNotAtomic(cols: Collections, m: Member, uid: string, f: AccountForm)
    requires m.id in CollOf(cols, "members") && uid !in CollOf(cols, "users")
    ensures var after := ClaimWrites(cols, m, uid, f, true, false);
      && CollOf(after, "members")[m.id]["claimedBy"] == Str(uid)
      && uid !in CollOf(after, "users")
  {
    var d := ClaimedMemberFields(uid, f);
    ClaimedMemberFieldsShape(uid, f);
    assert CollOf(Merged(cols, "members", m.id, d), "members")[m.id] == CollOf(cols, "members")[m.id] + d;
  }

  /** The claim's writes against the store. */
  method WriteClaim(db: Db, m: Member, uid: string, f: AccountForm, memberReachable: bool, userReachable: bool)
    returns (ok: bool)
    modifies db
    ensures ok == (memberReachable && m.id in old(db.Coll("members")) && userReachable)
    ensures db.collections == ClaimWrites(old(db.collections), m, uid, f, memberReachable, userReachable)
  {
    ok := db.UpdateDoc("members", m.id, ClaimedMemberFields(uid, f), memberReachable);
    if ok {
      ok := db.SetDoc("users", uid, ClaimedUserRecord(m, f), userReachable);
    }
  }

  /** The record `handleAddMember` inserts. */
  function NewMemberRecord(names: NewMemberNames, classYear: string): Doc {
    map["firstName" := Str(Trim(names.firstName)), "lastName" := Str(Trim(names.lastName)),
        "classYear" := Str(classYear), "isClaimed" := Bool(false)]
  }

  /** An added member has the trimmed names and the panel's class year, and is unclaimed. */
  lemma NewMemberRecordShape(names: NewMemberNames, classYear: string)
    ensures var d := NewMemberRecord(names, classYear);
      && d.Keys == {"firstName", "lastName", "classYear", "isClaimed"}
      && d["firstName"] == Str(Trim(names.firstName)) && d["lastName"] == Str(Trim(names.lastName))
      && d["classYear"] == Str(classYear) && d["isClaimed"] == Bool(false)
  {
  }

  /** The member-selection panel of one class year. */
  class MemberPanel {
    const classYear: string
    var selected: Option<Member>
    var form: AccountForm
    var keyword: string
    var error: string
    var showKeywordVerification: bool
    var keywordVerified: bool
    var showAddMemberForm: bool
    var newMember: NewMemberNames
    var newMemberKeyword: string
    /** Every call made to the identity provider, in order. */
    var authRequests: seq<AuthRequest>
    /** Whether `onLoginSuccess` has been called. */
    var loggedIn: bool

    /** The challenge is never open once the phrase is verified. */
    ghost predicate Valid()
      reads this
    {
      !(showKeywordVerification && keywordVerified)
    }

    constructor (classYear: string)
      ensures Valid() && this.classYear == classYear
      ensures selected.None? && !keywordVerified && !showKeywordVerification && !showAddMemberForm
      ensures form == BlankAccountForm && keyword == "" && error == ""
      ensures newMember == NewMemberNames("", "") && newMemberKeyword == ""
      ensures authRequests == [] && !loggedIn
    {
      this.classYear := classYear;
      selected := None;
      form := BlankAccountForm;
      keyword, error := "", "";
      showKeywordVerification, keywordVerified, showAddMemberForm := false, false, false;
      newMember := NewMemberNames("", "");
      newMemberKeyword := "";
      authRequests := [];
      loggedIn := false;
    }

    /** The passphrase challenge is on screen. */
    predicate ShowsChallenge()
      reads this
    {
      selected.Some? && !selected.value.isClaimed && showKeywordVerification
    }

    /** The "Start Claim Process" button is on screen. */
    predicate ShowsStartButton()
      reads this
    {
      selected.Some? && !selected.value.isClaimed && !showKeywordVerification && !keywordVerified
    }

    /** The account form is on screen (a log-in form for a claimed member, a claim form otherwise). */
    predicate ShowsAccountForm()
      reads this
    {
      selected.Some? && (selected.value.isClaimed || (!selected.value.isClaimed && keywordVerified))
    }

    /** The account form on screen is the claim form (username, email, password and confirmation). */
    predicate ShowsClaimForm()
      reads this
    {
      ShowsAccountForm() && !selected.value.isClaimed
    }

    /** The account form on screen is the log-in form (password only). */
    predicate ShowsLoginForm()
      reads this
    {
      ShowsAccountForm() && selected.value.isClaimed
    }

    /**
      A claimed member is offered the log-in form and nothing else: no challenge, no start button
      and no claim form, whatever the verification state.
    */
    lemma ClaimedMemberSeesOnlyLogin()
      requires selected.Some?
      ensures ShowsLoginForm() <==> selected.value.isClaimed
      ensures selected.value.isClaimed ==> !ShowsClaimForm() && !ShowsChallenge() && !ShowsStartButton()
      ensures ShowsClaimForm() <==> !selected.value.isClaimed && keywordVerified
    {
    }

    /** For an unclaimed member exactly one of the challenge, the start button and the claim form shows. */
    lemma ExactlyOnePanel()
      requires Valid() && selected.Some? && !selected.value.isClaimed
      ensures ShowsChallenge() || ShowsStartButton() || ShowsAccountForm()
      ensures !(ShowsChallenge() && ShowsStartButton())
      ensures !(ShowsChallenge() && ShowsAccountForm())
      ensures !(ShowsStartButton() && ShowsAccountForm())
    {
    }

    /** `handleMemberSelection`: the verification state carries over to the newly selected member. */
    method SelectMember(m: Member)
      requires Valid()
      modifies this
      ensures Valid() && selected == Some(m)
      ensures keywordVerified == old(keywordVerified) && showKeywordVerification == old(showKeywordVerification)
      ensures form == old(form) && keyword == old(keyword) && error == old(error)
      ensures authRequests == old(authRequests) && loggedIn == old(loggedIn)
      ensures showAddMemberForm == old(showAddMemberForm) && newMember == old(newMember) && newMemberKeyword == old(newMemberKeyword)
    {
      selected := Some(m);
    }

    /** Typing into the claim or log-in form. */
    method EditAccountForm(f: AccountForm)
      requires Valid()
      modifies this
      ensures Valid() && form == f
      ensures selected == old(selected) && keyword == old(keyword) && error == old(error)
      ensures keywordVerified == old(keywordVerified) && showKeywordVerification == old(showKeywordVerification)
      ensures authRequests == old(authRequests) && loggedIn == old(loggedIn)
      ensures showAddMemberForm == old(showAddMemberForm) && newMember == old(newMember) && newMemberKeyword == old(newMemberKeyword)
    {
      form := f;
    }

    /** Typing into the challenge. */
    method EditKeyword(k: string)
      requires Valid()
      modifies this
      ensures Valid() && keyword == k
      ensures selected == old(selected) && form == old(form) && error == old(error)
      ensures keywordVerified == old(keywordVerified) && showKeywordVerification == old(showKeywordVerification)
      ensures authRequests == old(authRequests) && loggedIn == old(loggedIn)
      ensures showAddMemberForm == old(showAddMemberForm) && newMember == old(newMember) && newMemberKeyword == old(newMemberKeyword)
    {
      keyword := k;
    }

    /** `handleKeywordVerification` */
    method KeywordVerification()
      requires Valid()
      modifies this
      ensures Valid()
      ensures IsBlank(keyword) ==>
        error == EmptyPhraseMessage && keywordVerified == old(keywordVerified)
        && showKeywordVerification == old(showKeywordVerification)
      ensures !IsBlank(keyword) && !VerifyKeyword(keyword) ==>
        error == UnknownPhraseMessage && keywordVerified == old(keywordVerified)
        && showKeywordVerification == old(showKeywordVerification)
      ensures !IsBlank(keyword) && VerifyKeyword(keyword) ==>
        error == "" && keywordVerified && !showKeywordVerification
      ensures selected == old(selected) && keyword == old(keyword) && form == old(form)
      ensures authRequests == old(authRequests) && loggedIn == old(loggedIn)
      ensures showAddMemberForm == old(showAddMemberForm) && newMember == old(newMember) && newMemberKeyword == old(newMemberKeyword)
    {
      error := "";
      if IsBlank(keyword) {
        error := EmptyPhraseMessage;
        return;
      }
      if VerifyKeyword(keyword) {
        showKeywordVerification := false;
        keywordVerified := true;
        error := "";
      } else {
        error := UnknownPhraseMessage;
      }
    }

    /** The challenge's Cancel button. */
    method CancelChallenge()
      requires Valid()
      modifies this
      ensures Valid() && !showKeywordVerification
      ensures selected == old(selected) && keywordVerified == old(keywordVerified) && error == old(error)
      ensures form == old(form) && keyword == old(keyword)
      ensures authRequests == old(authRequests) && loggedIn == old(loggedIn)
      ensures showAddMemberForm == old(showAddMemberForm) && newMember == old(newMember) && newMemberKeyword == old(newMemberKeyword)
    {
      showKeywordVerification := false;
    }

    /** `handleStartClaimProcess` */
    method StartClaimProcess()
      requires Valid()
      modifies this
      ensures Valid()
      ensures old(selected).None? || old(selected).value.isClaimed ==>
        && form == old(form) && keyword == old(keyword) && error == old(error)
        && keywordVerified == old(keywordVerified) && showKeywordVerification == old(showKeywordVerification)
      ensures old(selected).Some? && !old(selected).value.isClaimed ==>
        && form == BlankAccountForm && keyword == "" && error == ""
        && !keywordVerified && showKeywordVerification
      ensures selected == old(selected) && authRequests == old(authRequests) && loggedIn == old(loggedIn)
      ensures showAddMemberForm == old(showAddMemberForm) && newMember == old(newMember) && newMemberKeyword == old(newMemberKeyword)
    {
      if selected.None? || selected.value.isClaimed {
        return;
      }
      form := BlankAccountForm;
      keyword, error := "", "";
      keywordVerified := false;
      showKeywordVerification := true;
    }

    /**
      `handleClaimAccount`: the ordered checks, then the account creation and the claim's writes.
      `signUp` is the identity provider's answer; the two flags are the outcomes of the two writes.
    */
    method ClaimAccount(db: Db, signUp: AuthResult, memberReachable: bool, userReachable: bool)
      requires Valid()
      modifies this, db
      ensures Valid() && selected == old(selected) && form == old(form)
      ensures keywordVerified == old(keywordVerified)
      // Nothing is written, and no account is requested, unless every check passed.
      ensures db.collections != old(db.collections) || authRequests != old(authRequests) ==>
        selected.Some? && ClaimError(keywordVerified, form).None?
      ensures selected.None? ==>
        error == "" && db.collections == old(db.collections) && authRequests == old(authRequests)
        && showKeywordVerification == old(showKeywordVerification) && loggedIn == old(loggedIn)
      ensures selected.Some? && ClaimError(keywordVerified, form).Some? ==>
        && error == ClaimError(keywordVerified, form).value
        && db.collections == old(db.collections) && authRequests == old(authRequests) && loggedIn == old(loggedIn)
        && showKeywordVerification == (old(showKeywordVerification) || !keywordVerified)
      ensures selected.Some? && ClaimError(keywordVerified, form).None? ==>
        && authRequests == old(authRequests) + [CreateAccount(form.email, form.password)]
        && showKeywordVerification == old(showKeywordVerification)
        && match signUp
           case Failed(msg) =>
             error == msg && db.collections == old(db.collections) && loggedIn == old(loggedIn)
           case Signed(uid) =>
             && db.collections == ClaimWrites(old(db.collections), selected.value, uid, form, memberReachable, userReachable)
             && var done := memberReachable && selected.value.id in old(db.Coll("members")) && userReachable;
                if done then error == "" && loggedIn else error == WriteFailedMessage && loggedIn == old(loggedIn)
      ensures showAddMemberForm == old(showAddMemberForm) && newMember == old(newMember) && newMemberKeyword == old(newMemberKeyword)
      ensures keyword == old(keyword)
    {
      error := "";
      if selected.None? {
        return;
      }
      var check := ClaimError(keywordVerified, form);
      if check.Some? {
        error := check.value;
        if !keywordVerified {
          showKeywordVerification := true;
        }
        return;
      }
      authRequests := authRequests + [CreateAccount(form.email, form.password)];
      match signUp {
        case Failed(msg) =>
          error := msg;
        case Signed(uid) =>
          var ok := WriteClaim(db, selected.value, uid, form, memberReachable, userReachable);
          if ok {
            loggedIn := true;
          } else {
            error := WriteFailedMessage;
          }
      }
    }

    /** `handleLoginToClaimedAccount` */
    method LoginToClaimedAccount(signIn: AuthResult)
      requires Valid()
      modifies this
      ensures Valid()
      ensures old(selected).None? ==> error == "" && authRequests == old(authRequests) && loggedIn == old(loggedIn)
      ensures old(selected).Some? && form.password == "" ==>
        error == PasswordRequiredMessage && authRequests == old(authRequests) && loggedIn == old(loggedIn)
      ensures old(selected).Some? && form.password != "" && !HasEmail(old(selected).value) ==>
        error == NotClaimedMessage && authRequests == old(authRequests) && loggedIn == old(loggedIn)
      ensures old(selected).Some? && form.password != "" && HasEmail(old(selected).value) ==>
        && authRequests == old(authRequests) + [SignIn(old(selected).value.email.value, form.password)]
        && match signIn
           case Signed(_) => error == "" && loggedIn
           case Failed(msg) => error == msg && loggedIn == old(loggedIn)
      ensures selected == old(selected) && form == old(form)
      ensures keywordVerified == old(keywordVerified) && showKeywordVerification == old(showKeywordVerification)
      ensures showAddMemberForm == old(showAddMemberForm) && newMember == old(newMember) && newMemberKeyword == old(newMemberKeyword)
      ensures keyword == old(keyword)
    {
      error := "";
      if selected.None? {
        return;
      }
      if form.password == "" {
        error := PasswordRequiredMessage;
        return;
      }
      var m := selected.value;
      if !HasEmail(m) {
        error := NotClaimedMessage;
        return;
      }
      authRequests := authRequests + [SignIn(m.email.value, form.password)];
      match signIn {
        case Signed(_) => loggedIn := true;
        case Failed(msg) => error := msg;
      }
    }

    /**
      The account form's submit: a claimed member's form logs in, any other member's form claims.
      So a claimed member is never claimed again: nothing is written and no account is created.
    */
    method SubmitAccountForm(db: Db, signUp: AuthResult, signIn: AuthResult, memberReachable: bool, userReachable: bool)
      requires Valid() && ShowsAccountForm()
      modifies this, db
      ensures Valid() && selected == old(selected) && form == old(form)
      ensures selected.value.isClaimed ==>
        && db.collections == old(db.collections)
        && (authRequests == old(authRequests) ||
            (HasEmail(selected.value) && authRequests == old(authRequests) + [SignIn(selected.value.email.value, form.password)]))
      ensures !selected.value.isClaimed ==>
        authRequests == old(authRequests) || authRequests == old(authRequests) + [CreateAccount(form.email, form.password)]
      ensures db.collections != old(db.collections) ==>
        !selected.value.isClaimed && ClaimError(keywordVerified, form).None?
    {
      if selected.value.isClaimed {
        LoginToClaimedAccount(signIn);
      } else {
        ClaimAccount(db, signUp, memberReachable, userReachable);
      }
    }

    /** The "Add Missing Member" button toggles the add-member form; its Cancel button closes it. */
    method SetAddMemberForm(show: bool)
      requires Valid()
      modifies this
      ensures Valid() && showAddMemberForm == show
      ensures newMember == old(newMember) && newMemberKeyword == old(newMemberKeyword) && error == old(error)
      ensures keywordVerified == old(keywordVerified) && showKeywordVerification == old(showKeywordVerification)
      ensures selected == old(selected) && form == old(form) && keyword == old(keyword)
      ensures authRequests == old(authRequests) && loggedIn == old(loggedIn)
    {
      showAddMemberForm := show;
    }

    /** Typing into the add-member form. */
    method EditNewMember(names: NewMemberNames, phrase: string)
      requires Valid()
      modifies this
      ensures Valid() && newMember == names && newMemberKeyword == phrase
      ensures selected == old(selected) && error == old(error) && showAddMemberForm == old(showAddMemberForm)
      ensures keywordVerified == old(keywordVerified) && showKeywordVerification == old(showKeywordVerification)
      ensures form == old(form) && keyword == old(keyword)
      ensures authRequests == old(authRequests) && loggedIn == old(loggedIn)
    {
      newMember, newMemberKeyword := names, phrase;
    }

    /**
      `handleAddMember`: nothing is inserted unless the form's phrase passes; the new member has the
      trimmed names, this panel's class year and is unclaimed. `newId` is the id the store generates.
    */
    method AddMember(db: Db, newId: string, reachable: bool)
      requires Valid() && newId !in db.Coll("members")
      modifies this, db
      ensures Valid()
      ensures !VerifyKeyword(old(newMemberKeyword)) || !reachable ==>
        && error == (if !VerifyKeyword(old(newMemberKeyword)) then WrongAddKeywordMessage else AddFailedMessage)
        && db.collections == old(db.collections)
        && newMember == old(newMember) && newMemberKeyword == old(newMemberKeyword)
        && showAddMemberForm == old(showAddMemberForm)
      ensures VerifyKeyword(old(newMemberKeyword)) && reachable ==>
        && error == ""
        && db.collections == Stored(old(db.collections), "members", newId, NewMemberRecord(old(newMember), classYear))
        && newMember == NewMemberNames("", "") && newMemberKeyword == "" && !showAddMemberForm
      ensures selected == old(selected) && form == old(form) && authRequests == old(authRequests)
      ensures keywordVerified == old(keywordVerified) && showKeywordVerification == old(showKeywordVerification)
      ensures loggedIn == old(loggedIn)
      ensures keyword == old(keyword)
    {
      error := "";
      if !VerifyKeyword(newMemberKeyword) {
        error := WrongAddKeywordMessage;
        return;
      }
      var ok := db.AddDoc("members", newId, NewMemberRecord(newMember, classYear), reachable);
      if ok {
        newMember, newMemberKeyword := NewMemberNames("", ""), "";
        showAddMemberForm := false;
      } else {
        error := AddFailedMessage;
      }
    }
  }
}

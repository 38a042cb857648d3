# barchive, modelled in Dafny

barchive is a class-reunion site built with Next.js on a hosted document database, an identity
provider, an image host and a geocoder. These modules model the logic inside its pages and
components, one module per source file. Each module holds that file's own decisions:

- **Claiming and signing in.** The three-word "B… A… R…" passphrase, the ordered checks before a
  roster entry is claimed, and the two non-atomic writes of a claim. Also the sign-in step machine
  and the administrator access decision.
- **The roster.** Bulk name parsing, class years kept sorted and free of duplicates, and the
  member/user profile merge. Also the directory sort (class year descending, then last name) and
  the grouping by class year.
- **Media URLs.** The two public-id extractors, the PDF preview rewrite and the batch delete
  counters. Also the HEIC and size checks and the multi-image staging and upload accounting.
- **Locations.** The normalisation of stored locations, the geocoder guard and the location
  picker.
- **Small list and state operations.** Memory link lists, the wrap-around image viewer, the home
  page's post list, the post editor's validation, and the markdown converter of the rich-text
  editor.

**How the model is organised.**

- **Pure code** (expressions, `filter`/`map`/`sort`, regular expressions) is modelled as
  functions, with lemmas for what the code promises.
- **Components that change state** are modelled as classes:
  - React state becomes fields;
  - handlers become methods with `modifies` clauses;
  - loops become `while` loops with invariants, proved against the functions that specify them.
- **The database** is the `Firestore.Db` class, a map from collection names to maps from ids to
  documents.
- **Documents** hold dynamically typed `JsValues.JsValue`s, with JavaScript's truthiness and `||`.
- **Everything outside the page is a parameter:**
  - network outcomes;
  - the ids the store generates;
  - the identity provider's answers;
  - the geocoder's answers;
  - `window.confirm`.

  A write's success is a `reachable` flag. A batch of calls takes one outcome per item.

**JavaScript semantics.**

- **`JsString`** models the string operations:
  - `trim`, `split` on a character or on `/\s+/`, `indexOf`, first-occurrence `replace`, `join`
    and `toLowerCase`;
  - `\s` and `trim` act on ECMAScript's WhiteSpace and LineTerminator characters, the no-break space, the byte order mark and the Unicode space separators among them;
  - `.length` counts UTF-16 code units, so a character outside the Basic Multilingual Plane counts twice;
  - `localeCompare` and the default sort order are modelled as lexicographic order on characters.
- **`Sorting`** models `Array.prototype.sort` with a comparator as a stable insertion sort.
- **Regular expressions** are modelled by the scan a backtracking matcher performs:
  - lazy groups;
  - leftmost matches;
  - `^`/`$` per line under the `m` flag;
  - `.` stopping at line terminators.

## Model

| member | source | states |
|---|---|---|
| Firestore.WritesTouchOneDocument | src/app/page.tsx:147-173 | a write touches one document of one collection: stored as given, merged field by field over the old one, or gone; every other document and collection stays |
| Firestore.DeleteUndoesAdd | src/components/MemberSelection.tsx:274-280 | deleting a document just added under a fresh id gives every collection back |
| Firestore.Db.constructor | src/components/AdminDashboard.tsx:136 | the store starts from the given collections |
| Firestore.Db.UpdateDoc | src/components/MemberSelection.tsx:202-208 | `updateDoc` succeeds exactly when the round trip goes through and the document exists, and then merges the fields into it; otherwise nothing changes |
| Firestore.Db.SetDoc | src/components/MemberSelection.tsx:211-220 | `setDoc` creates or overwrites the document when the round trip goes through; otherwise nothing changes |
| Firestore.Db.AddDoc | src/components/MemberSelection.tsx:274-280 | `addDoc` stores the document under the fresh id when the round trip goes through; otherwise nothing changes |
| Firestore.Db.DeleteDoc | src/app/page.tsx:147 | `deleteDoc` removes the document (a missing one is no error) when the round trip goes through; otherwise nothing changes |
| JsString.IndexOfSpec | src/app/newsletters/page.tsx:210 | the search a first-occurrence `replace` relies on finds an occurrence with none earlier, and fails exactly when there is none |
| JsString.ReplaceFirstSpec | src/app/newsletters/page.tsx:210-216 | a string pattern in `replace` rewrites only its first occurrence; without one the text is unchanged |
| JsString.TrimSpec | src/components/MemberSelection.tsx:112 | `trim()` removes exactly a whitespace prefix and suffix, leaving neither |
| JsString.Utf16Length | src/components/MemberSelection.tsx:176 | `.length` counts UTF-16 code units: at least one and at most two per character, and exactly one per character when none lies outside the Basic Multilingual Plane |
| JsString.Utf16LengthAppend | src/components/LocationPicker.tsx:59 | the `.length` of a concatenation is the sum of the parts' lengths |
| JsString.TrimIdempotent | src/components/MemberSelection.tsx:205-206 | trimming twice is trimming once |
| JsString.BlankIffAllSpace | src/components/MemberSelection.tsx:112 | `!s.trim()` holds exactly for empty and all-whitespace text |
| JsString.SplitWsNoSpace | src/components/MemberSelection.tsx:92 | no piece of `split(/\s+/)` holds whitespace |
| JsString.SplitWsJoin | src/components/AdminDashboard.tsx:173-178 | `split(/\s+/)` undoes joining non-empty words with single spaces |
| JsString.SplitOnSpec | src/components/AdminDashboard.tsx:168 | no piece of `split(",")` holds a comma |
| JsString.SplitOnJoin | src/components/AdminDashboard.tsx:168 | `split(",")` undoes joining comma-free pieces with commas |
| JsString.JoinSplitOn | src/components/AdminDashboard.tsx:168 | joining the pieces of `split(",")` with commas restores the text |
| JsString.LessIrreflexive | src/app/members/page.tsx:112-116 | the order standing for `localeCompare` never puts a text before itself |
| JsString.LessTransitive | src/app/members/page.tsx:112-116 | the order standing for `localeCompare` is transitive |
| JsString.LessTotal | src/app/members/page.tsx:112-116 | of two different texts one comes before the other |
| JsString.DescendingStrictly | src/app/memories/page.tsx:148 | a duplicate-free list sorted with `b.localeCompare(a)` is strictly descending |
| Cloudinary.VersionSegmentSpec | src/lib/cloudinary.ts:11 | `(?:v\d+\/)?`: a `v`, one or more digits and a slash are found exactly when present, and there is at most one such segment |
| Cloudinary.MatchIdGroupLazy | src/lib/cloudinary.ts:11 | the lazy group `(.+?)` ends at the first position where the optional `.extension` and the end of text can follow, and there is no match exactly when no position works |
| Cloudinary.MatchIdGroupTotal | src/lib/cloudinary.ts:11 | any non-empty remainder without line terminators yields a group |
| Cloudinary.DropsLastExtension | src/lib/cloudinary.ts:11 | `name.ext`, with no dot in `ext`, yields `name`: only the last extension is dropped |
| Cloudinary.KeepsWholeRemainder | src/lib/cloudinary.ts:11 | without a final `.extension` the whole remainder is the id |
| Cloudinary.VersionNotInId | src/lib/cloudinary.ts:11 | a version segment in front of a matching remainder is never part of the id |
| Cloudinary.ExtractPublicId | src/lib/cloudinary.ts:8-17 | `extractPublicId`: a found id is never empty; None stands for `null` |
| Cloudinary.ExtractNeedsMarker | src/lib/cloudinary.ts:11-12 | an id is found only after an `/upload/` with at least one character after it |
| Cloudinary.ExtractFindsId | src/lib/cloudinary.ts:11-12 | in a URL without line terminators an id is found exactly when some `/upload/` has a character after it |
| Cloudinary.FirstMarkerDecides | src/lib/cloudinary.ts:11-12 | the leftmost `/upload/` decides the id when the rest of the pattern matches there |
| Cloudinary.VersionedUrl | src/lib/cloudinary.ts:3-12 | a delivery URL `…/upload/v<digits>/<path>.<ext>` yields `<path>` |
| Cloudinary.SucceededAtMostRequests | src/lib/cloudinary.ts:55-76 | successes never exceed the delete requests sent, nor the number of URLs |
| Cloudinary.RequestsAreIds | src/lib/cloudinary.ts:61-64 | every delete request carries a non-empty id extracted from one of the URLs |
| Cloudinary.DeleteImages | src/lib/cloudinary.ts:55-76 | `deleteCloudinaryImages`: success + failed equals the number of URLs; success counts the URLs with an id whose delete succeeded; the requests are the extracted ids in URL order |
| ImageUtils.HeicIgnoresCase | src/lib/imageUtils.ts:6-19 | `isHEICFile` does not depend on the letter case of the MIME type or the name |
| ImageUtils.JpegName | src/lib/imageUtils.ts:37 | a name ending in `.heic`/`.heif` in any case has those five characters replaced by `.jpg`; any other name is unchanged |
| ImageUtils.ConvertedNotHeic | src/lib/imageUtils.ts:34-44 | the converted file (type `image/jpeg`, `.jpg` name) is not a HEIC file |
| ImageUtils.ProcessImageFile | src/lib/imageUtils.ts:56-64 | `processImageFile`: a non-HEIC file is returned as it is; a result is never HEIC; it fails exactly when a HEIC file's conversion throws |
| ImageUtils.ProcessIdempotent | src/lib/imageUtils.ts:56-64 | processing a processed file again changes nothing |
| ImageUtils.NatToString | src/lib/imageUtils.ts:96 | `${n}` for a whole number: a non-empty run of decimal digits that denotes `n` |
| ImageUtils.NatToStringInjective | src/lib/imageUtils.ts:96 | different numbers print as different texts |
| ImageUtils.ValidateImageFile | src/lib/imageUtils.ts:69-100 | `validateImageFile`: no error exactly when the type (MIME list or name extension, any case) is valid and the size is at most `maxSizeMB * 1024 * 1024`; the type error comes first, then the size error |
| ImageUtils.SizeBoundary | src/lib/imageUtils.ts:93-97 | with the default 8 MB, a file of 8388608 bytes passes and one of 8388609 bytes is refused |
| ImageUtils.HeicNameIsValidType | src/lib/imageUtils.ts:16-17 | every name the HEIC test accepts also passes the type test of lines 84-86 |
| ImageUtils.ExtractCloudinaryPublicId | src/lib/imageUtils.ts:105-120 | `extractCloudinaryPublicId`: a found id is never empty |
| ImageUtils.ImageIdNeedsExtension | src/lib/imageUtils.ts:109-115 | only a URL ending in `.` and a listed image extension, in any case, yields an id |
| ImageUtils.ImageGroupExtension | src/lib/imageUtils.ts:110 | where the image pattern's group ends, a dot and a listed extension end the text and no line terminator precedes |
| ImageUtils.ImageGroupEndFrom | src/lib/imageUtils.ts:110 | conversely, wherever at least one character without a line terminator is followed by a dot and a listed extension ending the text, the group ends there |
| ImageUtils.ImageGroupIsIdGroup | src/lib/imageUtils.ts:110 | on lower-case text the image pattern's group is the group of `extractPublicId`'s pattern |
| ImageUtils.ExtractorsAgree | src/lib/imageUtils.ts:110 | both extractors give the same id whenever the image pattern matches without backtracking over a version segment |
| ImageUtils.ImageVersionedUrl | src/lib/imageUtils.ts:107-113 | a URL `…/upload/v<digits>/<path>.<ext>` with a listed extension yields `<path>` as written, in any letter case |
| MemberSelection.VerifyKeyword | src/components/MemberSelection.tsx:91-106 | `verifyKeyword`: the phrase, trimmed and split on whitespace runs, has exactly three words whose upper-cased initials are B, A and R in that order |
| MemberSelection.VerifyKeywordIffPassphrase | src/components/MemberSelection.tsx:91-106 | `verifyKeyword` holds exactly when the trimmed phrase is three whitespace-free words separated by whitespace runs whose upper-cased initials are B, A and R in that order (both directions) |
| MemberSelection.BlankPhraseRejected | src/components/MemberSelection.tsx:92-97 | an empty or blank phrase splits into one empty word and is refused |
| MemberSelection.SingleSpacedPhrase | src/components/MemberSelection.tsx:91-106 | words joined by single spaces pass exactly when there are three of them with initials B, A, R; a missing or a fourth word is refused whatever the initials |
| MemberSelection.AcceptsBoldAmbitiousRascals | src/components/MemberSelection.tsx:100-105 | "Bold Ambitious Rascals" is accepted |
| MemberSelection.AcceptsNoBreakSpace | src/components/MemberSelection.tsx:91-106 | "Bold\u00A0Ambitious Rascals" is accepted: a no-break space separates words |
| MemberSelection.AcceptsLowerCase | src/components/MemberSelection.tsx:100 | initials are compared after upper-casing, so a lower-case phrase is accepted |
| MemberSelection.RejectsWrongOrder | src/components/MemberSelection.tsx:101-105 | the right initials in the wrong order are refused |
| MemberSelection.RejectsFourthWord | src/components/MemberSelection.tsx:95-97 | a fourth word is refused even when the first three would pass |
| MemberSelection.ClaimError | src/components/MemberSelection.tsx:165-188 | the claim's checks all pass exactly when the phrase was verified, the passwords match, the password's `.length` (UTF-16 code units) is at least 6 and username and email are not blank |
| MemberSelection.ClaimErrorOrder | src/components/MemberSelection.tsx:165-188 | each check's message is reported exactly when it fails and every earlier check passed |
| MemberSelection.EmojiPasswordLongEnough | src/components/MemberSelection.tsx:176 | "abcd😀" passes the length check: its `.length` is 6 although it has five characters |
| MemberSelection.ClaimedMemberFieldsShape | src/components/MemberSelection.tsx:202-208 | the member update sets exactly `isClaimed` true, `claimedBy` the new uid and the trimmed username and email |
| MemberSelection.ClaimedUserRecordShape | src/components/MemberSelection.tsx:211-220 | the user record copies the member's id, names and class year, holds the trimmed username and email and is not an admin |
| MemberSelection.ClaimBindsRecords | src/components/MemberSelection.tsx:202-220 | after both writes the member is claimed by the new account and that account's user record names the member; every other document is unchanged |
| MemberSelection.ClaimNotAtomic | src/components/MemberSelection.tsx:202-220 | when only the first write succeeds the member stays claimed by an account that has no user record |
| MemberSelection.WriteClaim | src/components/MemberSelection.tsx:202-220 | the two writes in order: success exactly when both documents could be written, and the store is as `ClaimWrites` describes |
| MemberSelection.NewMemberRecordShape | src/components/MemberSelection.tsx:274-280 | an added member has the trimmed names, the panel's class year and `isClaimed` false |
| MemberSelection.MemberPanel.constructor | src/components/MemberSelection.tsx:41-59 | the initial state: nothing selected, empty form, phrase not verified, no panel shown |
| MemberSelection.MemberPanel.ExactlyOnePanel | src/components/MemberSelection.tsx:525-594 | for an unclaimed member exactly one of the challenge, the start button and the claim form is shown |
| MemberSelection.MemberPanel.ClaimedMemberSeesOnlyLogin | src/components/MemberSelection.tsx:525-599 | a selected member gets the log-in form exactly when claimed; a claimed member sees no challenge, no start button and no claim form; the claim form shows exactly for an unclaimed member whose phrase is verified |
| MemberSelection.MemberPanel.ShowsChallenge | src/components/MemberSelection.tsx:525 | the passphrase challenge renders for a selected, unclaimed member while `showKeywordVerification` is set |
| MemberSelection.MemberPanel.ShowsStartButton | src/components/MemberSelection.tsx:580-582 | the "Start Claim Process" button renders for a selected, unclaimed member with the challenge closed and the phrase not yet verified |
| MemberSelection.MemberPanel.ShowsAccountForm | src/components/MemberSelection.tsx:593-594 | the account form renders for a claimed member (log in) or for an unclaimed one whose phrase is verified (claim) |
| MemberSelection.MemberPanel.SelectMember | src/components/MemberSelection.tsx:128-140 | selecting a member changes only the selection; the verification state carries over |
| MemberSelection.MemberPanel.EditAccountForm | src/components/MemberSelection.tsx:603-660 | typing into the claim or log-in form replaces the form's fields and changes nothing else |
| MemberSelection.MemberPanel.EditKeyword | src/components/MemberSelection.tsx:546 | typing into the challenge replaces the phrase and changes nothing else |
| MemberSelection.MemberPanel.KeywordVerification | src/components/MemberSelection.tsx:108-126 | a blank phrase sets the empty-phrase error, a wrong one the not-recognised error, both leaving `keywordVerified` as it was; a passing one sets it, hides the challenge and clears the error |
| MemberSelection.MemberPanel.CancelChallenge | src/components/MemberSelection.tsx:570 | the challenge's Cancel hides it and changes nothing else |
| MemberSelection.MemberPanel.StartClaimProcess | src/components/MemberSelection.tsx:142-156 | a no-op without a selected member or for a claimed one; otherwise clears the form, phrase and error, resets `keywordVerified` and shows the challenge |
| MemberSelection.MemberPanel.ClaimAccount | src/components/MemberSelection.tsx:158-229 | nothing is written and no account requested unless every check passes; the first failing check's message is shown (an unverified phrase also reopens the challenge); otherwise an account is requested with the form's email and password and the writes follow |
| MemberSelection.MemberPanel.LoginToClaimedAccount | src/components/MemberSelection.tsx:231-259 | an empty password or a member without an email gives its error and no sign-in; otherwise a sign-in is requested with the member's email |
| MemberSelection.MemberPanel.SubmitAccountForm | src/components/MemberSelection.tsx:593-599 | submitting the form of a claimed member only logs in: the store is unchanged and at most a sign-in is requested, never an account; the store changes only for an unclaimed member whose claim checks all pass |
| MemberSelection.MemberPanel.SetAddMemberForm | src/components/MemberSelection.tsx:332 | the add-member button toggles the form and its Cancel closes it, nothing else changes |
| MemberSelection.MemberPanel.EditNewMember | src/components/MemberSelection.tsx:365-398 | typing into the add-member form replaces the names and its phrase and changes nothing else |
| MemberSelection.MemberPanel.AddMember | src/components/MemberSelection.tsx:261-292 | nothing is inserted unless the form's phrase passes; on success the new member document is added, the form is reset and closed; a failed write shows the add-failed error |
| AdminDashboard.ParseMemberNames | src/components/AdminDashboard.tsx:166-189 | `parseMemberNames`: one record per non-blank comma-separated piece, in order |
| AdminDashboard.NamePiecesSpec | src/components/AdminDashboard.tsx:167-170 | a piece is kept exactly when its trim is non-empty; kept pieces are trimmed and hold no comma |
| AdminDashboard.ParseJoinedNames | src/components/AdminDashboard.tsx:166-189 | names entered as a comma-separated list come back one record per name, in order, whatever whitespace surrounds them |
| AdminDashboard.ParseNameWords | src/components/AdminDashboard.tsx:173-178 | a name of several words: the first word is the first name and the rest, joined by single spaces, the last name |
| AdminDashboard.ParseNameSingle | src/components/AdminDashboard.tsx:179-183 | a single word is the first name with an empty last name |
| AdminDashboard.ParseNameRejoins | src/components/AdminDashboard.tsx:173-183 | the first name holds no whitespace, and "first last" is the name with its whitespace runs collapsed |
| AdminDashboard.FindPost | src/components/AdminDashboard.tsx:133 | `posts.find`: the result is the first post with the id; none is found exactly when no post has it |
| AdminDashboard.WithoutPostSpec | src/components/AdminDashboard.tsx:157 | the filter drops every post with the id and keeps every other post as often as it occurred |
| AdminDashboard.ClassYearsOf | src/components/AdminDashboard.tsx:99-119 | the year list is never empty: the stored years when there are any, else the five defaults |
| AdminDashboard.AddedMembersKeys | src/components/AdminDashboard.tsx:199-208 | the new member ids are exactly those of the successful adds |
| AdminDashboard.AddedMembersSpec | src/components/AdminDashboard.tsx:199-208 | each successful add stores its record (names, chosen class year, unclaimed) under its own fresh id; a failed add leaves nothing; earlier members and other collections are unchanged |
| AdminDashboard.AddAll | src/components/AdminDashboard.tsx:199-210 | every record is sent; the batch succeeds exactly when every add did, and the store is as `AddedMembers` describes |
| AdminDashboard.AddedMembersValues | src/components/AdminDashboard.tsx:199-208 | with fresh distinct ids, each successful add stores its record under its own id and every earlier member is kept |
| AdminDashboard.AddedOthersUnchanged | src/components/AdminDashboard.tsx:199-208 | the adds touch no collection but `members` |
| AdminDashboard.Dashboard.constructor | src/components/AdminDashboard.tsx:37-51 | the initial state: form closed, names empty, class year "2025", nothing parsed |
| AdminDashboard.Dashboard.ToggleAddForm | src/components/AdminDashboard.tsx:286 | the button flips the form's visibility and changes nothing else |
| AdminDashboard.Dashboard.EditNames | src/components/AdminDashboard.tsx:307-310 | typing keeps the text and re-parses the preview |
| AdminDashboard.Dashboard.EditClassYear | src/components/AdminDashboard.tsx:327-329 | choosing a class year changes only that field |
| AdminDashboard.Dashboard.HandleAddMembers | src/components/AdminDashboard.tsx:191-224 | every parsed name is added; only when all adds succeed is the form reset to empty names and "2025", the preview cleared and the form closed |
| AdminDashboard.Dashboard.HandleDeletePost | src/components/AdminDashboard.tsx:121-163 | nothing happens without confirmation; the document is deleted first, and only after that succeeds is the featured image sent for deletion and the post removed from the list |
| AuthFlow.AdminFallbackIsAdmin | src/components/Auth.tsx:55-80 | the built-in profile for the administrator's email is an administrator profile carrying that email |
| AuthFlow.ResolvedProfile | src/components/Auth.tsx:37-81 | a stored profile is used as it is; without one (missing or unreadable) a profile is set exactly for the administrator's email, and that profile is an administrator's |
| AuthFlow.AuthPanel.constructor | src/components/Auth.tsx:18-29 | the initial state: no user or profile, loading, class step, no class chosen |
| AuthFlow.AuthPanel.OnAuthStateChanged | src/components/Auth.tsx:34-90 | a signed-out state clears the profile and returns to the class step; a signed-in account takes the resolved profile, or keeps the previous one when none resolves; loading ends |
| AuthFlow.AuthPanel.Redirect | src/components/Auth.tsx:93-101 | there is a redirect exactly when both user and profile exist; it is `/admin` exactly for an administrator profile, else `/` |
| AuthFlow.AuthPanel.SelectClass | src/components/Auth.tsx:104-107 | choosing a class records it and moves to the members step |
| AuthFlow.AuthPanel.BackToClass | src/components/Auth.tsx:115-118 | going back clears the chosen class and returns to the class step |
| AuthFlow.AuthPanel.ShowAdminLogin | src/components/Auth.tsx:278 | the Admin Login link moves to the administrator form and keeps the chosen class |
| AuthFlow.AuthPanel.BackToMemberLogin | src/components/Auth.tsx:249 | "Back to Member Login" returns to the class step and keeps the chosen class |
| AuthFlow.AuthPanel.AdminLogin | src/components/Auth.tsx:124-144 | a failed sign-in shows the provider's message; a successful one clears the error and leaves the rest to the listener |
| AuthFlow.ScreenOf | src/components/Auth.tsx:154-287 | the page shows the spinner while loading or redirecting, then the screen of the current step: the class chooser exactly on the class step, the member panel for the chosen class on the members step |
| AuthFlow.NoDashboardOnSignIn | src/components/Auth.tsx:172-174 | no handler reaches the `admin` step, so the embedded dashboard is never rendered |
| AdminPage.AdminGate.constructor | src/app/admin/page.tsx:11-13 | the initial state: no user or profile, loading, no route pushed |
| AdminPage.AdminGate.OnAuthStateChanged | src/app/admin/page.tsx:17-73 | no account pushes `/login`; a resolved profile is kept; an account whose resolved profile is not an administrator's, or that has none, is sent to `/` |
| AdminPage.AdminGate.SignOut | src/app/admin/page.tsx:76-83 | a successful sign-out pushes `/login`; a failed one pushes nothing |
| AdminPage.ListenerDecides | src/app/admin/page.tsx:17-73 | each listener call either lets the dashboard render or sends the browser away, and with no earlier profile it does exactly one of the two |
| AdminPage.AdminEmailAdmitted | src/app/admin/page.tsx:35-64 | the administrator's email reaches the dashboard even when its user record is missing or unreadable |
| AdminPage.DashboardAllowed | src/app/admin/page.tsx:93 | the render guard: the dashboard needs a signed-in user whose profile has `isAdmin`, and anything else is "Access Denied" |
| AdminPage.AdminGate.ShowsDashboard | src/app/admin/page.tsx:85-93 | the dashboard is on screen exactly when loading has ended and the render guard passes |
| AdminPage.StoredProfileDecides | src/app/admin/page.tsx:24-34 | a stored record admits its account exactly when it has `isAdmin` |
| Newsletters.PdfPreviewUrl | src/app/newsletters/page.tsx:201-222 | `getPDFPreviewUrl`: a URL without `/upload/` comes back unchanged (the three rewrites are characterised by `PreviewOfRaw`, `PreviewOfVersioned` and `PreviewOfUnversioned`) |
| Newsletters.MarkersContainUpload | src/app/newsletters/page.tsx:208-216 | both longer markers contain `/upload/`, so a URL without it takes none of the branches |
| Newsletters.PreviewOfRaw | src/app/newsletters/page.tsx:208-210 | a raw-resource URL has its first `/raw/upload/` replaced by the image endpoint with the preview transformation, everything around it kept |
| Newsletters.PreviewOfVersioned | src/app/newsletters/page.tsx:211-213 | otherwise a versioned URL gets the transformation inserted right after the first `/upload/` followed by `v`, before the version |
| Newsletters.PreviewOfUnversioned | src/app/newsletters/page.tsx:214-216 | otherwise the transformation is inserted after the first `/upload/` |
| Newsletters.PreviewWithoutUpload | src/app/newsletters/page.tsx:218 | a URL without `/upload/` is returned unchanged |
| Newsletters.NewsletterRecordFields | src/app/newsletters/page.tsx:123-130 | the stored record holds the title, the uploaded URL, the issue date, the author's uid and as author name the profile's username or else the account email |
| Newsletters.DeleteCallsOrder | src/app/newsletters/page.tsx:171-180 | the record is always deleted, and last; the asset is destroyed first exactly when the URL has a public id, with that id |
| Newsletters.NewslettersPanel.constructor | src/app/newsletters/page.tsx:33-45 | the initial state: empty form, form hidden, nothing uploading or being deleted |
| Newsletters.NewslettersPanel.HandleFileChange | src/app/newsletters/page.tsx:150-157 | only a file of type exactly `application/pdf` is put in the form; anything else, or no file, leaves the form and raises the alert |
| Newsletters.NewslettersPanel.HandleSubmit | src/app/newsletters/page.tsx:104-148 | nothing happens without a user, a profile and a file; otherwise the newsletter is saved exactly when the upload and the write succeed, and only then is the form reset and closed; uploading ends |
| Newsletters.NewslettersPanel.HandleDeleteNewsletter | src/app/newsletters/page.tsx:159-190 | an unconfirmed call does nothing; a confirmed one makes the calls of `DeleteCalls`, the record is deleted whatever the destroy answered, and a failed delete raises the alert |
| MembersPage.MergedMember | src/app/members/page.tsx:68-106 | the entry pushed for one member document: the document id, the member's data, then the six fallback fields (characterised by `MergedMemberFields`) |
| MembersPage.MergedMemberFields | src/app/members/page.tsx:68-106 | with an owner profile each of the six fallback fields is the member's value when truthy and the owner's otherwise; without one the member keeps its own; every other field is the member's, and `id` is the document id unless the data holds one |
| MembersPage.UnclaimedKeepsOwnFields | src/app/members/page.tsx:77 | a member that is not both claimed and bound to an account keeps all its own fields |
| MembersPage.CollectMembers | src/app/members/page.tsx:64-107 | the loop builds one merged entry per document, in snapshot order |
| MembersPage.DirectoryOrderPreorder | src/app/members/page.tsx:110-117 | the comparator (class year descending, then last name ascending) is a total preorder |
| MembersPage.SortedMembers | src/app/members/page.tsx:110-117 | `membersData.sort(...)` returns a permutation of the loaded entries |
| MembersPage.SortedMembersSpec | src/app/members/page.tsx:110-117 | the directory is a permutation of the loaded entries ordered by class year, latest first, then by last name; entries that tie on both keep their loaded order |
| MembersPage.GroupByClass | src/app/members/page.tsx:128-135 | the `reduce` builds the groups `GroupsOf` describes, with keys in insertion order |
| MembersPage.YearsInOrderSpec | src/app/members/page.tsx:128-137 | the insertion-ordered keys are exactly the group keys, each once |
| MembersPage.GroupKeys | src/app/members/page.tsx:128-135 | the group keys are exactly the members' class years |
| MembersPage.GroupsAreFilters | src/app/members/page.tsx:128-135 | each group holds exactly the members of its year, in list order |
| MembersPage.GroupSizesSum | src/app/members/page.tsx:128-135 | the group sizes add up to the number of members, so every member is in exactly one group |
| MembersPage.ClassYearsSpec | src/app/members/page.tsx:137-139 | the year headings are the group keys, each once, in strictly descending order |
| MembersPage.MembersDirectory.constructor | src/app/members/page.tsx:28-29 | the initial state: no members, loading |
| MembersPage.MembersDirectory.FetchMembers | src/app/members/page.tsx:58-124 | a successful read sets the sorted merged entries; a failed read leaves the list; loading ends either way |
| Sorting.Sort | src/app/members/page.tsx:110 | `Array.prototype.sort` with a comparator: the result is a permutation of the input |
| Sorting.SortSorted | src/app/members/page.tsx:110-117 | with a total preorder the result is ordered by the comparator |
| Sorting.SortStable | src/app/members/page.tsx:110-117 | the sort is stable: elements that tie keep their input order |
| Lists.FilterMembers | src/app/page.tsx:149 | `filter` keeps exactly the elements of the list the predicate holds for |
| Lists.FilterMultiset | src/app/page.tsx:149 | `filter` keeps each kept value as often as it occurred and drops the others |
| Lists.DistinctSpec | src/app/memories/page.tsx:146-148 | the distinct values hold each value of the list exactly once and nothing else |
| Locations.StructuredLocation | src/app/profile/page.tsx:85-99 | a structured location, when found, is well formed: truthy name and truthy coordinates |
| Locations.StructuredLocationSpec | src/app/profile/page.tsx:85-99 | only an object with truthy `lat` and `lng` is a structured location; it keeps them, and its name is `displayName`, else `display_name`, else "Unknown Location" |
| Locations.StoredLocationReadsBack | src/app/profile/page.tsx:85-99 | a stored well-formed location reads back as itself |
| ProfilePage.NormalisedLocation | src/app/profile/page.tsx:83-103 | the normalised location is one the page can hold: a name is never blank and a place is well formed |
| ProfilePage.NormalisedLocationSpec | src/app/profile/page.tsx:83-103 | a non-empty string is kept as written, a structured object becomes a place, and anything else (an empty string, an object whose `lat` or `lng` is 0 or missing) becomes no location |
| ProfilePage.SavedLocationReadsBack | src/app/profile/page.tsx:134-137 | saving a normalised location and reading it back gives the same location |
| ProfilePage.ProfileDefaults | src/app/profile/page.tsx:106-116 | each missing or falsy text field reads as ""; a truthy one is kept; the member id is the first claimed member's, if any |
| ProfilePage.SaveWritesSpec | src/app/profile/page.tsx:139-157 | the user document receives the five fields; the member document receives the same five exactly when there is one and the user write went through; nothing else changes |
| ProfilePage.ProfileView.constructor | src/app/profile/page.tsx:40-45 | the initial state: no profile, loading, not saving, not editing |
| ProfilePage.ProfileView.FetchUserProfile | src/app/profile/page.tsx:62-125 | an existing user document sets both the profile and the edited copy to the defaulted profile; otherwise both stay; loading ends |
| ProfilePage.ProfileView.SetLocation | src/app/profile/page.tsx:449-453 | the picker's choice becomes the edited location; a cleared picker leaves the empty string |
| ProfilePage.ProfileView.HandleSave | src/app/profile/page.tsx:127-167 | nothing happens without a user and an edited profile; otherwise the writes of `SaveWrites` happen, and only when they succeed does the saved profile become the edited one and edit mode end; a failure raises the alert |
| ProfilePage.ProfileView.HandleCancel | src/app/profile/page.tsx:169-172 | the edited copy returns to the saved profile and edit mode ends |
| MapPage.NeedsGeocodingSpec | src/app/map/page.tsx:98-100 | the geocoder is spared exactly the empty and all-whitespace strings |
| MapPage.GeocodeLocation | src/app/map/page.tsx:97-129 | `geocodeLocation`: a request is sent exactly for a non-blank string; a blank one gives no location; otherwise the result is the geocoder's answer |
| MapPage.ResolvedLocationSpec | src/app/map/page.tsx:139-161 | a structured stored location is kept; a string location is resolved only through the geocoder; any other stored value gives no location |
| MapPage.EntryOf | src/app/map/page.tsx:163-168 | the pushed entry carries the user's id, the resolved location, `username || "Unknown User"`, and the stored `profilePicture` and `classYear` |
| MapPage.UserLocationsSpec | src/app/map/page.tsx:131-175 | an entry is plotted exactly for each user whose location resolves, with that user's id and location; every entry's username is the stored one when truthy and "Unknown User" otherwise, and its picture and class year are the user's; one entry per resolving user |
| MapPage.GeocodeRequestsSpec | src/app/map/page.tsx:156-160 | every string sent to the geocoder is some user's stored, non-blank location, and every such string is sent |
| MapPage.ResolveUser | src/app/map/page.tsx:137-161 | one iteration: the request flag and the location are those `RequestsGeocoding` and `ResolvedLocation` give |
| MapPage.MapView.constructor | src/app/map/page.tsx:52-53 | the initial state: no entries, loading |
| MapPage.MapView.FetchUserLocations | src/app/map/page.tsx:131-180 | a successful read sets the plotted entries and makes the requests `GeocodeRequests` names; a failed read keeps the list; loading ends |
| LocationPicker.Picker.constructor | src/components/LocationPicker.tsx:21-24 | the initial state: empty term, no suggestions, not loading, list closed |
| LocationPicker.Picker.SyncFromValue | src/components/LocationPicker.tsx:29-39 | a string value becomes the term, a location its truthy display name (else the term stays), and no value gives "" |
| LocationPicker.Picker.SearchLocation | src/components/LocationPicker.tsx:58-88 | a query whose trim has a `.length` (UTF-16 code units) under three clears the suggestions and sends nothing; otherwise the geocoder's answer replaces them and opens the list, and a failed request keeps them |
| LocationPicker.Picker.HandleInputChange | src/components/LocationPicker.tsx:90-94 | the term follows the input; a short query clears the suggestions and sends nothing; an answer replaces the suggestions and opens the list; a failed request keeps both; loading has ended afterwards |
| LocationPicker.Picker.HandleSelectSuggestion | src/components/LocationPicker.tsx:96-105 | the term becomes the suggestion's name, the list closes and the suggestion's location is reported |
| LocationPicker.Picker.HandleClear | src/components/LocationPicker.tsx:107-114 | the term and the suggestions are emptied and no location is reported |
| LocationPicker.ShortQueriesNotSent | src/components/LocationPicker.tsx:59 | a query whose `.length` is under three, or of whitespace only, never reaches the geocoder |
| LocationPicker.EmojiQuerySent | src/components/LocationPicker.tsx:59 | "a😀" is sent: its trimmed `.length` is 3 although it has two characters |
| LocationPicker.SuggestedLocationWellFormed | src/components/LocationPicker.tsx:97-101 | a picked suggestion with a name and non-zero coordinates is a location the profile page reads back as itself |
| ClassSelection.ClassesAddedSpec | src/components/ClassSelection.tsx:62-67 | the inserts add one `classes` document per fresh id, holding its year, keep every other document and every other collection |
| ClassSelection.ClassesAddedStep | src/components/ClassSelection.tsx:62-67 | one more insert extends the stored prefix by one document |
| ClassSelection.CreateDefaultClasses | src/components/ClassSelection.tsx:59-71 | the years are inserted in order; the first failed insert ends the loop, so exactly the years before it are stored |
| ClassSelection.SubmitDisabledIffGuardFails | src/components/ClassSelection.tsx:229-231 | the submit button is disabled exactly when the handler's guard (a non-empty year not yet listed) fails |
| ClassSelection.WithYearSpec | src/components/ClassSelection.tsx:93 | `[...classYears, newClassYear].sort()` holds the old years and the new one, is one longer, ascending, and stays duplicate-free |
| ClassSelection.ClassChooser.constructor | src/components/ClassSelection.tsx:21-26 | the initial state: nothing selected, form closed and empty, no years, loading, no error |
| ClassSelection.ClassChooser.FetchClassYears | src/components/ClassSelection.tsx:32-57 | stored years are listed as read; an empty collection lists the five defaults and stores them in order up to the first failed insert, so all five when every insert succeeds; a failed read lists the defaults and shows the load error; loading ends |
| ClassSelection.ClassChooser.HandleClassSelect | src/components/ClassSelection.tsx:73-76 | the year is selected and reported to the parent |
| ClassSelection.ClassChooser.HandleAddNewClass | src/components/ClassSelection.tsx:78-80 | the form opens and nothing else changes |
| ClassSelection.ClassChooser.EditNewClassYear | src/components/ClassSelection.tsx:207 | the field follows the input |
| ClassSelection.ClassChooser.HandleSubmitNewClass | src/components/ClassSelection.tsx:82-109 | an empty or listed year changes nothing; otherwise a stored year joins the sorted list, is selected, reported, and closes and empties the form; a failed insert only sets the error |
| ClassSelection.ClassChooser.HandleCancelAddClass | src/components/ClassSelection.tsx:111-114 | the form closes and empties; the list and the selection stay |
| Memories.FilteredMemoriesSpec | src/app/memories/page.tsx:140-143 | "all" shows every memory; another year shows exactly that class's memories, each as often as loaded, in the loaded order |
| Memories.ClassYearsSpec | src/app/memories/page.tsx:146-148 | the filter offers exactly the classes of the loaded memories, once each, in descending order |
| Memories.OfferedClassesAreNonEmpty | src/app/memories/page.tsx:140-148 | every offered class shows at least one memory |
| Memories.WithLinkSpec | src/app/memories/page.tsx:122-130 | a non-blank trimmed link not yet listed is appended; a blank or listed one changes nothing; the list stays trimmed, non-empty and duplicate-free; adding twice adds once |
| Memories.RemoveAddedLink | src/app/memories/page.tsx:122-136 | removing the link just added gives the list back |
| Memories.RemoveLinkSpec | src/app/memories/page.tsx:132-136 | `filter((_, i) => i !== index)` drops exactly the one link, keeps the others in order and keeps a clean list clean; an index off the list changes nothing |
| Memories.EditedSpec | src/app/memories/page.tsx:220-226 | the edit copy differs from the memory only in that a missing link list reads as empty; copying again changes nothing |
| Memories.EditFormAddLosesLink | src/app/memories/page.tsx:407-423 | as wired, a link added in the edit form lands in the create form's list and the edited memory keeps none |
| Memories.EditFormAddSpec | src/app/memories/page.tsx:407-423 | the intended Add puts a non-blank link among the edited memory's links, keeps that list clean and changes nothing else |
| Memories.MemoriesView.constructor | src/app/memories/page.tsx:35-51 | the initial state: no memories, blank form and link, filter "all", nothing edited, create form closed |
| Memories.MemoriesView.SetNewLink | src/app/memories/page.tsx:410 | the link field follows the input |
| Memories.MemoriesView.AddLink | src/app/memories/page.tsx:122-130 | the create form's list becomes `WithLink` of it; the field is emptied exactly when a link was added |
| Memories.MemoriesView.RemoveLink | src/app/memories/page.tsx:132-137 | the create form loses the link at the index; nothing else changes |
| Memories.MemoriesView.SelectClassYear | src/app/memories/page.tsx:315 | the filter takes the year and the page shows `FilteredMemories` for it |
| Memories.MemoriesView.StartEditing | src/app/memories/page.tsx:220-226 | the edit form holds the memory's edit copy and the create form closes |
| Memories.MemoriesView.CancelEditing | src/app/memories/page.tsx:228-230 | nothing is being edited any more |
| Memories.MemoriesView.AddEditedLink | src/app/memories/page.tsx:407-423 | the corrected edit-form Add: the edited memory becomes `EditFormAdd` of it, the field empties exactly when a link was added |
| Memories.MemoriesView.RemoveEditedLink | src/app/memories/page.tsx:446-455 | the edited memory loses the link at the index (`|| []` for a missing list); nothing else changes |
| MultiImageUpload.ErrorLinesSpec | src/components/MultiImageUpload.tsx:54-60 | there are no error lines exactly when every check passed, and every failed check has its `File n:` line |
| MultiImageUpload.ValidationErrorsSpec | src/components/MultiImageUpload.tsx:54-60 | a batch is error-free exactly when every file passes the 8 MB image check, and every failing file's line carries its own message |
| MultiImageUpload.CollectValidationErrors | src/components/MultiImageUpload.tsx:54-60 | the `forEach` loop collects exactly `ValidationErrors` |
| MultiImageUpload.AfterStagingSpec | src/components/MultiImageUpload.tsx:49-85 | staging never passes the limit; an accepted batch is appended in its own order; an invalid file or too many files stages nothing |
| MultiImageUpload.WithoutStagedSpec | src/components/MultiImageUpload.tsx:87-96 | no entry with the id is left and every other entry is kept, as often as before |
| MultiImageUpload.UploadedUrlsSpec | src/components/MultiImageUpload.tsx:171-212 | no URL is reported exactly when every upload failed, and the reported URLs are exactly the delivered ones |
| MultiImageUpload.OutcomesSpec | src/components/MultiImageUpload.tsx:175-212 | one progress entry per file, completed with its URL or failed with "Upload failed" |
| MultiImageUpload.UploadAll | src/components/MultiImageUpload.tsx:171-212 | the sequential upload loop returns the delivered URLs in file order and every file's outcome |
| MultiImageUpload.Uploader.constructor | src/components/MultiImageUpload.tsx:32-36 | the initial state: not uploading, no progress, no error, nothing staged |
| MultiImageUpload.Uploader.StageFiles | src/components/MultiImageUpload.tsx:49-85 | `stageFiles`: the staged list becomes `AfterStaging`; a rejected batch shows every failing line, or the limit message; an accepted one clears the error |
| MultiImageUpload.Uploader.RemoveStagedFile | src/components/MultiImageUpload.tsx:87-96 | the staged list loses the entries with the id; nothing else changes |
| MultiImageUpload.Uploader.HandleFiles | src/components/MultiImageUpload.tsx:130-227 | staging mode stages and shows the staging error or none; otherwise an invalid file or too many files is refused before any upload, and an accepted batch is uploaded, its outcomes shown and the URLs reported when any; `uploading` is untouched unless a batch is uploaded |
| MultiImageUpload.Uploader.UploadStagedFiles | src/components/MultiImageUpload.tsx:267-337 | nothing staged does nothing; otherwise every staged file is uploaded, and the URLs are reported and the staged list cleared only when one succeeded |
| MultiImageUpload.Uploader.ExpireProgress | src/components/MultiImageUpload.tsx:222-224 | the delayed timer empties the progress list and changes nothing else |
| ImageModal.NextIndex | src/components/ImageModal.tsx:28-30 | `handleNext`'s update keeps a valid index valid |
| ImageModal.PreviousIndex | src/components/ImageModal.tsx:24-26 | `handlePrevious`'s update keeps a valid index valid |
| ImageModal.MovesStayOnImages | src/components/ImageModal.tsx:24-30 | on a valid index both moves stay on the images; forward wraps exactly from the last image to the first, back exactly from the first to the last |
| ImageModal.MovesAreInverse | src/components/ImageModal.tsx:24-30 | each move undoes the other |
| ImageModal.MovesStayInRange | src/components/ImageModal.tsx:24-30 | no series of moves leaves the images |
| ImageModal.ForwardSteps | src/components/ImageModal.tsx:28-30 | `k` forward moves land `k` places on, wrapping once past the end |
| ImageModal.FullCircle | src/components/ImageModal.tsx:28-30 | one forward move per image comes back to the starting image |
| ImageModal.Viewer.constructor | src/components/ImageModal.tsx:18 | the index starts at the parent's `currentIndex` |
| ImageModal.Viewer.SyncIndex | src/components/ImageModal.tsx:20-22 | a new `currentIndex` from the parent replaces the index |
| ImageModal.Viewer.SetOpen | src/components/ImageModal.tsx:13-16 | the parent's `isOpen` changes and the index stays |
| ImageModal.Viewer.HandleNext | src/components/ImageModal.tsx:28-30 | the index becomes `NextIndex` of it and stays on the images |
| ImageModal.Viewer.HandlePrevious | src/components/ImageModal.tsx:24-26 | the index becomes `PreviousIndex` of it and stays on the images |
| ImageModal.Viewer.HandleKeyDown | src/components/ImageModal.tsx:42-60 | closed: every key is ignored; open: Escape asks to close, the arrows move back and forward, other keys do nothing; the index stays on the images |
| ImageModal.DownloadName | src/components/ImageModal.tsx:36 | `memory-image-${activeIndex + 1}.jpg`: between the prefix and `.jpg` stand decimal digits denoting the image's one-based position |
| ImageModal.DownloadNamesDistinct | src/components/ImageModal.tsx:36 | different images download under different names |
| ImageModal.Viewer.DownloadFileName | src/components/ImageModal.tsx:32-36 | the downloaded file of the image on screen is named `DownloadName(activeIndex)`, so its digits denote the one-based position of the image |
| ImageModal.Viewer.Shown | src/components/ImageModal.tsx:75-77 | an image is shown only while the modal is open with images and the index on one of them, and it is that image |
| HomePage.PostRecord | src/app/page.tsx:49-88 | the record `fetchPosts` pushes for one post (its fallbacks are characterised by `PostRecordSpec`) |
| HomePage.PostRecordSpec | src/app/page.tsx:49-88 | the slug is the document id, the title falls back to the id, content and excerpt to "", the author's name to "Unknown Author", the image to null; a stored author id is copied; a failed comment read counts 0 |
| HomePage.LoadPost | src/app/page.tsx:48-88 | one turn of the loop builds exactly `PostRecord` from the author's picture and the comment count |
| HomePage.BuildPosts | src/app/page.tsx:47-89 | the loop builds one record per stored post, in snapshot order |
| HomePage.WithoutPostSpec | src/app/page.tsx:149 | exactly the posts with the id are dropped; the others are kept as often as before, in order |
| HomePage.WithSavedPost | src/app/page.tsx:176-180 | the merged list keeps its length, and every post whose id differs from the edited one is unchanged |
| HomePage.WithSavedPostSpec | src/app/page.tsx:166-180 | the list keeps its length; a post with the edited id takes every field of the edit and keeps its others; other posts are untouched; the store gets only the four edited fields |
| HomePage.Home.constructor | src/app/page.tsx:22-29 | the initial state: no posts, loading, nothing being edited, modal closed |
| HomePage.Home.FetchPosts | src/app/page.tsx:33-99 | a read snapshot becomes `PostRecords`; a failed read empties the list; loading ends |
| HomePage.Home.HandleEditPost | src/app/page.tsx:135-138 | the post is being edited and the modal opens |
| HomePage.Home.HandleCloseEditModal | src/app/page.tsx:158-161 | the modal closes and nothing is being edited |
| HomePage.Home.HandleDeletePost | src/app/page.tsx:140-156 | nothing without confirmation; otherwise the document is deleted and, on success, the posts with its id leave the list; the alert tells which |
| HomePage.Home.HandleSavePost | src/app/page.tsx:163-188 | on success the four fields are merged into the stored post, the whole edit into the listed post, and the modal closes; on failure nothing changes but the alert |
| EditPostModal.UpdatedPostSpec | src/components/EditPostModal.tsx:36-43 | the saved post has the three texts trimmed, the image and the privacy flag as in the form, and every other field as it was |
| EditPostModal.HandleSave | src/components/EditPostModal.tsx:24-44 | the save goes through exactly when the trimmed title and the trimmed content are both non-empty, and the saved post has the post's fields plus the five edited ones |
| EditPostModal.HandleSaveSpec | src/components/EditPostModal.tsx:24-44 | a blank title is refused whatever the content; blank content with a title is refused; otherwise the updated post is handed on, with non-empty title and content |
| EditPostModal.SaveDisabledIffRejected | src/components/EditPostModal.tsx:212 | with no save running the button is disabled exactly when the save would be refused |
| EditPostModal.FormOf | src/components/EditPostModal.tsx:17-21 | the form opens with the image truthy or "", and the flag truthy or false (the value per field is in `FormOfValues`) |
| EditPostModal.FormOfValues | src/components/EditPostModal.tsx:17-21 | each field opens as `post.x || default`: a stored string text as it is and a falsy one as ""; the image is the stored one when truthy and "" otherwise; the flag is the stored one when truthy and false otherwise |
| EditPostModal.SaveAgainChangesNothing | src/components/EditPostModal.tsx:17-43 | reopening the editor on a saved post and saving at once gives the same post |
| RichTextEditor.MarkdownToHtml | src/components/RichTextEditor.tsx:14-56 | `markdownToHtml`: input that does not hold both `<` and `>` comes out with no newline, every line break turned into markup |
| RichTextEditor.MarkdownToHtmlShortcuts | src/components/RichTextEditor.tsx:14-22 | empty input gives ""; input holding both `<` and `>` is returned as it is; anything else goes through the rewriting chain |
| RichTextEditor.MapLinesCompose | src/components/RichTextEditor.tsx:25-27 | two multiline line rules applied in turn act as one rule composed on each line |
| RichTextEditor.MapLinesAgree | src/components/RichTextEditor.tsx:25-27 | line rules that agree on every line agree on every text |
| RichTextEditor.HeaderRulesOnLine | src/components/RichTextEditor.tsx:25-27 | on one line the three header rules in turn produce the header `HeaderLine` describes |
| RichTextEditor.HeaderLineStartsTag | src/components/RichTextEditor.tsx:25-27 | a line is rewritten exactly when it starts with `### `, `## ` or `# `, and the rewritten line starts with `<` |
| RichTextEditor.HeadersPerLine | src/components/RichTextEditor.tsx:25-27 | the header rules rewrite each line on its own: `### ` an h3, otherwise `## ` an h2, otherwise `# ` an h1 |
| RichTextEditor.ConvertStartsWithHeaders | src/components/RichTextEditor.tsx:22-55 | the headers are rewritten before any other rule, line by line |
| RichTextEditor.FindClose | src/components/RichTextEditor.tsx:29-39 | the lazy `(.*?)` search ends on a closing delimiter inside the text, at or after the opening one |
| RichTextEditor.FindCloseScan | src/components/RichTextEditor.tsx:29-39 | the lazy search stops at the first closing delimiter reached without crossing a line |
| RichTextEditor.PairsWithoutDelimiter | src/components/RichTextEditor.tsx:29-39 | a pair rule leaves text without its delimiter unchanged |
| RichTextEditor.PairsEnclosed | src/components/RichTextEditor.tsx:29-39 | `d x d` on one line, with no delimiter in `x`, becomes `open x close` |
| RichTextEditor.BoldBeforeItalic | src/components/RichTextEditor.tsx:29-33 | `**x**` and `__x__` become strong text, not emphasis, because the bold rules run first |
| RichTextEditor.ReplaceAllAfter | src/components/RichTextEditor.tsx:47-49 | a global literal replacement leaves a prefix in which the pattern cannot start untouched |
| RichTextEditor.RunLengthSpec | src/components/RichTextEditor.tsx:47-49 | `RunLength` counts exactly the leading newlines |
| RichTextEditor.NewlinesByRuns | src/components/RichTextEditor.tsx:47-49 | each maximal run of newlines is replaced as a whole: three or more by an empty paragraph, exactly two by a paragraph break, one by `<br>`; no newline is left |
| RichTextEditor.NewlinesAfterPair | src/components/RichTextEditor.tsx:47-49 | exactly two newlines become a paragraph break |
| RichTextEditor.NewlinesAfterSingle | src/components/RichTextEditor.tsx:47-49 | a single newline becomes a line break |
| RichTextEditor.MapLinesNoNewline | src/components/RichTextEditor.tsx:51-52 | a line rule that adds no newline keeps text newline-free |
| RichTextEditor.ReplaceAllNoNewline | src/components/RichTextEditor.tsx:54 | a literal replacement without newlines keeps text newline-free |
| RichTextEditor.ConvertedHasNoNewline | src/components/RichTextEditor.tsx:23-55 | the rewriting chain leaves no newline: every line break has become markup |

## Left out

- Timestamps (`createdAt`, `claimedAt`, `updatedAt`, server timestamps, the home page's `date`): the model has no clock, and no decision in the code depends on them.
- Database reads are snapshots passed in. Queries and `orderBy` are not modelled: the `classes` read is taken to arrive in ascending year order. Real-time listeners are not modelled either.
- Concurrency:
  - `Promise.all` in `handleAddMembers` is modelled as sequential adds that are all attempted;
  - every `await` is modelled as completing before the next statement, so interleavings between handlers are not modelled.
- The image host, the geocoder and the identity provider are oracles. Their requests and answers (upload URLs, destroy outcomes, geocoder results, sign-in and account creation) are parameters. Request signing, `fetch` and JSON parsing are not modelled.
- HEIC conversion is not modelled. Its output size stands for the converted file, or `None` when the converter throws.
- `URL.createObjectURL` and `revokeObjectURL` previews are not modelled.
- Coordinates are opaque values:
  - `parseFloat` of the geocoder's coordinates is not modelled;
  - only the truthiness of a coordinate is ever checked.
- Timers:
  - the delayed progress reset of the uploader is a separate step, `MultiImageUpload.Uploader.ExpireProgress`;
  - the map page's `showContent` timer and the home page's logo timer are not modelled.
- Rendering is modelled only where the code makes a decision:
  - which panel, form or button shows;
  - the render guards;
  - the disabled conditions.

  The markup, styles and animations are not modelled.
- Routing is modelled as the list of routes pushed. Navigation itself is not modelled.
- `lib/firebase.ts` is not part of this model. The administrator's email, which that file defines, is a parameter.
- `src/app/newsletters/page.tsx` imports `uploadPDF` from `src/lib/cloudinary.ts`, which does not define it. The upload is therefore an oracle. The second `"raw"` argument given to `deleteCloudinaryImage` is dropped, because that function sends only the public id.
- Character handling:
  - letter case is mapped on ASCII letters only;
  - no Unicode case folding or normalisation is modelled;
  - `localeCompare` collation is modelled as lexicographic order on characters.
- `RichTextEditor`: only `markdownToHtml` is modelled. The editor component around it (toolbar, preview toggle, text area) is not. In `[h|b|p|l|d|c]` the `|` is a member of the character class, as written.
- `RichTextEditor.BoldBeforeItalic`, `RichTextEditor.PairsEnclosed`: stated for text without the delimiter's first character inside, on one line. Nested or unbalanced emphasis is modelled by the scanner but not characterised by a lemma.
- `ImageUtils.ExtractorsAgree`: the two public-id extractors are shown to agree only where the image pattern does not backtrack over a version segment. On `…/upload/v1/.jpg` they differ: the image extractor backtracks and yields `v1/`.
- MembersPage.YearOf, MembersPage.LastNameOf: `classYear` and `lastName` are taken to be strings, and any other value reads as "". The page itself behaves differently (src/app/members/page.tsx:110-135):
  - a member without a string `classYear` or `lastName` makes the comparator throw a `TypeError` whenever it is the receiver of `localeCompare`; the `catch` then skips `setMembers`, so the old list stays;
  - as the argument of `localeCompare`, a missing value is compared as the text "undefined";
  - the `reduce` files such a member under the key "undefined", not "".

  Which of these happens depends on the pairs the engine's sort compares, so the list `MembersPage.MembersDirectory.FetchMembers` sets matches the page's only when every member's two fields are strings. The same simplification, `JsValues.TextOf`, reads a truthy non-string as "" in two more places:
  - `EditPostModal.FormOf` (src/components/EditPostModal.tsx:17-19): the source keeps the value, so `title.trim()` would throw where the model alerts `TitleMissing`;
  - `LocationPicker.Picker.SyncFromValue` (src/components/LocationPicker.tsx:29-39): the source keeps a location's non-string `displayName` as the search term.
- Comments, post creation, the post page, the setup script, the API routes and the purely presentational components are outside the modelled core.

## Findings

| source | as written | input that shows it | evidently intended | confidence | as-written member | corrected member |
|---|---|---|---|---|---|---|
| src/app/memories/page.tsx:407-423 | the edit form's link input and Add button (and its Enter key) call `addLink`, which checks and appends the link to the create form's `newMemory.links` | editing a memory with no links, typing `https://photos.example` and pressing Add: the edited memory still has no links, and the link is in the hidden create form | the link is appended to `editingMemory.links`, so that saving the edit stores it | high (not executed) | Memories.EditFormAddLosesLink | Memories.EditFormAdd |

/**
  The administrator's dashboard: adding a batch of members from a comma-separated list of names,
  and deleting a post together with its featured image.
*/
module AdminDashboard {
  import opened Common
  import opened JsString
  import opened JsValues
  import opened Firestore
  import opened Lists
  import Cloudinary

  // ---------------------------------------------------------------------------------------------
  // parseMemberNames

  datatype MemberName = MemberName(firstName: string, lastName: string)

  /**
    One name: the first whitespace-separated token is the first name and the remaining tokens,
    joined by single spaces, the last name (empty for a single token).
  */
  function ParseName(name: string): MemberName {
    var parts := SplitWs(Trim(name));
    if |parts| >= 2 then MemberName(parts[0], Join(parts[1..], " ")) else MemberName(parts[0], "")
  }

  predicate NonEmpty(s: string) { |s| > 0 }

  /** The comma-separated pieces, trimmed, without the empty ones. */
  function NamePieces(names: string): seq<string> {
    Filter(Map(SplitOn(names, ','), Trim), NonEmpty)
  }

  /** `parseMemberNames`: one record per remaining piece, in the order of the text. */
  function ParseMemberNames(names: string): (r: seq<MemberName>)
    ensures |r| == |NamePieces(names)|
  {
    Map(NamePieces(names), ParseName)
  }

  /** A piece is kept exactly when it is not blank, and a kept piece is trimmed and holds no comma. */
  lemma NamePiecesSpec(names: string)
    ensures |NamePieces(names)| == Count(Map(SplitOn(names, ','), Trim), NonEmpty)
    ensures forall p :: p in NamePieces(names) ==> p != [] && Trim(p) == p && ',' !in p
  {
    var trimmed := Map(SplitOn(names, ','), Trim);
    FilterLength(trimmed, NonEmpty);
    FilterMembers(trimmed, NonEmpty);
    SplitOnSpec(names, ',');
    forall p | p in NamePieces(names) ensures p != [] && Trim(p) == p && ',' !in p {
      var i :| 0 <= i < |trimmed| && trimmed[i] == p;
      var piece := SplitOn(names, ',')[i];
      TrimIdempotent(piece);
      var a, b := TrimSpec(piece);
      assert piece == a + p + b;
      assert forall k :: 0 <= k < |p| ==> p[k] == piece[|a| + k];
    }
  }

  /**
    Names entered as a comma-separated list come back as one record per name, in order; whitespace
    around a name does not matter.
  */
  lemma ParseJoinedNames(names: seq<string>)
    requires |names| >= 1
    requires forall i :: 0 <= i < |names| ==> ',' !in names[i] && !IsBlank(names[i])
    ensures |ParseMemberNames(Join(names, ","))| == |names|
    ensures forall i :: 0 <= i < |names| ==> ParseMemberNames(Join(names, ","))[i] == ParseName(names[i])
  {
    SplitOnJoin(names, ',');
    var trimmed := Map(names, Trim);
    FilterAll(trimmed, NonEmpty);
    forall i | 0 <= i < |names| ensures ParseName(trimmed[i]) == ParseName(names[i]) {
      TrimIdempotent(names[i]);
    }
  }

  /** Several words: the first word and the rest joined by single spaces. */
  lemma ParseNameWords(words: seq<string>)
    requires |words| >= 2
    requires forall i :: 0 <= i < |words| ==> words[i] != [] && NoSpace(words[i])
    ensures ParseName(Join(words, " ")) == MemberName(words[0], Join(words[1..], " "))
  {
    JoinedWordsTrimmed(words);
    SplitWsJoin(words);
  }

  /** A single word is the first name and the last name is empty. */
  lemma ParseNameSingle(word: string)
    requires word != [] && NoSpace(word)
    ensures ParseName(word) == MemberName(word, "")
  {
    JoinedWordsTrimmed([word]);
    SplitWsWord(word);
  }

  /**
    The first name never holds whitespace, and for a name of several words the displayed
    "first last" is the name with its whitespace runs collapsed to single spaces.
  */
  lemma ParseNameRejoins(name: string)
    ensures NoSpace(ParseName(name).firstName)
    ensures |SplitWs(Trim(name))| >= 2 ==>
      ParseName(name).firstName + " " + ParseName(name).lastName == Join(SplitWs(Trim(name)), " ")
  {
    SplitWsNoSpace(Trim(name));
  }

  // ---------------------------------------------------------------------------------------------
  // The dashboard's state

  /** A post as the dashboard lists it; a missing or empty featured image is `None` or `Some("")`. */
  datatype Post = Post(id: string, title: string, excerpt: string, authorName: string, authorId: string,
                       featuredImage: Option<string>)

  /** `postToDelete?.featuredImage` taken as a condition: present and not empty. */
  predicate HasFeaturedImage(p: Post) {
    p.featuredImage.Some? && p.featuredImage.value != ""
  }

  /** `posts.find(post => post.id === id)` */
  function FindPost(posts: seq<Post>, id: string): (r: Option<Post>)
    ensures r.Some? ==> r.value in posts && r.value.id == id
    ensures r.None? <==> forall i :: 0 <= i < |posts| ==> posts[i].id != id
    ensures r.Some? ==> exists i :: 0 <= i < |posts| && posts[i] == r.value && forall k :: 0 <= k < i ==> posts[k].id != id
  {
    if posts == [] then None
    else if posts[0].id == id then Some(posts[0])
    else FindPost(posts[1..], id)
  }

  function IdIsNot(id: string): Post -> bool {
    (p: Post) => p.id != id
  }

  /** `posts.filter(post => post.id !== id)` */
  function WithoutPost(posts: seq<Post>, id: string): seq<Post> {
    Filter(posts, IdIsNot(id))
  }

  /** Every post with the id is dropped and every other post stays, as often as it was there. */
  lemma WithoutPostSpec(posts: seq<Post>, id: string)
    ensures forall p :: p in WithoutPost(posts, id) <==> p in posts && p.id != id
    ensures forall p: Post :: p.id != id ==> multiset(WithoutPost(posts, id))[p] == multiset(posts)[p]
    ensures FindPost(posts, id).None? ==> WithoutPost(posts, id) == posts
  {
    FilterMembers(posts, IdIsNot(id));
    FilterMultiset(posts, IdIsNot(id));
    if FindPost(posts, id).None? {
      FilterAll(posts, IdIsNot(id));
    }
  }

  /** The form of the "Add New Members" panel. */
  datatype NewMembersForm = NewMembersForm(names: string, classYear: string)

  const BlankNewMembers := NewMembersForm("", "2025")

  const DefaultClassYears: seq<string> := ["2025", "2026", "2027", "2028", "2029"]

  /** `fetchClassYears`: the stored years, or the defaults when there are none or the read failed. */
  function ClassYearsOf(fetched: Option<seq<string>>): (r: seq<string>)
    ensures r != []
    ensures fetched.Some? && fetched.value != [] ==> r == fetched.value
  {
    match fetched
    case Some(years) => if years == [] then DefaultClassYears else years
    case None => DefaultClassYears
  }

  /** The document `handleAddMembers` inserts for one parsed name. */
  function MemberRecord(n: MemberName, classYear: string): Doc {
    map["firstName" := Str(n.firstName), "lastName" := Str(n.lastName), "classYear" := Str(classYear),
        "isClaimed" := Bool(false)]
  }

  /** The members collection after the adds, one per record in order, of which those with `oks[i]` succeeded. */
  function AddedMembers(cols: Collections, ids: seq<string>, recs: seq<MemberName>, classYear: string,
                        oks: seq<bool>): Collections
    requires |ids| == |recs| == |oks|
  {
    if ids == [] then cols
    else
      var n := |ids| - 1;
      var before := AddedMembers(cols, ids[..n], recs[..n], classYear, oks[..n]);
      if oks[n] then Stored(before, "members", ids[n], MemberRecord(recs[n], classYear)) else before
  }

  /** The adds touch no collection but the members collection. */
  lemma {:induction false} AddedOthersUnchanged(cols: Collections, ids: seq<string>, recs: seq<MemberName>,
                                               classYear: string, oks: seq<bool>, name: string)
    requires |ids| == |recs| == |oks| && name != "members"
    ensures CollOf(AddedMembers(cols, ids, recs, classYear, oks), name) == CollOf(cols, name)
    decreases |ids|
  {
    if ids != [] {
      var n := |ids| - 1;
      AddedOthersUnchanged(cols, ids[..n], recs[..n], classYear, oks[..n], name);
    }
  }

  /** The new member ids are exactly those of the successful adds. */
  lemma {:induction false} AddedMembersKeys(cols: Collections, ids: seq<string>, recs: seq<MemberName>,
                                           classYear: string, oks: seq<bool>)
    requires |ids| == |recs| == |oks|
    ensures CollOf(AddedMembers(cols, ids, recs, classYear, oks), "members").Keys
      == CollOf(cols, "members").Keys + set i | 0 <= i < |ids| && oks[i] :: ids[i]
    decreases |ids|
  {
    if ids != [] {
      var n := |ids| - 1;
      AddedMembersKeys(cols, ids[..n], recs[..n], classYear, oks[..n]);
      assert (set i | 0 <= i < |ids| && oks[i] :: ids[i])
        == (set i | 0 <= i < n && oks[..n][i] :: ids[..n][i]) + (if oks[n] then {ids[n]} else {});
    }
  }

  /**
    With fresh, distinct ids, each successful add's record is stored under its own id and every
    earlier member is kept as it was.
  */
  lemma {:induction false} AddedMembersValues(cols: Collections, ids: seq<string>, recs: seq<MemberName>,
                                             classYear: string, oks: seq<bool>)
    requires |ids| == |recs| == |oks|
    requires NoDuplicates(ids) && forall i :: 0 <= i < |ids| ==> ids[i] !in CollOf(cols, "members")
    ensures var after := CollOf(AddedMembers(cols, ids, recs, classYear, oks), "members");
      && (forall i :: 0 <= i < |ids| && oks[i] ==> ids[i] in after && after[ids[i]] == MemberRecord(recs[i], classYear))
      && (forall id :: id in CollOf(cols, "members") ==> id in after && after[id] == CollOf(cols, "members")[id])
    decreases |ids|
  {
    if ids != [] {
      var n := |ids| - 1;
      AddedMembersValues(cols, ids[..n], recs[..n], classYear, oks[..n]);
      assert forall i :: 0 <= i < n ==> ids[..n][i] == ids[i] && ids[i] != ids[n];
    }
  }

  /**
    `AddedMembers` as a whole: each successful add stored its own record under its own fresh id,
    unclaimed and in the chosen class year; a failed add left no document; earlier members and
    other collections are untouched.
  */
  lemma AddedMembersSpec(cols: Collections, ids: seq<string>, recs: seq<MemberName>, classYear: string,
                         oks: seq<bool>)
    requires |ids| == |recs| == |oks|
    requires NoDuplicates(ids) && forall i :: 0 <= i < |ids| ==> ids[i] !in CollOf(cols, "members")
    ensures var after := CollOf(AddedMembers(cols, ids, recs, classYear, oks), "members");
      && (forall i :: 0 <= i < |ids| && oks[i] ==> ids[i] in after && after[ids[i]] == MemberRecord(recs[i], classYear))
      && (forall i :: 0 <= i < |ids| && !oks[i] ==> ids[i] !in after)
      && (forall id :: id in CollOf(cols, "members") ==> id in after && after[id] == CollOf(cols, "members")[id])
    ensures forall name :: name != "members" ==>
      CollOf(AddedMembers(cols, ids, recs, classYear, oks), name) == CollOf(cols, name)
  {
    AddedMembersValues(cols, ids, recs, classYear, oks);
    AddedMembersKeys(cols, ids, recs, classYear, oks);
    forall name | name != "members"
      ensures CollOf(AddedMembers(cols, ids, recs, classYear, oks), name) == CollOf(cols, name)
    {
      AddedOthersUnchanged(cols, ids, recs, classYear, oks, name);
    }
  }

  /** One more record extends the prefix by one add. */
  lemma AddedMembersStep(cols: Collections, ids: seq<string>, recs: seq<MemberName>, classYear: string,
                         oks: seq<bool>, i: nat)
    requires |ids| == |recs| == |oks| && i < |ids|
    ensures AddedMembers(cols, ids[..i + 1], recs[..i + 1], classYear, oks[..i + 1])
      == var before := AddedMembers(cols, ids[..i], recs[..i], classYear, oks[..i]);
         if oks[i] then Stored(before, "members", ids[i], MemberRecord(recs[i], classYear)) else before
  {
    assert ids[..i + 1][..i] == ids[..i] && recs[..i + 1][..i] == recs[..i] && oks[..i + 1][..i] == oks[..i];
  }

  /** The writes of `handleAddMembers`: one `addDoc` per record, every one attempted. */
  method AddAll(db: Db, ids: seq<string>, recs: seq<MemberName>, classYear: string, oks: seq<bool>)
    returns (allOk: bool)
    requires |ids| == |recs| == |oks|
    requires NoDuplicates(ids) && forall i :: 0 <= i < |ids| ==> ids[i] !in db.Coll("members")
    modifies db
    ensures allOk == forall i :: 0 <= i < |oks| ==> oks[i]
    ensures db.collections == AddedMembers(old(db.collections), ids, recs, classYear, oks)
  {
    allOk := true;
    for i := 0 to |ids|
      invariant db.collections == AddedMembers(old(db.collections), ids[..i], recs[..i], classYear, oks[..i])
      invariant allOk == forall k :: 0 <= k < i ==> oks[k]
      invariant forall k :: i <= k < |ids| ==> ids[k] !in db.Coll("members")
    {
      AddedMembersStep(old(db.collections), ids, recs, classYear, oks, i);
      var ok := db.AddDoc("members", ids[i], MemberRecord(recs[i], classYear), oks[i]);
      forall k | i + 1 <= k < |ids| ensures ids[k] !in db.Coll("members") {
        assert ids[k] != ids[i];
      }
      allOk := allOk && ok;
    }
    assert ids[..|ids|] == ids && recs[..|ids|] == recs && oks[..|ids|] == oks;
  }

  /** The `AdminDashboard` component's state. */
  class Dashboard {
    var posts: seq<Post>
    var showAddForm: bool
    var newMembers: NewMembersForm
    var parsedMembers: seq<MemberName>
    var isAdding: bool
    var deletingPost: Option<string>

    constructor (initialPosts: seq<Post>)
      ensures posts == initialPosts && !showAddForm && newMembers == BlankNewMembers
      ensures parsedMembers == [] && !isAdding && deletingPost.None?
    {
      posts, showAddForm, newMembers := initialPosts, false, BlankNewMembers;
      parsedMembers, isAdding, deletingPost := [], false, None;
    }

    /** The "Add New Members" / "Cancel" button. */
    method ToggleAddForm()
      modifies this
      ensures showAddForm == !old(showAddForm)
      ensures posts == old(posts) && newMembers == old(newMembers) && parsedMembers == old(parsedMembers)
      ensures isAdding == old(isAdding) && deletingPost == old(deletingPost)
    {
      showAddForm := !showAddForm;
    }

    /** Typing in the names box: the text is kept and the preview re-parsed. */
    method EditNames(text: string)
      modifies this
      ensures newMembers == old(newMembers).(names := text) && parsedMembers == ParseMemberNames(text)
      ensures posts == old(posts) && showAddForm == old(showAddForm)
      ensures isAdding == old(isAdding) && deletingPost == old(deletingPost)
    {
      newMembers := newMembers.(names := text);
      parsedMembers := ParseMemberNames(text);
    }

    method EditClassYear(year: string)
      modifies this
      ensures newMembers == old(newMembers).(classYear := year)
      ensures posts == old(posts) && showAddForm == old(showAddForm) && parsedMembers == old(parsedMembers)
      ensures isAdding == old(isAdding) && deletingPost == old(deletingPost)
    {
      newMembers := newMembers.(classYear := year);
    }

    /**
      `handleAddMembers`: every parsed name is sent (`ids[i]` is the id the store generates for it,
      `oks[i]` whether its write succeeded). Only when all succeeded is the form reset and closed.
    */
    method HandleAddMembers(db: Db, ids: seq<string>, oks: seq<bool>) returns (allOk: bool)
      requires |ids| == |oks| == |ParseMemberNames(newMembers.names)|
      requires NoDuplicates(ids) && forall i :: 0 <= i < |ids| ==> ids[i] !in db.Coll("members")
      modifies this, db
      ensures allOk == forall i :: 0 <= i < |oks| ==> oks[i]
      ensures db.collections == AddedMembers(old(db.collections), ids, ParseMemberNames(old(newMembers.names)),
                                             old(newMembers.classYear), oks)
      ensures allOk ==> newMembers == BlankNewMembers && parsedMembers == [] && !showAddForm
      ensures !allOk ==> newMembers == old(newMembers) && parsedMembers == ParseMemberNames(old(newMembers.names))
                         && showAddForm == old(showAddForm)
      ensures !isAdding && posts == old(posts) && deletingPost == old(deletingPost)
    {
      isAdding := true;
      var recs := ParseMemberNames(newMembers.names);
      parsedMembers := recs;
      allOk := AddAll(db, ids, recs, newMembers.classYear, oks);
      if allOk {
        newMembers := BlankNewMembers;
        parsedMembers := [];
        showAddForm := false;
      }
      isAdding := false;
    }

    /**
      `handleDeletePost`: after confirmation the post's document is deleted first (`reachable` is
      whether that succeeded); only then is its featured image, if any, sent for deletion
      (`destroyed` is that request's outcome, which is only logged), and the post leaves the list.
      Returns the ids of the image delete requests sent.
    */
    method HandleDeletePost(db: Db, postId: string, confirmed: bool, reachable: bool, destroyed: bool)
      returns (requests: seq<string>)
      modifies this, db
      ensures !confirmed ==> db.collections == old(db.collections) && posts == old(posts)
                             && deletingPost == old(deletingPost) && requests == []
      ensures confirmed ==> deletingPost.None?
      ensures confirmed && !reachable ==> db.collections == old(db.collections) && posts == old(posts) && requests == []
      ensures confirmed && reachable ==>
        && db.collections == Deleted(old(db.collections), "posts", postId)
        && posts == WithoutPost(old(posts), postId)
        && requests == match FindPost(old(posts), postId)
             case Some(p) => if HasFeaturedImage(p) then Cloudinary.DeleteRequests([p.featuredImage.value]) else []
             case None => []
      ensures showAddForm == old(showAddForm) && newMembers == old(newMembers)
      ensures parsedMembers == old(parsedMembers) && isAdding == old(isAdding)
    {
      requests := [];
      if !confirmed {
        return;
      }
      deletingPost := Some(postId);
      var postToDelete := FindPost(posts, postId);
      var ok := db.DeleteDoc("posts", postId, reachable);
      if ok {
        if postToDelete.Some? && HasFeaturedImage(postToDelete.value) {
          var success, failed;
          success, failed, requests := Cloudinary.DeleteImages([postToDelete.value.featuredImage.value], [destroyed]);
        }
        posts := WithoutPost(posts, postId);
      }
      deletingPost := None;
    }
  }
}

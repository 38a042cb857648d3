/**
  The home page's post list: every stored post becomes a record with defaults for its missing
  fields, its author's picture and its number of comments; deleting a post drops it from the
  list, and saving an edited post writes four fields to the store and merges the whole edit into
  the listed post.
*/
module HomePage {
  import opened Common
  import opened JsValues
  import opened Firestore
  import opened Lists

  const PostsCollection: string := "posts"
  const UnknownAuthor: string := "Unknown Author"
  const DeletedMessage: string := "Post deleted successfully!"
  const DeleteFailedMessage: string := "Failed to delete post. Please try again."
  const UpdatedMessage: string := "Post updated successfully!"
  const UpdateFailedMessage: string := "Failed to update post. Please try again."

  /** A stored post: its id and its fields. */
  datatype PostDoc = PostDoc(id: string, data: Doc)

  // ---------------------------------------------------------------------------------------------
  // Loading

  /**
    The author's `profilePicture || null`, read from the `users` document named by a truthy string
    `authorId` when that read went through (`reachable`) and found the document; null otherwise.
  */
  function AuthorPicture(data: Doc, users: Collection, reachable: bool): JsValue {
    match Get(data, "authorId")
    case Str(uid) => if uid != "" && reachable && uid in users then Or(Get(users[uid], "profilePicture"), Null) else Null
    case _ => Null
  }

  /** The number of comments: the size of the `comments` subcollection, 0 when reading it failed. */
  function CommentCount(comments: Option<nat>): nat {
    if comments.Some? then comments.value else 0
  }

  /** The record `fetchPosts` pushes for a post (its `date` is not modelled). */
  function PostRecord(p: PostDoc, picture: JsValue, commentCount: nat): Doc {
    map["id" := Str(p.id), "slug" := Str(p.id), "title" := Or(Get(p.data, "title"), Str(p.id)),
        "content" := Or(Get(p.data, "content"), Str("")), "excerpt" := Or(Get(p.data, "excerpt"), Str("")),
        "authorName" := Or(Get(p.data, "authorName"), Str(UnknownAuthor)), "authorId" := Get(p.data, "authorId"),
        "authorProfilePicture" := picture, "featuredImage" := Or(Get(p.data, "featuredImage"), Null),
        "commentCount" := Num(commentCount as real)]
  }

  /**
    The slug is the document id; the title falls back to the id; content and excerpt to "", the
    author's name to "Unknown Author", the featured image to null; a stored author id is copied;
    a failed comment read counts as no comments.
  */
  lemma PostRecordSpec(p: PostDoc, users: Collection, reachable: bool, comments: Option<nat>)
    ensures var r := PostRecord(p, AuthorPicture(p.data, users, reachable), CommentCount(comments));
      && r["id"] == Str(p.id) && r["slug"] == Str(p.id)
      && DefaultsTo(Get(p.data, "title"), r["title"], Str(p.id))
      && DefaultsTo(Get(p.data, "content"), r["content"], Str(""))
      && DefaultsTo(Get(p.data, "excerpt"), r["excerpt"], Str(""))
      && DefaultsTo(Get(p.data, "authorName"), r["authorName"], Str(UnknownAuthor))
      && DefaultsTo(Get(p.data, "featuredImage"), r["featuredImage"], Null)
      && r["authorId"] == Get(p.data, "authorId")
      && (comments.None? ==> r["commentCount"] == Num(0.0))
      && (comments.Some? ==> r["commentCount"] == Num(comments.value as real))
      && (!Truthy(Get(p.data, "authorId")) || !reachable ==> r["authorProfilePicture"] == Null)
  {
  }

  /** The list `fetchPosts` builds, one record per stored post, in snapshot order. */
  function PostRecords(docs: seq<PostDoc>, users: Collection, reachable: seq<bool>, comments: seq<Option<nat>>): seq<Doc>
    requires |reachable| == |docs| && |comments| == |docs|
  {
    seq(|docs|, i requires 0 <= i < |docs| =>
      PostRecord(docs[i], AuthorPicture(docs[i].data, users, reachable[i]), CommentCount(comments[i])))
  }

  /** One turn of `fetchPosts`'s loop: the author's picture, the comment count, the record. */
  method LoadPost(p: PostDoc, users: Collection, reachable: bool, comments: Option<nat>) returns (record: Doc)
    ensures record == PostRecord(p, AuthorPicture(p.data, users, reachable), CommentCount(comments))
  {
    var picture := Null;
    var authorId := Get(p.data, "authorId");
    if authorId.Str? && authorId.s != "" && reachable && authorId.s in users {
      picture := Or(Get(users[authorId.s], "profilePicture"), Null);
    }
    var commentCount := 0;
    if comments.Some? {
      commentCount := comments.value;
    }
    record := PostRecord(p, picture, commentCount);
  }

  /** `fetchPosts`'s loop over the snapshot. */
  method BuildPosts(docs: seq<PostDoc>, users: Collection, reachable: seq<bool>, comments: seq<Option<nat>>)
    returns (postsData: seq<Doc>)
    requires |reachable| == |docs| && |comments| == |docs|
    ensures postsData == PostRecords(docs, users, reachable, comments)
  {
    postsData := [];
    var i := 0;
    while i < |docs|
      invariant 0 <= i <= |docs|
      invariant |postsData| == i
      invariant forall k :: 0 <= k < i ==> postsData[k] == PostRecords(docs, users, reachable, comments)[k]
    {
      var record := LoadPost(docs[i], users, reachable[i], comments[i]);
      postsData := postsData + [record];
      i := i + 1;
    }
  }

  // ---------------------------------------------------------------------------------------------
  // Deleting and saving

  /** `posts.filter((p) => p.id !== post.id)` */
  function WithoutPost(posts: seq<Doc>, id: JsValue): seq<Doc> {
    Filter(posts, (p: Doc) => Get(p, "id") != id)
  }

  /** Exactly the posts with the id are dropped; the others are kept as often as before, in order. */
  lemma WithoutPostSpec(posts: seq<Doc>, id: JsValue)
    ensures forall p :: p in WithoutPost(posts, id) <==> p in posts && Get(p, "id") != id
    ensures forall p :: Get(p, "id") != id ==> multiset(WithoutPost(posts, id))[p] == multiset(posts)[p]
    ensures forall a, b :: posts == a + b ==> WithoutPost(posts, id) == WithoutPost(a, id) + WithoutPost(b, id)
  {
    var keep := (p: Doc) => Get(p, "id") != id;
    FilterMembers(posts, keep);
    FilterMultiset(posts, keep);
    forall a, b | posts == a + b ensures WithoutPost(posts, id) == WithoutPost(a, id) + WithoutPost(b, id) {
      FilterConcat(a, b, keep);
    }
  }

  /** The fields `handleSavePost` sends to the store (`updatedAt` is not modelled). */
  function StoredUpdate(updated: Doc): Doc {
    map["title" := Get(updated, "title"), "content" := Get(updated, "content"),
        "excerpt" := Get(updated, "excerpt"), "featuredImage" := Get(updated, "featuredImage")]
  }

  /** `{ ...p, ...updatedPost }` for the posts with the edited post's id. */
  function WithSavedPost(posts: seq<Doc>, updated: Doc): (r: seq<Doc>)
    ensures |r| == |posts|
    ensures forall i :: 0 <= i < |posts| && Get(posts[i], "id") != Get(updated, "id") ==> r[i] == posts[i]
  {
    Map(posts, (p: Doc) => if Get(p, "id") == Get(updated, "id") then p + updated else p)
  }

  /**
    The list keeps its length; a post with the edited id takes every field of the edit and keeps
    its other fields; every other post is untouched. The store gets the four edited fields only.
  */
  lemma WithSavedPostSpec(posts: seq<Doc>, updated: Doc)
    ensures |WithSavedPost(posts, updated)| == |posts|
    ensures forall i :: 0 <= i < |posts| && Get(posts[i], "id") != Get(updated, "id") ==>
      WithSavedPost(posts, updated)[i] == posts[i]
    ensures forall i, k :: 0 <= i < |posts| && Get(posts[i], "id") == Get(updated, "id") ==>
      Get(WithSavedPost(posts, updated)[i], k) == if k in updated then updated[k] else Get(posts[i], k)
    ensures StoredUpdate(updated).Keys == {"title", "content", "excerpt", "featuredImage"}
  {
  }

  // ---------------------------------------------------------------------------------------------
  // The page

  class Home {
    var posts: seq<Doc>
    var loading: bool
    var editingPost: Option<Doc>
    var editModalOpen: bool

    constructor ()
      ensures posts == [] && loading && editingPost.None? && !editModalOpen
    {
      posts, loading, editingPost, editModalOpen := [], true, None, false;
    }

    /**
      `fetchPosts`: `snapshot` is the `posts` collection as read (None when the read failed, which
      empties the list); `users` is the `users` collection, `reachable[i]` whether the i-th author
      read went through and `comments[i]` the i-th comment count (None when that read failed).
    */
    method FetchPosts(snapshot: Option<seq<PostDoc>>, users: Collection, reachable: seq<bool>, comments: seq<Option<nat>>)
      requires snapshot.Some? ==> |reachable| == |snapshot.value| && |comments| == |snapshot.value|
      modifies this
      ensures snapshot.None? ==> posts == []
      ensures snapshot.Some? ==> posts == PostRecords(snapshot.value, users, reachable, comments)
      ensures !loading && editingPost == old(editingPost) && editModalOpen == old(editModalOpen)
    {
      var postsData: seq<Doc> := [];
      if snapshot.Some? {
        postsData := BuildPosts(snapshot.value, users, reachable, comments);
      }
      posts := postsData;
      loading := false;
    }

    method HandleEditPost(post: Doc)
      modifies this
      ensures editingPost == Some(post) && editModalOpen && posts == old(posts) && loading == old(loading)
    {
      editingPost := Some(post);
      editModalOpen := true;
    }

    method HandleCloseEditModal()
      modifies this
      ensures editingPost.None? && !editModalOpen && posts == old(posts) && loading == old(loading)
    {
      editModalOpen := false;
      editingPost := None;
    }

    /**
      `handleDeletePost`: unless the reader confirms nothing happens. Otherwise the post's document
      is deleted; on success the posts with its id leave the list; the alert (returned) tells which.
    */
    method HandleDeletePost(db: Db, postId: string, confirmed: bool, reachable: bool) returns (alert: Option<string>)
      modifies this, db
      ensures !confirmed ==> alert.None? && db.collections == old(db.collections) && posts == old(posts)
      ensures confirmed && reachable ==>
        && db.collections == Deleted(old(db.collections), PostsCollection, postId)
        && posts == WithoutPost(old(posts), Str(postId)) && alert == Some(DeletedMessage)
      ensures confirmed && !reachable ==>
        db.collections == old(db.collections) && posts == old(posts) && alert == Some(DeleteFailedMessage)
      ensures editingPost == old(editingPost) && editModalOpen == old(editModalOpen) && loading == old(loading)
    {
      alert := None;
      if !confirmed {
        return;
      }
      var ok := db.DeleteDoc(PostsCollection, postId, reachable);
      if ok {
        posts := Filter(posts, (p: Doc) => Get(p, "id") != Str(postId));
        alert := Some(DeletedMessage);
      } else {
        alert := Some(DeleteFailedMessage);
      }
    }

    /**
      `handleSavePost`: the four edited fields go to the post's document (which must exist and
      have a string id); on success the edit is merged into the listed post and the modal closes;
      the alert (returned) tells which.
    */
    method HandleSavePost(db: Db, updated: Doc, reachable: bool) returns (alert: string)
      modifies this, db
      ensures var ok := Get(updated, "id").Str? && reachable && Get(updated, "id").s in old(db.Coll(PostsCollection));
        && (ok ==>
              && db.collections == Merged(old(db.collections), PostsCollection, Get(updated, "id").s, StoredUpdate(updated))
              && posts == WithSavedPost(old(posts), updated)
              && !editModalOpen && editingPost.None? && alert == UpdatedMessage)
        && (!ok ==>
              && db.collections == old(db.collections) && posts == old(posts)
              && editModalOpen == old(editModalOpen) && editingPost == old(editingPost)
              && alert == UpdateFailedMessage)
      ensures loading == old(loading)
    {
      if !Get(updated, "id").Str? {
        alert := UpdateFailedMessage;
        return;
      }
      var ok := db.UpdateDoc(PostsCollection, Get(updated, "id").s, StoredUpdate(updated), reachable);
      if ok {
        posts := Map(posts, (p: Doc) => if Get(p, "id") == Get(updated, "id") then p + updated else p);
        editModalOpen := false;
        editingPost := None;
        alert := UpdatedMessage;
      } else {
        alert := UpdateFailedMessage;
      }
    }
  }
}

/**
  The post editor: a form opened on a post, whose save is refused while the title or the content
  is blank, and otherwise hands on the post with the trimmed texts, the image and the privacy flag
  of the form and every other field of the post unchanged.
*/
module EditPostModal {
  import opened JsString
  import opened JsValues

  const TitleMissing: string := "Please enter a title for your post."
  const ContentMissing: string := "Please enter content for your post."

  /** The form's state. */
  datatype Form = Form(title: string, content: string, excerpt: string, featuredImage: JsValue, isPrivate: JsValue)

  /**
    The form as it opens: `post.title || ""` and so on for the texts, `post.featuredImage || ""`
    and `post.private || false`.
  */
  function FormOf(post: Doc): (form: Form)
    ensures FormValues(form)
  {
    Form(TextOf(Or(Get(post, "title"), Str(""))), TextOf(Or(Get(post, "content"), Str(""))),
         TextOf(Or(Get(post, "excerpt"), Str(""))), Or(Get(post, "featuredImage"), Str("")),
         Or(Get(post, "private"), Bool(false)))
  }

  datatype SaveResult = Rejected(alert: string) | Saved(updated: Doc)

  /** The fields the save sets. */
  const EditedFields: set<string> := {"title", "content", "excerpt", "featuredImage", "private"}

  /** `{ ...post, title: title.trim(), content: content.trim(), excerpt: excerpt.trim(), featuredImage, private }` */
  function UpdatedPost(post: Doc, form: Form): Doc {
    post + map["title" := Str(Trim(form.title)), "content" := Str(Trim(form.content)),
               "excerpt" := Str(Trim(form.excerpt)), "featuredImage" := form.featuredImage,
               "private" := form.isPrivate]
  }

  /**
    The updated post has the three texts trimmed, the image and the flag as the form holds them,
    and every other field of the post as it was.
  */
  lemma UpdatedPostSpec(post: Doc, form: Form)
    ensures var u := UpdatedPost(post, form);
      && u.Keys == post.Keys + EditedFields
      && u["title"] == Str(Trim(form.title)) && u["content"] == Str(Trim(form.content))
      && u["excerpt"] == Str(Trim(form.excerpt))
      && u["featuredImage"] == form.featuredImage && u["private"] == form.isPrivate
      && (forall k :: k in post && k !in EditedFields ==> u[k] == post[k])
  {
  }

  /** `handleSave`: the title is checked first, then the content; otherwise the updated post. */
  function HandleSave(post: Doc, form: Form): (r: SaveResult)
    ensures r.Saved? <==> Trim(form.title) != "" && Trim(form.content) != ""
    ensures r.Saved? ==> r.updated.Keys == post.Keys + EditedFields
  {
    if IsBlank(form.title) then Rejected(TitleMissing)
    else if IsBlank(form.content) then Rejected(ContentMissing)
    else Saved(UpdatedPost(post, form))
  }

  /**
    A blank title is refused whatever the content, blank content with a title is refused, and
    otherwise the updated post is handed on; a refused save names what is missing.
  */
  lemma HandleSaveSpec(post: Doc, form: Form)
    ensures IsBlank(form.title) ==> HandleSave(post, form) == Rejected(TitleMissing)
    ensures !IsBlank(form.title) && IsBlank(form.content) ==> HandleSave(post, form) == Rejected(ContentMissing)
    ensures !IsBlank(form.title) && !IsBlank(form.content) ==> HandleSave(post, form) == Saved(UpdatedPost(post, form))
    ensures HandleSave(post, form).Saved? ==> Trim(form.title) != "" && Trim(form.content) != ""
  {
  }

  /** The Save button's `disabled` expression. */
  predicate SaveDisabled(saving: bool, form: Form) {
    saving || IsBlank(form.title) || IsBlank(form.content)
  }

  /** When no save is running, the button is disabled exactly when saving would be refused. */
  lemma SaveDisabledIffRejected(post: Doc, form: Form)
    ensures SaveDisabled(false, form) <==> HandleSave(post, form).Rejected?
  {
  }

  /** The image and the flag as the form holds them after opening on a post. */
  predicate FormValues(form: Form) {
    (Truthy(form.featuredImage) || form.featuredImage == Str("")) && (Truthy(form.isPrivate) || form.isPrivate == Bool(false))
  }

  /**
    Each field opens as `post.x || default`: a stored string text is shown as it is and a falsy
    one as ""; the image falls back to "" and the flag to false.
  */
  lemma FormOfValues(post: Doc)
    ensures var form := FormOf(post);
      && (Get(post, "title").Str? ==> form.title == Get(post, "title").s)
      && (!Truthy(Get(post, "title")) ==> form.title == "")
      && (Get(post, "content").Str? ==> form.content == Get(post, "content").s)
      && (!Truthy(Get(post, "content")) ==> form.content == "")
      && (Get(post, "excerpt").Str? ==> form.excerpt == Get(post, "excerpt").s)
      && (!Truthy(Get(post, "excerpt")) ==> form.excerpt == "")
      && DefaultsTo(Get(post, "featuredImage"), form.featuredImage, Str(""))
      && DefaultsTo(Get(post, "private"), form.isPrivate, Bool(false))
  {
  }

  /** Opening the editor on a saved post and saving it again at once changes nothing. */
  lemma SaveAgainChangesNothing(post: Doc, form: Form)
    requires FormValues(form)
    requires HandleSave(post, form).Saved?
    ensures var u := HandleSave(post, form).updated;
      HandleSave(u, FormOf(u)) == Saved(u)
  {
    var u := HandleSave(post, form).updated;
    TrimIdempotent(form.title);
    TrimIdempotent(form.content);
    TrimIdempotent(form.excerpt);
    var f := FormOf(u);
    assert f.title == Trim(form.title);
    assert f.content == Trim(form.content);
    assert f.excerpt == Trim(form.excerpt);
    assert UpdatedPost(u, f) == u;
  }
}

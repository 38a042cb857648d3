/**
  The newsletters page: the preview-image URL it derives from a stored PDF URL by rewriting the
  first Cloudinary delivery segment, the PDF-only file picker, the guarded submit that uploads the
  file and adds a `newsletters` record, and the delete that destroys the stored asset (when the URL
  has a public id) before deleting the record, whatever the destroy request answered.
*/
module Newsletters {
  import opened Common
  import opened JsString
  import opened JsValues
  import Firestore
  import Cloudinary
  import ImageUtils
  import AuthFlow

  // ---------------------------------------------------------------------------------------------
  // The preview URL

  const RawUpload: string := "/raw/upload/"
  const VersionedUpload: string := "/upload/v"
  const Upload: string := "/upload/"
  const ImageUpload: string := "/image/upload/"
  /** First page, as a 300x400 JPEG, cropped to fill, automatic quality. */
  const PreviewTransform: string := "f_jpg,pg_1,w_300,h_400,c_fill,q_auto/"

  /** `getPDFPreviewUrl` */
  function PdfPreviewUrl(pdfUrl: string): (preview: string)
    ensures !Contains(pdfUrl, Upload) ==> preview == pdfUrl
  {
    MarkersContainUpload(pdfUrl);
    if Contains(pdfUrl, RawUpload) then ReplaceFirst(pdfUrl, RawUpload, ImageUpload + PreviewTransform)
    else if Contains(pdfUrl, VersionedUpload) then ReplaceFirst(pdfUrl, VersionedUpload, Upload + PreviewTransform + "v")
    else if Contains(pdfUrl, Upload) then ReplaceFirst(pdfUrl, Upload, Upload + PreviewTransform)
    else pdfUrl
  }

  /** Both longer markers contain "/upload/", so a URL without it takes none of the branches. */
  lemma MarkersContainUpload(url: string)
    ensures Contains(url, RawUpload) ==> Contains(url, Upload)
    ensures Contains(url, VersionedUpload) ==> Contains(url, Upload)
  {
    if Contains(url, RawUpload) {
      var k :| 0 <= k <= |url| && OccursAt(url, RawUpload, k);
      assert url[k + 4..][..|Upload|] == url[k..][4..12];
      assert OccursAt(url, Upload, k + 4);
    }
    if Contains(url, VersionedUpload) {
      var k :| 0 <= k <= |url| && OccursAt(url, VersionedUpload, k);
      assert url[k..][..|Upload|] == url[k..][..9][..8];
      assert OccursAt(url, Upload, k);
    }
  }

  /**
    A raw-resource URL is switched to the image endpoint with the transform: the first
    "/raw/upload/" is replaced and everything around it is kept.
  */
  lemma PreviewOfRaw(url: string) returns (i: nat)
    requires Contains(url, RawUpload)
    ensures OccursAt(url, RawUpload, i) && forall k :: 0 <= k < i ==> !OccursAt(url, RawUpload, k)
    ensures i + |RawUpload| <= |url|
    ensures PdfPreviewUrl(url) == url[..i] + ImageUpload + PreviewTransform + url[i + |RawUpload|..]
  {
    IndexOfSpec(url, RawUpload);
    i := IndexOf(url, RawUpload).value;
  }

  /**
    Otherwise a versioned URL gets the transform inserted right after the first "/upload/" that is
    followed by "v", that is, before the version.
  */
  lemma PreviewOfVersioned(url: string) returns (i: nat)
    requires !Contains(url, RawUpload) && Contains(url, VersionedUpload)
    ensures OccursAt(url, VersionedUpload, i) && forall k :: 0 <= k < i ==> !OccursAt(url, VersionedUpload, k)
    ensures i + |VersionedUpload| <= |url|
    ensures PdfPreviewUrl(url) == url[..i + |Upload|] + PreviewTransform + url[i + |Upload|..]
  {
    IndexOfSpec(url, VersionedUpload);
    i := IndexOf(url, VersionedUpload).value;
    assert VersionedUpload == Upload + "v";
    InsertBefore(url, i, Upload, "v", PreviewTransform);
  }

  /** Otherwise the transform is appended after the first "/upload/". */
  lemma PreviewOfUnversioned(url: string) returns (i: nat)
    requires !Contains(url, RawUpload) && !Contains(url, VersionedUpload) && Contains(url, Upload)
    ensures OccursAt(url, Upload, i) && forall k :: 0 <= k < i ==> !OccursAt(url, Upload, k)
    ensures i + |Upload| <= |url|
    ensures PdfPreviewUrl(url) == url[..i + |Upload|] + PreviewTransform + url[i + |Upload|..]
  {
    IndexOfSpec(url, Upload);
    i := IndexOf(url, Upload).value;
    InsertBefore(url, i, Upload, "", PreviewTransform);
    assert Upload + "" == Upload;
    assert Upload + PreviewTransform + "" == Upload + PreviewTransform;
  }

  /**
    Replacing an occurrence of `u + v` by `u + t + v` inserts `t` between the two parts and keeps
    everything else.
  */
  lemma InsertBefore(s: string, i: nat, u: string, v: string, t: string)
    requires OccursAt(s, u + v, i)
    ensures i + |u| + |v| <= |s|
    ensures s[..i] + (u + t + v) + s[i + |u + v|..] == s[..i + |u|] + t + s[i + |u|..]
  {
    assert s[i..][..|u + v|] == u + v;
    assert s[..i + |u|] == s[..i] + u;
    assert s[i + |u|..] == v + s[i + |u + v|..];
  }

  /** A URL without "/upload/" is its own preview URL. */
  lemma PreviewWithoutUpload(url: string)
    requires !Contains(url, Upload)
    ensures PdfPreviewUrl(url) == url
  {
    MarkersContainUpload(url);
  }

  // ---------------------------------------------------------------------------------------------
  // The page

  /** The add form: a title, the chosen file, and the issue date. */
  datatype NewsletterForm = NewsletterForm(title: string, pdfFile: Option<ImageUtils.File>, issueDate: string)

  const BlankForm := NewsletterForm("", None, "")
  const PdfType: string := "application/pdf"
  const NewslettersCollection: string := "newsletters"
  const NotAPdfMessage: string := "Please select a PDF file."

  /** `userProfile.username || user.email`, with `null` for an account without an email. */
  function AuthorName(u: AuthFlow.User, profile: Doc): JsValue {
    if Truthy(Get(profile, "username")) then Get(profile, "username")
    else match u.email
      case Some(e) => Str(e)
      case None => Null
  }

  /** The document `handleSubmit` adds (the server timestamp is not modelled). */
  function NewsletterRecord(form: NewsletterForm, pdfUrl: string, u: AuthFlow.User, profile: Doc): Doc {
    map["title" := Str(form.title), "pdfUrl" := Str(pdfUrl), "issueDate" := Str(form.issueDate),
        "authorId" := Str(u.uid), "authorName" := AuthorName(u, profile)]
  }

  /** The record carries the form's fields, the uploaded URL and its author. */
  lemma NewsletterRecordFields(form: NewsletterForm, pdfUrl: string, u: AuthFlow.User, profile: Doc)
    ensures NewsletterRecord(form, pdfUrl, u, profile).Keys == {"title", "pdfUrl", "issueDate", "authorId", "authorName"}
    ensures Get(NewsletterRecord(form, pdfUrl, u, profile), "pdfUrl") == Str(pdfUrl)
    ensures Get(NewsletterRecord(form, pdfUrl, u, profile), "authorId") == Str(u.uid)
    ensures Truthy(Get(profile, "username")) ==>
      Get(NewsletterRecord(form, pdfUrl, u, profile), "authorName") == Get(profile, "username")
    ensures !Truthy(Get(profile, "username")) && u.email.Some? ==>
      Get(NewsletterRecord(form, pdfUrl, u, profile), "authorName") == Str(u.email.value)
  {
  }

  /** The requests a confirmed delete sends, in order. */
  datatype Call = DestroyAsset(publicId: string) | DeleteDocument(id: string)

  function DeleteCalls(pdfUrl: string, newsletterId: string): seq<Call> {
    (match Cloudinary.ExtractPublicId(pdfUrl)
     case Some(p) => [DestroyAsset(p)]
     case None => []) + [DeleteDocument(newsletterId)]
  }

  /**
    The record is always deleted, and last; the asset is destroyed first exactly when the URL has a
    public id, and the request carries only that id.
  */
  lemma DeleteCallsOrder(pdfUrl: string, newsletterId: string)
    ensures |DeleteCalls(pdfUrl, newsletterId)| >= 1
    ensures DeleteCalls(pdfUrl, newsletterId)[|DeleteCalls(pdfUrl, newsletterId)| - 1] == DeleteDocument(newsletterId)
    ensures Cloudinary.ExtractPublicId(pdfUrl).Some? <==> |DeleteCalls(pdfUrl, newsletterId)| == 2
    ensures Cloudinary.ExtractPublicId(pdfUrl).Some? ==>
      DeleteCalls(pdfUrl, newsletterId)[0] == DestroyAsset(Cloudinary.ExtractPublicId(pdfUrl).value)
  {
  }

  datatype Outcome = Skipped | Saved | Failed

  class NewslettersPanel {
    var newNewsletter: NewsletterForm
    var showAddForm: bool
    var uploading: bool
    var deletingNewsletter: Option<string>

    constructor ()
      ensures newNewsletter == BlankForm && !showAddForm && !uploading && deletingNewsletter.None?
    {
      newNewsletter, showAddForm, uploading, deletingNewsletter := BlankForm, false, false, None;
    }

    /**
      `handleFileChange`: only a file whose type is exactly "application/pdf" is kept; anything
      else (or no file) leaves the form as it was and raises the alert, returned here.
    */
    method HandleFileChange(file: Option<ImageUtils.File>) returns (alert: Option<string>)
      modifies this
      ensures file.Some? && file.value.mimeType == PdfType ==>
        newNewsletter == old(newNewsletter).(pdfFile := file) && alert.None?
      ensures !(file.Some? && file.value.mimeType == PdfType) ==>
        newNewsletter == old(newNewsletter) && alert == Some(NotAPdfMessage)
      ensures showAddForm == old(showAddForm) && uploading == old(uploading)
      ensures deletingNewsletter == old(deletingNewsletter)
    {
      if file.Some? && file.value.mimeType == PdfType {
        newNewsletter := newNewsletter.(pdfFile := file);
        alert := None;
      } else {
        alert := Some(NotAPdfMessage);
      }
    }

    /**
      `handleSubmit`: nothing at all happens without a signed-in user, a loaded profile and a chosen
      file. Otherwise the file is uploaded (`uploaded` is the URL it got, None when the upload
      threw), the record is added under the store's fresh id `newId`, and on success the form is
      reset and closed; any failure leaves the store and the form as they were.
    */
    method HandleSubmit(db: Firestore.Db, user: Option<AuthFlow.User>, userProfile: Option<Doc>,
                        uploaded: Option<string>, newId: string, reachable: bool) returns (outcome: Outcome)
      requires newId !in db.Coll(NewslettersCollection)
      modifies this, db
      ensures outcome == Skipped <==> user.None? || userProfile.None? || old(newNewsletter.pdfFile).None?
      ensures outcome == Saved <==> outcome != Skipped && uploaded.Some? && reachable
      ensures outcome == Saved ==>
        db.collections == Firestore.Stored(old(db.collections), NewslettersCollection, newId,
          NewsletterRecord(old(newNewsletter), uploaded.value, user.value, userProfile.value))
      ensures outcome == Saved ==> newNewsletter == BlankForm && !showAddForm
      ensures outcome != Saved ==> db.collections == old(db.collections)
      ensures outcome != Saved ==> newNewsletter == old(newNewsletter) && showAddForm == old(showAddForm)
      ensures uploading == (if outcome == Skipped then old(uploading) else false)
      ensures deletingNewsletter == old(deletingNewsletter)
    {
      if user.None? || userProfile.None? || newNewsletter.pdfFile.None? {
        return Skipped;
      }
      uploading := true;
      outcome := Failed;
      if uploaded.Some? {
        var record := NewsletterRecord(newNewsletter, uploaded.value, user.value, userProfile.value);
        var ok := db.AddDoc(NewslettersCollection, newId, record, reachable);
        if ok {
          newNewsletter := BlankForm;
          showAddForm := false;
          outcome := Saved;
        }
      }
      uploading := false;
    }

    /**
      `handleDeleteNewsletter`: an unconfirmed call does nothing. A confirmed one sends the destroy
      request when the URL has a public id; its answer (`destroyed`) is only logged, so the record
      delete follows either way. `calls` are the requests sent, in order; `alerted` is the alert
      shown when the record delete fails.
    */
    method HandleDeleteNewsletter(db: Firestore.Db, newsletterId: string, pdfUrl: string, confirmed: bool,
                                  destroyed: bool, reachable: bool) returns (calls: seq<Call>, alerted: bool)
      modifies this, db
      ensures !confirmed ==> calls == [] && !alerted && deletingNewsletter == old(deletingNewsletter)
      ensures confirmed ==> calls == DeleteCalls(pdfUrl, newsletterId) && alerted == !reachable
      ensures confirmed ==> deletingNewsletter.None?
      ensures db.collections ==
        if confirmed && reachable then Firestore.Deleted(old(db.collections), NewslettersCollection, newsletterId)
        else old(db.collections)
      ensures newNewsletter == old(newNewsletter) && showAddForm == old(showAddForm) && uploading == old(uploading)
    {
      calls, alerted := [], false;
      if !confirmed {
        return;
      }
      deletingNewsletter := Some(newsletterId);
      var publicId := Cloudinary.ExtractPublicId(pdfUrl);
      if publicId.Some? {
        calls := calls + [DestroyAsset(publicId.value)];
      }
      calls := calls + [DeleteDocument(newsletterId)];
      var ok := db.DeleteDoc(NewslettersCollection, newsletterId, reachable);
      alerted := !ok;
      deletingNewsletter := None;
    }
  }
}

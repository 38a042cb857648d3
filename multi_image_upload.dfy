/**
  The multi-image uploader. A batch of files is validated as a whole: one invalid file rejects the
  batch, and the message names every invalid file. In staging mode an accepted batch joins the
  staged files, up to the image limit, to be uploaded later; otherwise it is uploaded at once.
  Uploads run one after the other, each file leaving exactly one progress entry, and the URLs
  of the successful ones are reported in file order.
*/
module MultiImageUpload {
  import opened Common
  import opened JsString
  import opened Lists
  import opened ImageUtils

  /** The size limit every file is validated against. */
  const MaxSizeMB: nat := 8
  /** `maxImages` when the caller does not set it. */
  const DefaultMaxImages: nat := 20
  const UploadFailedMessage: string := "Upload failed"

  /** A staged file and its generated id (the preview URL is not modelled). */
  datatype StagedFile = StagedFile(file: File, id: string)

  datatype Status = Uploading | Completed(url: string) | UploadError(message: string)

  datatype Progress = Progress(file: File, percent: nat, status: Status)

  // ---------------------------------------------------------------------------------------------
  // Validation

  /** `File ${index + 1}: ${error}` */
  function ErrorLine(index: nat, error: string): string {
    "File " + NatToString(index + 1) + ": " + error
  }

  /** Each file's validation result, in file order. */
  function Checks(files: seq<File>): seq<Option<string>> {
    seq(|files|, i requires 0 <= i < |files| => ValidateImageFile(files[i], MaxSizeMB))
  }

  /** The line of every failed check, in order. */
  function ErrorLines(checks: seq<Option<string>>): (errors: seq<string>)
    ensures |errors| <= |checks|
  {
    if checks == [] then []
    else
      var n := |checks| - 1;
      ErrorLines(checks[..n]) + if checks[n].Some? then [ErrorLine(n, checks[n].value)] else []
  }

  /** There are no lines exactly when every check passed, and every failed check has its line. */
  lemma {:induction false} ErrorLinesSpec(checks: seq<Option<string>>)
    ensures ErrorLines(checks) == [] <==> forall i :: 0 <= i < |checks| ==> checks[i].None?
    ensures forall i :: 0 <= i < |checks| && checks[i].Some? ==> ErrorLine(i, checks[i].value) in ErrorLines(checks)
  {
    if checks != [] {
      var n := |checks| - 1;
      var p := checks[..n];
      ErrorLinesSpec(p);
      var tail := if checks[n].Some? then [ErrorLine(n, checks[n].value)] else [];
      assert ErrorLines(checks) == ErrorLines(p) + tail;
      assert forall i :: 0 <= i < n ==> p[i] == checks[i];
      forall i | 0 <= i < |checks| && checks[i].Some? ensures ErrorLine(i, checks[i].value) in ErrorLines(checks) {
        if i < n {
          assert ErrorLine(i, p[i].value) in ErrorLines(p);
        } else {
          assert ErrorLine(i, checks[i].value) in tail;
        }
      }
    }
  }

  /** The validation errors of a batch. */
  function ValidationErrors(files: seq<File>): seq<string> {
    ErrorLines(Checks(files))
  }

  /**
    The batch is free of errors exactly when every file passes, and the line of every failing file,
    with that file's own message, is among the errors.
  */
  lemma ValidationErrorsSpec(files: seq<File>)
    ensures ValidationErrors(files) == [] <==> forall i :: 0 <= i < |files| ==> ValidateImageFile(files[i], MaxSizeMB).None?
    ensures forall i :: 0 <= i < |files| && ValidateImageFile(files[i], MaxSizeMB).Some? ==>
      ErrorLine(i, ValidateImageFile(files[i], MaxSizeMB).value) in ValidationErrors(files)
  {
    var checks := Checks(files);
    ErrorLinesSpec(checks);
    assert forall i :: 0 <= i < |files| ==> checks[i] == ValidateImageFile(files[i], MaxSizeMB);
  }

  /** The `forEach` that collects the validation errors. */
  method CollectValidationErrors(files: seq<File>) returns (errors: seq<string>)
    ensures errors == ValidationErrors(files)
  {
    var checks := Checks(files);
    errors := [];
    var i := 0;
    while i < |files|
      invariant 0 <= i <= |files|
      invariant errors == ErrorLines(checks[..i])
    {
      assert checks[..i + 1][..i] == checks[..i];
      var error := ValidateImageFile(files[i], MaxSizeMB);
      if error.Some? {
        errors := errors + [ErrorLine(i, error.value)];
      }
      i := i + 1;
    }
    assert checks[..i] == checks;
  }

  function TooManyMessage(maxImages: nat): string {
    "Maximum " + NatToString(maxImages) + " images allowed"
  }

  // ---------------------------------------------------------------------------------------------
  // Staging

  /** The staged entries for an accepted batch: each file with its generated id, in file order. */
  function StagedEntries(files: seq<File>, ids: seq<string>): seq<StagedFile>
    requires |ids| == |files|
  {
    seq(|files|, i requires 0 <= i < |files| => StagedFile(files[i], ids[i]))
  }

  /** Whether `stageFiles` takes the batch. */
  predicate StagingAccepts(stagedCount: nat, files: seq<File>, maxImages: nat) {
    ValidationErrors(files) == [] && stagedCount + |files| <= maxImages
  }

  /** `stagedFiles` after `stageFiles`. */
  function AfterStaging(staged: seq<StagedFile>, files: seq<File>, ids: seq<string>, maxImages: nat): seq<StagedFile>
    requires |ids| == |files|
  {
    if StagingAccepts(|staged|, files, maxImages) then staged + StagedEntries(files, ids) else staged
  }

  /**
    Staging never takes the staged count past the limit; an accepted batch follows the staged
    files in its own order, and one invalid file or too many files leaves them as they were.
  */
  lemma AfterStagingSpec(staged: seq<StagedFile>, files: seq<File>, ids: seq<string>, maxImages: nat)
    requires |ids| == |files|
    ensures |staged| <= maxImages ==> |AfterStaging(staged, files, ids, maxImages)| <= maxImages
    ensures StagingAccepts(|staged|, files, maxImages) ==>
      && |AfterStaging(staged, files, ids, maxImages)| == |staged| + |files|
      && AfterStaging(staged, files, ids, maxImages)[..|staged|] == staged
      && forall i :: 0 <= i < |files| ==> AfterStaging(staged, files, ids, maxImages)[|staged| + i].file == files[i]
    ensures (exists i :: 0 <= i < |files| && ValidateImageFile(files[i], MaxSizeMB).Some?) ==>
      AfterStaging(staged, files, ids, maxImages) == staged
  {
    ValidationErrorsSpec(files);
  }

  /** `removeStagedFile(id)`: the staged files without those carrying the id. */
  function WithoutStaged(staged: seq<StagedFile>, id: string): seq<StagedFile> {
    Filter(staged, (f: StagedFile) => f.id != id)
  }

  /** No entry with the id is left, every other entry is kept as often as before, in order. */
  lemma WithoutStagedSpec(staged: seq<StagedFile>, id: string)
    ensures forall f: StagedFile :: f in WithoutStaged(staged, id) <==> f in staged && f.id != id
    ensures forall f: StagedFile :: f.id != id ==> multiset(WithoutStaged(staged, id))[f] == multiset(staged)[f]
    ensures |WithoutStaged(staged, id)| <= |staged|
    ensures (forall f: StagedFile :: f in staged ==> f.id != id) ==> WithoutStaged(staged, id) == staged
  {
    var keep := (f: StagedFile) => f.id != id;
    FilterMembers(staged, keep);
    FilterMultiset(staged, keep);
    FilterLength(staged, keep);
    if forall f: StagedFile :: f in staged ==> f.id != id {
      FilterAll(staged, keep);
    }
  }

  // ---------------------------------------------------------------------------------------------
  // Uploading

  /** The progress entry a file leaves: its URL when `upload` delivered one, the error otherwise. */
  function Outcome(file: File, upload: Option<string>): Progress {
    match upload
    case Some(url) => Progress(file, 100, Completed(url))
    case None => Progress(file, 0, UploadError(UploadFailedMessage))
  }

  function Outcomes(files: seq<File>, uploads: seq<Option<string>>): seq<Progress>
    requires |uploads| == |files|
  {
    seq(|files|, i requires 0 <= i < |files| => Outcome(files[i], uploads[i]))
  }

  /** The URLs the uploads delivered, in file order. */
  function UploadedUrls(uploads: seq<Option<string>>): (urls: seq<string>)
    ensures |urls| <= |uploads|
  {
    if uploads == [] then []
    else
      var n := |uploads| - 1;
      UploadedUrls(uploads[..n]) + if uploads[n].Some? then [uploads[n].value] else []
  }

  /**
    No URL is reported exactly when every upload failed; each delivered URL is reported, and only
    those; each progress entry is complete or failed, matching its file's upload.
  */
  lemma {:induction false} UploadedUrlsSpec(uploads: seq<Option<string>>)
    ensures UploadedUrls(uploads) == [] <==> forall i :: 0 <= i < |uploads| ==> uploads[i].None?
    ensures forall u :: u in UploadedUrls(uploads) <==> Some(u) in uploads
  {
    if uploads != [] {
      var n := |uploads| - 1;
      UploadedUrlsSpec(uploads[..n]);
      assert uploads == uploads[..n] + [uploads[n]];
    }
  }

  lemma OutcomesSpec(files: seq<File>, uploads: seq<Option<string>>)
    requires |uploads| == |files|
    ensures |Outcomes(files, uploads)| == |files|
    ensures forall i :: 0 <= i < |files| ==>
      && Outcomes(files, uploads)[i].file == files[i]
      && !Outcomes(files, uploads)[i].status.Uploading?
      && (Outcomes(files, uploads)[i].status.Completed? <==> uploads[i].Some?)
  {
  }

  /**
    The upload loop: `uploads[i]` is the URL Cloudinary returned for the i-th file, or None when
    its processing or upload failed.
  */
  method UploadAll(files: seq<File>, uploads: seq<Option<string>>) returns (urls: seq<string>, completed: seq<Progress>)
    requires |uploads| == |files|
    ensures urls == UploadedUrls(uploads)
    ensures completed == Outcomes(files, uploads)
  {
    urls, completed := [], [];
    var i := 0;
    while i < |files|
      invariant 0 <= i <= |files|
      invariant urls == UploadedUrls(uploads[..i])
      invariant completed == Outcomes(files[..i], uploads[..i])
    {
      assert uploads[..i + 1][..i] == uploads[..i];
      if uploads[i].Some? {
        urls := urls + [uploads[i].value];
        completed := completed + [Progress(files[i], 100, Completed(uploads[i].value))];
      } else {
        completed := completed + [Progress(files[i], 0, UploadError(UploadFailedMessage))];
      }
      i := i + 1;
    }
    assert uploads[..i] == uploads && files[..i] == files;
  }

  function FilesOf(staged: seq<StagedFile>): seq<File> {
    Map(staged, (s: StagedFile) => s.file)
  }

  // ---------------------------------------------------------------------------------------------
  // The component

  class Uploader {
    const maxImages: nat
    const stagingMode: bool
    var uploading: bool
    var progress: seq<Progress>
    var error: string
    var staged: seq<StagedFile>

    constructor (maxImages: nat, stagingMode: bool)
      ensures this.maxImages == maxImages && this.stagingMode == stagingMode
      ensures !uploading && progress == [] && error == "" && staged == []
    {
      this.maxImages, this.stagingMode := maxImages, stagingMode;
      uploading, progress, error, staged := false, [], "", [];
    }

    /**
      `stageFiles`: `ids` are the generated ids. A rejected batch sets the error (every failing
      file's line, or the limit) and stages nothing; an accepted one clears the error.
    */
    method StageFiles(files: seq<File>, ids: seq<string>)
      requires |ids| == |files|
      modifies this
      ensures staged == AfterStaging(old(staged), files, ids, maxImages)
      ensures ValidationErrors(files) != [] ==> error == Join(ValidationErrors(files), ", ")
      ensures ValidationErrors(files) == [] && !StagingAccepts(|old(staged)|, files, maxImages) ==>
        error == TooManyMessage(maxImages)
      ensures StagingAccepts(|old(staged)|, files, maxImages) ==> error == ""
      ensures uploading == old(uploading) && progress == old(progress)
    {
      var errors := CollectValidationErrors(files);
      if |errors| > 0 {
        error := Join(errors, ", ");
        return;
      }
      if |staged| + |files| > maxImages {
        error := TooManyMessage(maxImages);
        return;
      }
      error := "";
      staged := staged + StagedEntries(files, ids);
    }

    /** `removeStagedFile(id)` */
    method RemoveStagedFile(id: string)
      modifies this
      ensures staged == WithoutStaged(old(staged), id)
      ensures uploading == old(uploading) && progress == old(progress) && error == old(error)
    {
      staged := Filter(staged, (f: StagedFile) => f.id != id);
    }

    /**
      `handleFiles`: in staging mode the batch is staged. Otherwise a batch with an invalid file,
      or more files than the limit, is refused before anything is uploaded; an accepted batch is
      uploaded file by file, the progress ends with one entry per file, and the delivered URLs are
      reported (returned) when there is at least one.
    */
    method HandleFiles(files: seq<File>, ids: seq<string>, uploads: seq<Option<string>>)
      returns (reported: Option<seq<string>>)
      requires |ids| == |files| && |uploads| == |files|
      modifies this
      ensures stagingMode ==>
        staged == AfterStaging(old(staged), files, ids, maxImages) && reported.None? && progress == old(progress)
      ensures stagingMode && ValidationErrors(files) != [] ==> error == Join(ValidationErrors(files), ", ")
      ensures stagingMode && ValidationErrors(files) == [] && !StagingAccepts(|old(staged)|, files, maxImages) ==>
        error == TooManyMessage(maxImages)
      ensures stagingMode && StagingAccepts(|old(staged)|, files, maxImages) ==> error == ""
      ensures stagingMode || ValidationErrors(files) != [] || |files| > maxImages ==> uploading == old(uploading)
      ensures !stagingMode && ValidationErrors(files) != [] ==>
        error == Join(ValidationErrors(files), ", ") && reported.None? && progress == old(progress)
      ensures !stagingMode && ValidationErrors(files) == [] && |files| > maxImages ==>
        error == TooManyMessage(maxImages) && reported.None? && progress == old(progress)
      ensures !stagingMode && ValidationErrors(files) == [] && |files| <= maxImages ==>
        && error == "" && progress == Outcomes(files, uploads) && !uploading
        && reported == if UploadedUrls(uploads) == [] then None else Some(UploadedUrls(uploads))
      ensures !stagingMode ==> staged == old(staged)
    {
      reported := None;
      if stagingMode {
        StageFiles(files, ids);
        return;
      }
      var errors := CollectValidationErrors(files);
      if |errors| > 0 {
        error := Join(errors, ", ");
        return;
      }
      if |files| > maxImages {
        error := TooManyMessage(maxImages);
        return;
      }
      error := "";
      uploading := true;
      progress := seq(|files|, i requires 0 <= i < |files| => Progress(files[i], 0, Uploading));
      var urls, completed := UploadAll(files, uploads);
      progress := completed;
      if |urls| > 0 {
        reported := Some(urls);
      }
      uploading := false;
    }

    /**
      `uploadStagedFiles`: with nothing staged nothing happens. Otherwise every staged file is
      uploaded; the delivered URLs are reported and the staged files cleared only when at least
      one upload succeeded.
    */
    method UploadStagedFiles(uploads: seq<Option<string>>) returns (reported: Option<seq<string>>)
      requires |uploads| == |staged|
      modifies this
      ensures old(staged) == [] ==>
        reported.None? && staged == [] && progress == old(progress) && error == old(error) && uploading == old(uploading)
      ensures old(staged) != [] ==>
        && error == "" && !uploading && progress == Outcomes(FilesOf(old(staged)), uploads)
        && (UploadedUrls(uploads) != [] ==> reported == Some(UploadedUrls(uploads)) && staged == [])
        && (UploadedUrls(uploads) == [] ==> reported.None? && staged == old(staged))
    {
      reported := None;
      if |staged| == 0 {
        return;
      }
      uploading := true;
      error := "";
      var files := Map(staged, (s: StagedFile) => s.file);
      progress := seq(|files|, i requires 0 <= i < |files| => Progress(files[i], 0, Uploading));
      var urls, completed := UploadAll(files, uploads);
      progress := completed;
      if |urls| > 0 {
        reported := Some(urls);
        staged := [];
      }
      uploading := false;
    }

    /** The timer three seconds after an upload run: the progress list empties. */
    method ExpireProgress()
      modifies this
      ensures progress == [] && staged == old(staged) && error == old(error) && uploading == old(uploading)
    {
      progress := [];
    }
  }
}

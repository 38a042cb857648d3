/**
  Image file checks before upload: HEIC detection, the HEIC-to-JPEG step's bookkeeping, type and
  size validation, and the image-only public-id extractor
  `/\/upload\/(?:v\d+\/)?(.+?)\.(jpg|jpeg|png|gif|webp|heic|heif)$/i`.
*/
module ImageUtils {
  import opened Common
  import opened JsString
  import opened Cloudinary

  /** A browser file: name, MIME type and size in bytes. */
  datatype File = File(name: string, mimeType: string, size: nat)

  const HeicTypes: seq<string> := ["image/heic", "image/heif", "image/heic-sequence", "image/heif-sequence"]

  /** `isHEICFile`: the MIME type or the name's extension says HEIC/HEIF, in any letter case. */
  predicate IsHeicFile(f: File) {
    ToLower(f.mimeType) in HeicTypes || EndsWith(ToLower(f.name), ".heic") || EndsWith(ToLower(f.name), ".heif")
  }

  lemma ToLowerIdempotent(s: string)
    ensures ToLower(ToLower(s)) == ToLower(s)
  {
  }

  /** Letter case never matters to the test. */
  lemma HeicIgnoresCase(f: File)
    ensures IsHeicFile(f) <==> IsHeicFile(File(ToLower(f.name), ToLower(f.mimeType), f.size))
  {
    ToLowerIdempotent(f.name);
    ToLowerIdempotent(f.mimeType);
  }

  const ConversionFailedMessage := "Failed to convert HEIC image. Please try uploading a different image format."

  /** `file.name.replace(/\.(heic|heif)$/i, ".jpg")` */
  function JpegName(name: string): (r: string)
    ensures EndsWith(ToLower(name), ".heic") || EndsWith(ToLower(name), ".heif") ==>
      |name| >= 5 && r == name[..|name| - 5] + ".jpg"
    ensures !(EndsWith(ToLower(name), ".heic") || EndsWith(ToLower(name), ".heif")) ==> r == name
  {
    if EndsWith(ToLower(name), ".heic") || EndsWith(ToLower(name), ".heif") then name[..|name| - 5] + ".jpg"
    else name
  }

  /** The file a conversion produces: the renamed JPEG; `jpegSize` is the converter's output size. */
  function ConvertedFile(f: File, jpegSize: nat): File {
    File(JpegName(f.name), "image/jpeg", jpegSize)
  }

  /** A converted file is no longer a HEIC file. */
  lemma ConvertedNotHeic(f: File, jpegSize: nat)
    ensures !IsHeicFile(ConvertedFile(f, jpegSize))
  {
    var n := JpegName(f.name);
    assert ToLower("image/jpeg") == "image/jpeg";
    if EndsWith(ToLower(f.name), ".heic") || EndsWith(ToLower(f.name), ".heif") {
      assert n[|n| - 1] == 'g';
      EndsInG(ToLower(n));
    }
  }

  /** A text whose last character is `g` ends in neither HEIC extension. */
  lemma EndsInG(l: string)
    requires |l| >= 1 && l[|l| - 1] == 'g'
    ensures !EndsWith(l, ".heic") && !EndsWith(l, ".heif")
  {
  }

  datatype Result<T> = Ok(value: T) | Err(message: string)

  /**
    `processImageFile`: a HEIC file is replaced by its JPEG conversion (`conversion` is the
    converter's output size, None when it throws); any other file is returned as it is.
  */
  function ProcessImageFile(f: File, conversion: Option<nat>): (r: Result<File>)
    ensures !IsHeicFile(f) ==> r == Ok(f)
    ensures r.Ok? ==> !IsHeicFile(r.value)
    ensures r.Err? <==> IsHeicFile(f) && conversion.None?
  {
    if !IsHeicFile(f) then Ok(f)
    else match conversion
      case Some(size) =>
        ConvertedNotHeic(f, size);
        Ok(ConvertedFile(f, size))
      case None => Err(ConversionFailedMessage)
  }

  /** Processing twice changes nothing more than processing once. */
  lemma ProcessIdempotent(f: File, conversion: Option<nat>, again: Option<nat>)
    requires ProcessImageFile(f, conversion).Ok?
    ensures ProcessImageFile(ProcessImageFile(f, conversion).value, again) == ProcessImageFile(f, conversion)
  {
  }

  // ---------------------------------------------------------------------------------------------
  // validateImageFile

  const ValidImageTypes: seq<string> :=
    ["image/jpeg", "image/jpg", "image/png", "image/gif", "image/webp", "image/heic", "image/heif"]

  const ImageExtensions: seq<string> := ["jpg", "jpeg", "png", "gif", "webp", "heic", "heif"]

  /** `s` ends in `.` and one of the listed extensions. */
  predicate HasImageExtension(s: string) {
    exists e :: e in ImageExtensions && EndsWith(s, "." + e)
  }

  /** The type test: a listed MIME type, or a name ending in a listed extension, in any letter case. */
  predicate IsValidType(f: File) {
    ToLower(f.mimeType) in ValidImageTypes || HasImageExtension(ToLower(f.name))
  }

  const InvalidTypeMessage := "Please select a valid image file (JPEG, PNG, GIF, WebP, or HEIC)"

  /** The number a string of decimal digits denotes, most significant digit first. */
  function DigitsValue(s: string): nat
    requires forall i :: 0 <= i < |s| ==> IsDigit(s[i])
  {
    if s == [] then 0
    else
      assert IsDigit(s[|s| - 1]);
      DigitsValue(s[..|s| - 1]) * 10 + ((s[|s| - 1] as int) - ('0' as int))
  }

  /** Decimal digits of `n`, as a template literal prints a whole number: they read back as `n`. */
  function NatToString(n: nat): (s: string)
    ensures s != [] && forall i :: 0 <= i < |s| ==> IsDigit(s[i])
    ensures DigitsValue(s) == n
  {
    var d := ['0' + (n % 10) as char];
    if n < 10 then d
    else
      var t := NatToString(n / 10);
      assert (t + d)[..|t + d| - 1] == t;
      t + d
  }

  /** Different numbers print differently. */
  lemma NatToStringInjective(m: nat, n: nat)
    requires NatToString(m) == NatToString(n)
    ensures m == n
  {
  }

  function TooLargeMessage(maxSizeMB: nat): string {
    "Image must be smaller than " + NatToString(maxSizeMB) + "MB"
  }

  /** The largest size in bytes that passes: `maxSizeMB * 1024 * 1024`. */
  function MaxBytes(maxSizeMB: nat): nat {
    maxSizeMB * 1024 * 1024
  }

  /** `validateImageFile(file, maxSizeMB)`: the error to show, or None. */
  function ValidateImageFile(f: File, maxSizeMB: nat): (r: Option<string>)
    ensures r.None? <==> IsValidType(f) && f.size <= MaxBytes(maxSizeMB)
    ensures !IsValidType(f) ==> r == Some(InvalidTypeMessage)
    ensures IsValidType(f) && f.size > MaxBytes(maxSizeMB) ==> r == Some(TooLargeMessage(maxSizeMB))
  {
    if !IsValidType(f) then Some(InvalidTypeMessage)
    else if f.size > MaxBytes(maxSizeMB) then Some(TooLargeMessage(maxSizeMB))
    else None
  }

  /** At the default limit of 8 MB a file of exactly 8 MiB passes and one byte more is refused. */
  lemma SizeBoundary(name: string, mimeType: string)
    requires IsValidType(File(name, mimeType, 8388608))
    ensures ValidateImageFile(File(name, mimeType, 8388608), 8).None?
    ensures ValidateImageFile(File(name, mimeType, 8388609), 8) == Some(TooLargeMessage(8))
  {
    assert IsValidType(File(name, mimeType, 8388609));
  }

  /** Every file the HEIC test accepts by name passes the type test as well. */
  lemma HeicNameIsValidType(f: File)
    requires EndsWith(ToLower(f.name), ".heic") || EndsWith(ToLower(f.name), ".heif")
    ensures IsValidType(f)
  {
    if EndsWith(ToLower(f.name), ".heic") {
      assert "heic" in ImageExtensions;
    } else {
      assert "heif" in ImageExtensions;
    }
  }

  // ---------------------------------------------------------------------------------------------
  // extractCloudinaryPublicId (case-insensitive, image extensions only)

  /**
    The group `(.+?)` with `\.(jpg|...)$`, matched at the start of the lower-cased `q`: where it
    ends. No listed extension holds a dot, so the dot before the extension can only be the last
    dot of the text (ImageGroupExtension and ImageGroupEndFrom).
  */
  function ImageGroupEnd(q: string): (k: Option<nat>)
    ensures k.Some? ==> 1 <= k.value < |q|
  {
    match LastDot(q)
    case Some(d) => if 1 <= d && q[d + 1..] in ImageExtensions && NoLineTerminator(q[..d]) then Some(d) else None
    case None => None
  }

  /** A listed extension preceded by a dot has no other dot. */
  lemma DotImageExtensionShape(e: string)
    requires e in ImageExtensions
    ensures |e| >= 1 && '.' !in e
  {
  }

  /** On a lower-cased text, the image extractor's group is the generic extractor's group. */
  lemma ImageGroupIsIdGroup(q: string)
    requires ImageGroupEnd(q).Some?
    ensures MatchIdGroup(q) == Some(q[..ImageGroupEnd(q).value])
  {
    var k := ImageGroupEnd(q).value;
    var e := ImageGroupExtension(q);
    IdGroupBeforeExtension(q, q[..k], e);
  }

  /** Where the group ends, a dot and a listed extension end the text, and no line terminator precedes. */
  lemma ImageGroupExtension(q: string) returns (e: string)
    requires ImageGroupEnd(q).Some?
    ensures e in ImageExtensions && q[ImageGroupEnd(q).value..] == "." + e
    ensures NoLineTerminator(q[..ImageGroupEnd(q).value])
  {
    var k := ImageGroupEnd(q).value;
    e := q[k + 1..];
    assert q[k..] == [q[k]] + e;
  }

  /** A text made of a name, a dot and a listed extension: the generic group is the name. */
  lemma IdGroupBeforeExtension(q: string, name: string, e: string)
    requires name != [] && NoLineTerminator(name) && e in ImageExtensions
    requires |name| <= |q| && q[..|name|] == name && q[|name|..] == "." + e
    ensures MatchIdGroup(q) == Some(name)
  {
    DotImageExtensionShape(e);
    assert q == name + "." + e;
    DropsLastExtension(name, e);
  }

  /** A half-open range of positions in a text: the capture group's start and end. */
  datatype Span = Span(start: int, end: int)

  /** `(?:v\d+\/)?` followed by the group, at the start of `r`: the group's start and end. */
  function AfterUploadImage(r: string): (span: Option<Span>)
    ensures span.Some? ==> 0 <= span.value.start < span.value.end <= |r|
  {
    var v := VersionSegment(r);
    if v.Some? && ImageGroupEnd(r[v.value..]).Some? then
      Some(Span(v.value, v.value + ImageGroupEnd(r[v.value..]).value))
    else if ImageGroupEnd(r).Some? then Some(Span(0, ImageGroupEnd(r).value))
    else None
  }

  /** The span of the capture group in the lower-cased URL, at the leftmost `/upload/` where the rest matches. */
  function ImageIdSpan(l: string): (span: Option<Span>)
    ensures span.Some? ==> 0 <= span.value.start < span.value.end <= |l|
    decreases |l|
  {
    match IndexOf(l, UploadMarker)
    case None => None
    case Some(i) =>
      var start := i + |UploadMarker|;
      match AfterUploadImage(l[start..])
      case Some(sp) => Some(Span(start + sp.start, start + sp.end))
      case None =>
        match ImageIdSpan(l[i + 1..])
        case Some(sp) => Some(Span(i + 1 + sp.start, i + 1 + sp.end))
        case None => None
  }

  /**
    `extractCloudinaryPublicId(url)`: the `i` flag makes the literals match in any letter case, so the
    match is found on the lower-cased URL and the id is the same span of the URL as written.
  */
  function ExtractCloudinaryPublicId(url: string): (id: Option<string>)
    ensures id.Some? ==> id.value != []
  {
    match ImageIdSpan(ToLower(url))
    case Some(sp) => Some(url[sp.start..sp.end])
    case None => None
  }

  lemma ImageGroupNeedsExtension(q: string)
    requires ImageGroupEnd(q).Some?
    ensures HasImageExtension(q)
  {
    var k := ImageGroupEnd(q).value;
    var e := ImageGroupExtension(q);
    assert q[|q| - |"." + e|..] == q[k..];
  }

  lemma HasExtensionOfSuffix(l: string, m: nat)
    requires m <= |l| && HasImageExtension(l[m..])
    ensures HasImageExtension(l)
  {
    var e :| e in ImageExtensions && EndsWith(l[m..], "." + e);
    assert l[|l| - |"." + e|..] == l[m..][|l[m..]| - |"." + e|..];
  }

  lemma AfterUploadImageNeedsExtension(r: string)
    requires AfterUploadImage(r).Some?
    ensures HasImageExtension(r)
  {
    var v := VersionSegment(r);
    if v.Some? && ImageGroupEnd(r[v.value..]).Some? {
      ImageGroupNeedsExtension(r[v.value..]);
      HasExtensionOfSuffix(r, v.value);
    } else {
      ImageGroupNeedsExtension(r);
    }
  }

  lemma {:induction false} SpanNeedsExtension(l: string)
    requires ImageIdSpan(l).Some?
    ensures HasImageExtension(l)
    decreases |l|
  {
    var i := IndexOf(l, UploadMarker).value;
    var start := i + |UploadMarker|;
    if AfterUploadImage(l[start..]).Some? {
      AfterUploadImageNeedsExtension(l[start..]);
      HasExtensionOfSuffix(l, start);
    } else {
      SpanNeedsExtension(l[i + 1..]);
      HasExtensionOfSuffix(l, i + 1);
    }
  }

  /** Only a URL ending in a listed image extension, in any letter case, yields an id. */
  lemma ImageIdNeedsExtension(url: string)
    requires ExtractCloudinaryPublicId(url).Some?
    ensures HasImageExtension(ToLower(url))
  {
    SpanNeedsExtension(ToLower(url));
  }

  lemma ImageSpanAfterVersion(r: string, n: nat)
    requires VersionSegment(r) == Some(n) && ImageGroupEnd(r[n..]).Some?
    ensures AfterUploadImage(r).Some? && AfterUploadImage(r).value.start == n
    ensures AfterUploadImage(r).value.end == n + ImageGroupEnd(r[n..]).value
  {
  }

  lemma IdAfterVersion(r: string, n: nat, k: nat)
    requires VersionSegment(r) == Some(n) && n + k <= |r| && MatchIdGroup(r[n..]) == Some(r[n..n + k])
    ensures AfterUpload(r) == Some(r[n..n + k])
  {
  }

  lemma AgreeAfterVersion(r: string, n: nat)
    requires VersionSegment(r) == Some(n) && ImageGroupEnd(r[n..]).Some?
    ensures AfterUploadImage(r).Some?
    ensures AfterUpload(r) == Some(r[AfterUploadImage(r).value.start..AfterUploadImage(r).value.end])
  {
    var q := r[n..];
    var k := ImageGroupEnd(q).value;
    ImageSpanAfterVersion(r, n);
    var sp := AfterUploadImage(r).value;
    assert r[sp.start..sp.end] == r[n..n + k];
    ImageGroupIsIdGroup(q);
    assert q[..k] == r[n..n + k];
    IdAfterVersion(r, n, k);
  }

  lemma AgreeWithoutVersion(r: string)
    requires VersionSegment(r).None? && ImageGroupEnd(r).Some?
    ensures AfterUploadImage(r).Some?
    ensures AfterUpload(r) == Some(r[AfterUploadImage(r).value.start..AfterUploadImage(r).value.end])
  {
    var k := ImageGroupEnd(r).value;
    ImageGroupIsIdGroup(r);
    assert r[..k] == r[0..k];
  }

  /**
    Both extractors agree on a remainder the image pattern matches without backtracking over a
    version segment: the version segment and the final extension are dropped and nothing else.
  */
  lemma ExtractorsAgree(r: string)
    requires AfterUploadImage(r).Some?
    requires VersionSegment(r).Some? ==> ImageGroupEnd(r[VersionSegment(r).value..]).Some?
    ensures AfterUpload(r) == Some(r[AfterUploadImage(r).value.start..AfterUploadImage(r).value.end])
  {
    if VersionSegment(r).Some? {
      AgreeAfterVersion(r, VersionSegment(r).value);
    } else {
      AgreeWithoutVersion(r);
    }
  }

  lemma ToLowerConcat(a: string, b: string)
    ensures ToLower(a + b) == ToLower(a) + ToLower(b)
  {
    assert forall i :: 0 <= i < |a + b| ==> ToLower(a + b)[i] == (ToLower(a) + ToLower(b))[i];
  }

  /** Text without capital letters is its own lower case. */
  lemma ToLowerUnchanged(s: string)
    requires forall i :: 0 <= i < |s| ==> !('A' <= s[i] <= 'Z')
    ensures ToLower(s) == s
  {
  }

  lemma ToLowerNoLineTerminator(s: string)
    requires NoLineTerminator(s)
    ensures NoLineTerminator(ToLower(s))
  {
  }

  /**
    Wherever at least one character without a line terminator is followed by a dot and a listed
    extension that end the text, the group ends there.
  */
  lemma ImageGroupEndFrom(q: string, k: nat, e: string)
    requires 1 <= k <= |q| && NoLineTerminator(q[..k]) && e in ImageExtensions && q[k..] == "." + e
    ensures ImageGroupEnd(q) == Some(k)
  {
    DotImageExtensionShape(e);
    assert q[k] == '.' && q[k + 1..] == e;
    LastDotAt(q, k);
  }

  /** The group ends just before the final `.` and listed extension. */
  lemma ImageGroupEndAt(name: string, e: string)
    requires name != [] && NoLineTerminator(name) && e in ImageExtensions
    ensures ImageGroupEnd(name + "." + e) == Some(|name|)
  {
    var q := name + "." + e;
    assert q[..|name|] == name;
    assert q[|name|..] == "." + e;
    ImageGroupEndFrom(q, |name|, e);
  }

  /** The listed extensions are written in lower case. */
  lemma LowerExtension(e: string)
    requires e in ImageExtensions
    ensures ToLower("." + e) == "." + e
  {
    ToLowerUnchanged("." + e);
  }

  lemma LowerVersionedUrl(host: string, digits: string, path: string, e: string)
    requires AllDigits(digits) && e in ImageExtensions
    ensures ToLower(host + UploadMarker + ("v" + digits + "/" + (path + "." + e)))
      == ToLower(host) + UploadMarker + ("v" + digits + "/" + (ToLower(path) + "." + e))
  {
    var a := "v" + digits + "/";
    var b := path + "." + e;
    ToLowerUnchanged(a);
    ToLowerUnchanged(UploadMarker);
    LowerExtension(e);
    assert b == path + ("." + e);
    ToLowerConcat(path, "." + e);
    assert ToLower(b) == ToLower(path) + "." + e;
    ToLowerConcat(a, b);
    ToLowerConcat(UploadMarker, a + b);
    ToLowerConcat(host, UploadMarker + (a + b));
    assert host + UploadMarker + (a + b) == host + (UploadMarker + (a + b));
  }

  lemma VersionedImageSpan(digits: string, name: string, e: string)
    requires digits != [] && AllDigits(digits)
    requires name != [] && NoLineTerminator(name) && e in ImageExtensions
    ensures AfterUploadImage("v" + digits + "/" + (name + "." + e)).Some?
    ensures AfterUploadImage("v" + digits + "/" + (name + "." + e)).value.start == |digits| + 2
    ensures AfterUploadImage("v" + digits + "/" + (name + "." + e)).value.end == |digits| + 2 + |name|
  {
    var r := "v" + digits + "/" + (name + "." + e);
    var n := |digits| + 2;
    assert r[1..n - 1] == digits;
    VersionSegmentSpec(r);
    assert IsVersionSegment(r, n);
    assert r[n..] == name + "." + e;
    ImageGroupEndAt(name, e);
    ImageSpanAfterVersion(r, n);
  }

  /** At the first `/upload/`, a remainder the pattern matches decides the span. */
  lemma ImageIdSpanAt(l: string, i: nat)
    requires IndexOf(l, UploadMarker) == Some(i)
    requires AfterUploadImage(l[i + |UploadMarker|..]).Some?
    ensures ImageIdSpan(l).Some?
    ensures ImageIdSpan(l).value.start == i + |UploadMarker| + AfterUploadImage(l[i + |UploadMarker|..]).value.start
    ensures ImageIdSpan(l).value.end == i + |UploadMarker| + AfterUploadImage(l[i + |UploadMarker|..]).value.end
  {
  }

  lemma ExtractAtSpan(url: string, id: string)
    requires ImageIdSpan(ToLower(url)).Some?
    requires url[ImageIdSpan(ToLower(url)).value.start..ImageIdSpan(ToLower(url)).value.end] == id
    ensures ExtractCloudinaryPublicId(url) == Some(id)
  {
  }

  lemma PathInVersionedUrl(url: string, host: string, digits: string, path: string, e: string, at: nat, to: nat)
    requires url == host + UploadMarker + ("v" + digits + "/" + (path + "." + e))
    requires at == |host| + |UploadMarker| + |digits| + 2 && to == at + |path|
    ensures to <= |url| && url[at..to] == path
  {
    var b := "v" + digits + "/";
    var c := path + "." + e;
    var start := |host| + |UploadMarker|;
    assert url[start..] == b + c;
    assert (b + c)[|b|..] == c;
    assert c[..|path|] == path;
    assert url[start + |b|..start + |b| + |path|] == url[start..][|b|..][..|path|];
  }

  /** With no earlier occurrence, the span is found after the marker that follows `host`. */
  lemma ImageFirstMarkerDecides(host: string, tail: string)
    requires !Contains(host + "/upload", UploadMarker)
    requires AfterUploadImage(tail).Some?
    ensures ImageIdSpan(host + UploadMarker + tail).Some?
    ensures ImageIdSpan(host + UploadMarker + tail).value.start == |host| + |UploadMarker| + AfterUploadImage(tail).value.start
    ensures ImageIdSpan(host + UploadMarker + tail).value.end == |host| + |UploadMarker| + AfterUploadImage(tail).value.end
  {
    var l := host + UploadMarker + tail;
    FirstMarkerAt(host, tail);
    assert l[|host| + |UploadMarker|..] == tail;
    ImageIdSpanAt(l, |host|);
  }

  lemma SpanOfVersionedUrl(url: string, host: string, digits: string, path: string, e: string)
    requires url == host + UploadMarker + ("v" + digits + "/" + (path + "." + e))
    requires !Contains(ToLower(host) + "/upload", UploadMarker)
    requires digits != [] && AllDigits(digits)
    requires path != [] && NoLineTerminator(path) && e in ImageExtensions
    ensures ImageIdSpan(ToLower(url)).Some?
    ensures ImageIdSpan(ToLower(url)).value.start == |host| + |UploadMarker| + |digits| + 2
    ensures ImageIdSpan(ToLower(url)).value.end == |host| + |UploadMarker| + |digits| + 2 + |path|
    ensures url[ImageIdSpan(ToLower(url)).value.start..ImageIdSpan(ToLower(url)).value.end] == path
  {
    var lp := ToLower(path);
    var ltail := "v" + digits + "/" + (lp + "." + e);
    LowerVersionedUrl(host, digits, path, e);
    ToLowerNoLineTerminator(path);
    VersionedImageSpan(digits, lp, e);
    ImageFirstMarkerDecides(ToLower(host), ltail);
    var sp := ImageIdSpan(ToLower(url)).value;
    PathInVersionedUrl(url, host, digits, path, e, sp.start, sp.end);
  }

  /**
    A delivery URL whose host part holds no `/upload/` in any letter case: the id is the path
    between the version segment and the final image extension, as written.
  */
  lemma ImageVersionedUrl(host: string, digits: string, path: string, e: string)
    requires !Contains(ToLower(host) + "/upload", UploadMarker)
    requires digits != [] && AllDigits(digits)
    requires path != [] && NoLineTerminator(path) && e in ImageExtensions
    ensures ExtractCloudinaryPublicId(host + UploadMarker + ("v" + digits + "/" + (path + "." + e))) == Some(path)
  {
    var url := host + UploadMarker + ("v" + digits + "/" + (path + "." + e));
    SpanOfVersionedUrl(url, host, digits, path, e);
    ExtractAtSpan(url, path);
  }
}

/**
  Asset ids in delivery URLs of the image host, and the batch delete that counts its outcomes.

  `extractPublicId` matches `/\/upload\/(?:v\d+\/)?(.+?)(?:\.[^.]+)?$/` against the URL and returns
  the capture group. The model spells out how a backtracking matcher settles that pattern: the
  leftmost `/upload/` at which the rest can match; there, the version segment skipped when the rest
  still matches after it; then the shortest group that leaves either nothing or one final
  `.extension` (a dot followed by dot-free text) before the end. The group's `.` stops at line
  terminators; `[^.]` does not.
*/
module Cloudinary {
  import opened Common
  import opened JsString

  const UploadMarker := "/upload/"

  predicate AllDigits(s: string) {
    forall i :: 0 <= i < |s| ==> IsDigit(s[i])
  }

  /** The end of the run of digits that starts at `i`. */
  function DigitRunEnd(r: string, i: nat): (j: nat)
    requires i <= |r|
    ensures i <= j <= |r|
    decreases |r| - i
  {
    if i < |r| && IsDigit(r[i]) then DigitRunEnd(r, i + 1) else i
  }

  lemma {:induction false} DigitRunEndSpec(r: string, i: nat)
    requires i <= |r|
    ensures AllDigits(r[i..DigitRunEnd(r, i)])
    ensures DigitRunEnd(r, i) == |r| || !IsDigit(r[DigitRunEnd(r, i)])
    decreases |r| - i
  {
    if i < |r| && IsDigit(r[i]) {
      DigitRunEndSpec(r, i + 1);
      var j := DigitRunEnd(r, i);
      assert forall k :: i + 1 <= k < j ==> r[k] == r[i + 1..j][k - i - 1];
    }
  }

  lemma {:induction false} DigitRunEndAt(r: string, i: nat, j: nat)
    requires i <= j <= |r| && AllDigits(r[i..j]) && (j == |r| || !IsDigit(r[j]))
    ensures DigitRunEnd(r, i) == j
    decreases j - i
  {
    if i < j {
      assert r[i..j][0] == r[i];
      assert r[i + 1..j] == r[i..j][1..];
      DigitRunEndAt(r, i + 1, j);
    }
  }

  /** `r` starts with `v`, one or more digits and `/`: `n` characters in all. */
  predicate IsVersionSegment(r: string, n: nat) {
    3 <= n <= |r| && r[0] == 'v' && AllDigits(r[1..n - 1]) && r[n - 1] == '/'
  }

  /** The length of the `v<digits>/` segment `r` starts with, if any. */
  function VersionSegment(r: string): (n: Option<nat>)
    ensures n.Some? ==> 3 <= n.value <= |r|
  {
    if r != [] && r[0] == 'v' then
      var j := DigitRunEnd(r, 1);
      if j > 1 && j < |r| && r[j] == '/' then Some(j + 1) else None
    else None
  }

  /** There is at most one version segment, and VersionSegment finds it. */
  lemma VersionSegmentSpec(r: string)
    ensures VersionSegment(r).Some? ==> IsVersionSegment(r, VersionSegment(r).value)
    ensures forall n: nat :: IsVersionSegment(r, n) ==> VersionSegment(r) == Some(n)
  {
    if r != [] && r[0] == 'v' {
      DigitRunEndSpec(r, 1);
    }
    forall n: nat | IsVersionSegment(r, n) ensures VersionSegment(r) == Some(n) {
      DigitRunEndAt(r, 1, n - 1);
    }
  }

  /** What may follow the group: nothing, or a dot and one or more non-dot characters. */
  predicate ExtTail(t: string) {
    t == [] || (|t| >= 2 && t[0] == '.' && '.' !in t[1..])
  }

  /** The group `(.+?)` may end at `k`: at least one character, no line terminator, and a tail the rest accepts. */
  predicate GroupOk(q: string, k: int) {
    1 <= k <= |q| && NoLineTerminator(q[..k]) && ExtTail(q[k..])
  }

  /** `q.lastIndexOf(".")` */
  function LastDot(q: string): (r: Option<nat>)
    ensures r.Some? ==> r.value < |q| && q[r.value] == '.'
    decreases |q|
  {
    if q == [] then None
    else if q[|q| - 1] == '.' then Some(|q| - 1)
    else LastDot(q[..|q| - 1])
  }

  lemma {:induction false} LastDotSpec(q: string)
    ensures LastDot(q).None? ==> '.' !in q
    ensures LastDot(q).Some? ==> '.' !in q[LastDot(q).value + 1..]
    decreases |q|
  {
    if q != [] && q[|q| - 1] != '.' {
      var p := q[..|q| - 1];
      LastDotSpec(p);
      assert q == p + [q[|q| - 1]];
      if LastDot(p).Some? {
        var d := LastDot(p).value;
        assert q[d + 1..] == p[d + 1..] + [q[|q| - 1]];
      }
    }
  }

  lemma {:induction false} LastDotAt(q: string, d: nat)
    requires d < |q| && q[d] == '.' && '.' !in q[d + 1..]
    ensures LastDot(q) == Some(d)
    decreases |q|
  {
    if d < |q| - 1 {
      assert q[|q| - 1] == q[d + 1..][|q| - d - 2];
      var p := q[..|q| - 1];
      assert p[d + 1..] == q[d + 1..|q| - 1];
      assert q[d + 1..] == p[d + 1..] + [q[|q| - 1]];
      LastDotAt(p, d);
    }
  }

  /** Where the group ends: before the last dot when an extension follows it, else at the end. */
  function IdEnd(q: string): (k: nat)
    ensures k <= |q|
  {
    match LastDot(q)
    case Some(d) => if 1 <= d && d + 2 <= |q| then d else |q|
    case None => |q|
  }

  /** The group `(.+?)` together with `(?:\.[^.]+)?$`, matched at the start of `q`. */
  function MatchIdGroup(q: string): (r: Option<string>)
    ensures r.Some? ==> r.value != []
  {
    var k := IdEnd(q);
    if k >= 1 && NoLineTerminator(q[..k]) then Some(q[..k]) else None
  }

  lemma TailAt(q: string, k: nat)
    requires k <= |q| && ExtTail(q[k..])
    ensures k == |q| || (LastDot(q) == Some(k) && k + 2 <= |q|)
  {
    if k < |q| {
      assert q[k..][0] == q[k];
      assert q[k..][1..] == q[k + 1..];
      LastDotAt(q, k);
    }
  }

  /**
    MatchIdGroup is the lazy quantifier's answer: the group ends at the first position where the rest
    of the pattern matches, and there is no match exactly when no position works.
  */
  lemma MatchIdGroupLazy(q: string)
    ensures MatchIdGroup(q).Some? ==>
      MatchIdGroup(q).value == q[..IdEnd(q)] && GroupOk(q, IdEnd(q)) &&
      forall k :: 1 <= k < IdEnd(q) ==> !GroupOk(q, k)
    ensures MatchIdGroup(q).None? ==> forall k :: 1 <= k <= |q| ==> !GroupOk(q, k)
  {
    var e := IdEnd(q);
    LastDotSpec(q);
    if LastDot(q).Some? && e == LastDot(q).value {
      assert q[e..][1..] == q[e + 1..];
    }
    forall k | 1 <= k <= |q| && GroupOk(q, k) ensures k == e || k == |q| {
      TailAt(q, k);
    }
  }

  /** Text without line terminators always yields a group. */
  lemma MatchIdGroupTotal(q: string)
    requires q != [] && NoLineTerminator(q)
    ensures MatchIdGroup(q).Some?
  {
    assert NoLineTerminator(q[..IdEnd(q)]) by {
      assert forall i :: 0 <= i < IdEnd(q) ==> q[..IdEnd(q)][i] == q[i];
    }
  }

  /** The id stops before a final `.extension`. */
  lemma DropsLastExtension(name: string, ext: string)
    requires name != [] && NoLineTerminator(name) && ext != [] && '.' !in ext
    ensures MatchIdGroup(name + "." + ext) == Some(name)
  {
    var q := name + "." + ext;
    assert q[|name| + 1..] == ext;
    LastDotAt(q, |name|);
    assert q[..|name|] == name;
  }

  /** Without a final `.extension` after the first character, the whole remainder is the id. */
  lemma KeepsWholeRemainder(q: string)
    requires q != [] && NoLineTerminator(q)
    requires forall k :: 1 <= k < |q| ==> !ExtTail(q[k..])
    ensures MatchIdGroup(q) == Some(q)
  {
    LastDotSpec(q);
    assert q[..|q|] == q;
    if LastDot(q).Some? {
      var d := LastDot(q).value;
      assert q[d..][1..] == q[d + 1..];
    }
  }

  /** The part of the pattern after `/upload/`, matched at the start of `r`: the version segment is skipped if the rest still matches. */
  function AfterUpload(r: string): (m: Option<string>)
    ensures m.Some? ==> m.value != []
  {
    match VersionSegment(r)
    case Some(n) => if MatchIdGroup(r[n..]).Some? then MatchIdGroup(r[n..]) else MatchIdGroup(r)
    case None => MatchIdGroup(r)
  }

  /** A version segment is never part of the id. */
  lemma VersionNotInId(digits: string, q: string)
    requires digits != [] && AllDigits(digits) && MatchIdGroup(q).Some?
    ensures AfterUpload("v" + digits + "/" + q) == MatchIdGroup(q)
  {
    var r := "v" + digits + "/" + q;
    var n := |digits| + 2;
    assert r[1..n - 1] == digits;
    VersionSegmentSpec(r);
    assert IsVersionSegment(r, n);
    assert r[n..] == q;
  }

  /** `extractPublicId(url)`: the capture group of the leftmost match, or None when nothing matches. */
  function ExtractPublicId(url: string): (id: Option<string>)
    ensures id.Some? ==> id.value != []
    decreases |url|
  {
    match IndexOf(url, UploadMarker)
    case None => None
    case Some(i) =>
      var m := AfterUpload(url[i + |UploadMarker|..]);
      if m.Some? then m else ExtractPublicId(url[i + 1..])
  }

  lemma OccursInSuffix(url: string, p: string, m: nat, j: nat)
    requires m <= |url| && OccursAt(url[m..], p, j)
    ensures OccursAt(url, p, j + m)
  {
    assert url[m..][j..] == url[j + m..];
  }

  /** An id is only found after an `/upload/` that has at least one character after it. */
  lemma {:induction false} ExtractNeedsMarker(url: string)
    ensures ExtractPublicId(url).Some? ==>
      exists i :: OccursAt(url, UploadMarker, i) && i + |UploadMarker| < |url|
    decreases |url|
  {
    IndexOfSpec(url, UploadMarker);
    match IndexOf(url, UploadMarker)
    case None =>
    case Some(i) =>
      if AfterUpload(url[i + |UploadMarker|..]).Some? {
        assert OccursAt(url, UploadMarker, i);
      } else {
        ExtractNeedsMarker(url[i + 1..]);
        if ExtractPublicId(url).Some? {
          var j :| OccursAt(url[i + 1..], UploadMarker, j) && j + |UploadMarker| < |url[i + 1..]|;
          OccursInSuffix(url, UploadMarker, i + 1, j);
        }
      }
  }

  /** In a URL without line terminators an id is found exactly when some `/upload/` has a character after it. */
  lemma ExtractFindsId(url: string)
    requires NoLineTerminator(url)
    ensures ExtractPublicId(url).Some? <==>
      exists i :: OccursAt(url, UploadMarker, i) && i + |UploadMarker| < |url|
  {
    ExtractNeedsMarker(url);
    IndexOfSpec(url, UploadMarker);
    if i :| OccursAt(url, UploadMarker, i) && i + |UploadMarker| < |url| {
      var i0 := IndexOf(url, UploadMarker).value;
      assert i0 <= i;
      var r := url[i0 + |UploadMarker|..];
      assert NoLineTerminator(r) by {
        assert forall k :: 0 <= k < |r| ==> r[k] == url[i0 + |UploadMarker| + k];
      }
      MatchIdGroupTotal(r);
    }
  }

  /** With no earlier occurrence, the marker after `host` is the first. */
  lemma FirstMarkerAt(host: string, tail: string)
    requires !Contains(host + "/upload", UploadMarker)
    ensures IndexOf(host + UploadMarker + tail, UploadMarker) == Some(|host|)
  {
    var url := host + UploadMarker + tail;
    var h := host + "/upload";
    assert url[|host|..][..|UploadMarker|] == UploadMarker;
    forall k | 0 <= k < |host| ensures !OccursAt(url, UploadMarker, k) {
      assert !OccursAt(h, UploadMarker, k);
      assert url[k..k + |UploadMarker|] == h[k..k + |UploadMarker|];
    }
    IndexOfAt(url, UploadMarker, |host|);
  }

  /** The first `/upload/` decides when the rest matches there. */
  lemma FirstMarkerDecides(host: string, tail: string)
    requires !Contains(host + "/upload", UploadMarker)
    requires AfterUpload(tail).Some?
    ensures ExtractPublicId(host + UploadMarker + tail) == AfterUpload(tail)
  {
    FirstMarkerAt(host, tail);
    assert (host + UploadMarker + tail)[|host| + |UploadMarker|..] == tail;
  }

  /** A versioned delivery URL yields the path between the version and the extension. */
  lemma VersionedUrl(host: string, digits: string, path: string, ext: string)
    requires !Contains(host + "/upload", UploadMarker)
    requires digits != [] && AllDigits(digits)
    requires path != [] && NoLineTerminator(path) && ext != [] && '.' !in ext
    ensures ExtractPublicId(host + UploadMarker + ("v" + digits + "/" + (path + "." + ext))) == Some(path)
  {
    DropsLastExtension(path, ext);
    VersionNotInId(digits, path + "." + ext);
    FirstMarkerDecides(host, "v" + digits + "/" + (path + "." + ext));
  }

  // ---------------------------------------------------------------------------------------------
  // deleteCloudinaryImages

  /** The ids a batch sends delete requests for: one per URL with an id, in URL order. */
  function DeleteRequests(urls: seq<string>): seq<string> {
    if urls == [] then []
    else
      var last := urls[|urls| - 1];
      DeleteRequests(urls[..|urls| - 1]) + match ExtractPublicId(last) case Some(id) => [id] case None => []
  }

  /** The URLs that have an id and whose delete request succeeded. */
  function Succeeded(urls: seq<string>, destroyed: seq<bool>): nat
    requires |destroyed| == |urls|
  {
    if urls == [] then 0
    else
      var n := |urls| - 1;
      Succeeded(urls[..n], destroyed[..n]) + if ExtractPublicId(urls[n]).Some? && destroyed[n] then 1 else 0
  }

  /** Only a URL with an id is sent, so successes never exceed requests. */
  lemma {:induction false} SucceededAtMostRequests(urls: seq<string>, destroyed: seq<bool>)
    requires |destroyed| == |urls|
    ensures Succeeded(urls, destroyed) <= |DeleteRequests(urls)| <= |urls|
    decreases |urls|
  {
    if urls != [] {
      SucceededAtMostRequests(urls[..|urls| - 1], destroyed[..|urls| - 1]);
    }
  }

  /** Every request carries a non-empty id taken from one of the URLs. */
  lemma {:induction false} RequestsAreIds(urls: seq<string>)
    ensures forall id :: id in DeleteRequests(urls) ==> id != [] && exists u :: u in urls && ExtractPublicId(u) == Some(id)
    decreases |urls|
  {
    if urls != [] {
      var p := urls[..|urls| - 1];
      RequestsAreIds(p);
      forall id | id in DeleteRequests(urls) ensures id != [] && exists u :: u in urls && ExtractPublicId(u) == Some(id) {
        if id in DeleteRequests(p) {
          var u :| u in p && ExtractPublicId(u) == Some(id);
          assert u in urls;
        } else {
          assert ExtractPublicId(urls[|urls| - 1]) == Some(id);
        }
      }
    }
  }

  /**
    `deleteCloudinaryImages(urls)`: each URL in order; one without an id fails without a request,
    one with an id succeeds or fails as its request does (`destroyed[i]`, consulted only then).
  */
  method DeleteImages(urls: seq<string>, destroyed: seq<bool>) returns (success: nat, failed: nat, requests: seq<string>)
    requires |destroyed| == |urls|
    ensures success + failed == |urls|
    ensures success == Succeeded(urls, destroyed)
    ensures requests == DeleteRequests(urls)
  {
    success, failed, requests := 0, 0, [];
    for i := 0 to |urls|
      invariant success + failed == i
      invariant success == Succeeded(urls[..i], destroyed[..i])
      invariant requests == DeleteRequests(urls[..i])
    {
      assert urls[..i + 1][..i] == urls[..i];
      assert destroyed[..i + 1][..i] == destroyed[..i];
      var publicId := ExtractPublicId(urls[i]);
      if publicId.Some? {
        requests := requests + [publicId.value];
        if destroyed[i] {
          success := success + 1;
        } else {
          failed := failed + 1;
        }
      } else {
        failed := failed + 1;
      }
    }
    assert urls[..|urls|] == urls;
    assert destroyed[..|urls|] == destroyed;
  }
}

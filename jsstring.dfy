/**
  The JavaScript string operations the application relies on, over Dafny strings.

  `\s` in a regular expression and the characters `String.prototype.trim` strips are ECMAScript's
  WhiteSpace and LineTerminator characters (Unicode category Zs included); `.length` counts UTF-16
  code units (`Utf16Length`); `.` in a regular expression excludes the four line
  terminators; `localeCompare` and the default `Array.prototype.sort` order are modelled as
  lexicographic order on characters.
*/
module JsString {
  import opened Common
  import Sorting

  /** ECMAScript's WhiteSpace and LineTerminator characters: what `\s` matches and what `trim` strips. */
  predicate IsSpace(c: char) {
    c == '\t' || c == '\n' || c == '\U{000B}' || c == '\U{000C}' || c == '\r' || c == ' ' ||
    c == '\U{00A0}' || c == '\U{1680}' || '\U{2000}' <= c <= '\U{200A}' || c == '\U{2028}' ||
    c == '\U{2029}' || c == '\U{202F}' || c == '\U{205F}' || c == '\U{3000}' || c == '\U{FEFF}'
  }

  /** The characters a regular-expression `.` does not match, and where `^`/`$` apply under `m`. */
  predicate IsLineTerminator(c: char) {
    c == '\n' || c == '\r' || c == '\U{2028}' || c == '\U{2029}'
  }

  predicate IsDigit(c: char) { '0' <= c <= '9' }

  /** How many UTF-16 code units a character takes: two for one outside the Basic Multilingual Plane. */
  function CodeUnits(c: char): nat { if c > '\U{FFFF}' then 2 else 1 }

  /** A JavaScript string's `.length`: the number of UTF-16 code units, not of characters. */
  function Utf16Length(s: string): (n: nat)
    ensures |s| <= n <= 2 * |s|
    ensures n == |s| <==> forall i :: 0 <= i < |s| ==> s[i] <= '\U{FFFF}'
  {
    if s == [] then 0 else CodeUnits(s[0]) + Utf16Length(s[1..])
  }

  /** `.length` of a concatenation is the sum of the lengths. */
  lemma {:induction false} Utf16LengthAppend(a: string, b: string)
    ensures Utf16Length(a + b) == Utf16Length(a) + Utf16Length(b)
  {
    if a != [] {
      assert (a + b)[1..] == a[1..] + b;
      Utf16LengthAppend(a[1..], b);
    } else {
      assert a + b == b;
    }
  }

  predicate AllSpace(s: string) { forall i :: 0 <= i < |s| ==> IsSpace(s[i]) }

  predicate NoSpace(s: string) { forall i :: 0 <= i < |s| ==> !IsSpace(s[i]) }

  predicate NoLineTerminator(s: string) { forall i :: 0 <= i < |s| ==> !IsLineTerminator(s[i]) }

  // ---------------------------------------------------------------------------------------------
  // Prefixes, suffixes and occurrences

  predicate StartsWith(s: string, p: string) { p <= s }

  predicate EndsWith(s: string, p: string) { |p| <= |s| && s[|s| - |p|..] == p }

  predicate OccursAt(s: string, p: string, k: int) {
    0 <= k <= |s| && p <= s[k..]
  }

  /** `s.includes(p)` */
  predicate Contains(s: string, p: string) {
    exists k :: 0 <= k <= |s| && OccursAt(s, p, k)
  }

  /** `s.indexOf(p)`, with `None` for -1: the first position where `p` occurs (IndexOfSpec). */
  function IndexOf(s: string, p: string): (r: Option<nat>)
    ensures r.Some? ==> r.value + |p| <= |s|
    decreases |s|
  {
    if p <= s then Some(0)
    else if |s| == 0 then None
    else match IndexOf(s[1..], p)
      case None => None
      case Some(k) => Some(k + 1)
  }

  lemma OccursShift(s: string, p: string)
    requires s != []
    ensures forall k {:trigger OccursAt(s[1..], p, k)} :: 0 <= k ==> (OccursAt(s, p, k + 1) <==> OccursAt(s[1..], p, k))
    ensures forall k {:trigger OccursAt(s, p, k)} :: 1 <= k ==> (OccursAt(s, p, k) <==> OccursAt(s[1..], p, k - 1))
  {
    forall k | 0 <= k ensures OccursAt(s, p, k + 1) <==> OccursAt(s[1..], p, k) {
      if k + 1 <= |s| { assert s[1..][k..] == s[k + 1..]; }
    }
  }

  /** `indexOf` finds an occurrence, none earlier, and reports -1 exactly when there is none. */
  lemma {:induction false} IndexOfSpec(s: string, p: string)
    ensures IndexOf(s, p).Some? ==> OccursAt(s, p, IndexOf(s, p).value)
    ensures IndexOf(s, p).Some? ==> forall k :: 0 <= k < IndexOf(s, p).value ==> !OccursAt(s, p, k)
    ensures IndexOf(s, p).None? <==> !Contains(s, p)
    decreases |s|
  {
    if p <= s {
      assert OccursAt(s, p, 0);
    } else if |s| == 0 {
      assert !OccursAt(s, p, 0);
    } else {
      IndexOfSpec(s[1..], p);
      OccursShift(s, p);
      assert !OccursAt(s, p, 0);
      match IndexOf(s[1..], p)
      case None =>
      case Some(k) =>
        assert OccursAt(s, p, k + 1);
    }
  }

  /** The first occurrence is where `indexOf` points. */
  lemma IndexOfAt(s: string, p: string, i: nat)
    requires OccursAt(s, p, i) && forall k :: 0 <= k < i ==> !OccursAt(s, p, k)
    ensures IndexOf(s, p) == Some(i)
  {
    IndexOfSpec(s, p);
  }

  /** `s.replace(p, r)` with a string pattern: only the first occurrence of `p` is replaced (ReplaceFirstSpec). */
  function ReplaceFirst(s: string, p: string, r: string): string
  {
    match IndexOf(s, p)
    case None => s
    case Some(i) => s[..i] + r + s[i + |p|..]
  }

  lemma ReplaceFirstSpec(s: string, p: string, r: string)
    ensures !Contains(s, p) ==> ReplaceFirst(s, p, r) == s
    ensures Contains(s, p) ==>
      exists i :: OccursAt(s, p, i) && (forall k :: 0 <= k < i ==> !OccursAt(s, p, k)) &&
                  ReplaceFirst(s, p, r) == s[..i] + r + s[i + |p|..]
  {
    IndexOfSpec(s, p);
  }

  // ---------------------------------------------------------------------------------------------
  // trim

  lemma TakeDrop(s: string, i: nat)
    requires i <= |s|
    ensures s == s[..i] + s[i..]
  {
  }

  function TrimStart(s: string): (r: string)
    ensures |r| <= |s|
    decreases |s|
  {
    if s != [] && IsSpace(s[0]) then TrimStart(s[1..]) else s
  }

  /** `trimStart` drops exactly the leading whitespace. */
  lemma {:induction false} TrimStartSpec(s: string)
    ensures TrimStart(s) == s[|s| - |TrimStart(s)|..]
    ensures AllSpace(s[..|s| - |TrimStart(s)|])
    ensures TrimStart(s) == [] || !IsSpace(TrimStart(s)[0])
    decreases |s|
  {
    if s != [] && IsSpace(s[0]) {
      TrimStartSpec(s[1..]);
      var r := TrimStart(s);
      assert s[1..][|s| - 1 - |r|..] == s[|s| - |r|..];
      assert forall i :: 1 <= i < |s| - |r| ==> s[i] == s[1..][..|s| - 1 - |r|][i - 1];
    }
  }

  function TrimEnd(s: string): (r: string)
    ensures |r| <= |s|
    decreases |s|
  {
    if s != [] && IsSpace(s[|s| - 1]) then TrimEnd(s[..|s| - 1]) else s
  }

  /** `trimEnd` drops exactly the trailing whitespace. */
  lemma {:induction false} TrimEndSpec(s: string)
    ensures TrimEnd(s) == s[..|TrimEnd(s)|]
    ensures AllSpace(s[|TrimEnd(s)|..])
    ensures TrimEnd(s) == [] || !IsSpace(TrimEnd(s)[|TrimEnd(s)| - 1])
    decreases |s|
  {
    if s != [] && IsSpace(s[|s| - 1]) {
      var s' := s[..|s| - 1];
      TrimEndSpec(s');
      var r := TrimEnd(s);
      assert s'[..|r|] == s[..|r|];
      assert forall i :: |r| <= i < |s| - 1 ==> s[i] == s'[|r|..][i - |r|];
    }
  }

  /** `s.trim()` (TrimSpec) */
  function Trim(s: string): (r: string)
    ensures |r| <= |s|
  {
    TrimEnd(TrimStart(s))
  }

  /** The trimmed text is the text without a whitespace prefix and suffix, and neither starts nor ends with whitespace. */
  lemma TrimSpec(s: string) returns (a: string, b: string)
    ensures AllSpace(a) && AllSpace(b) && s == a + Trim(s) + b
    ensures Trim(s) == [] || (!IsSpace(Trim(s)[0]) && !IsSpace(Trim(s)[|Trim(s)| - 1]))
  {
    var t := TrimStart(s);
    var r := TrimEnd(t);
    TrimStartSpec(s);
    TrimEndSpec(t);
    a, b := s[..|s| - |t|], t[|r|..];
    TakeDrop(s, |s| - |t|);
    TakeDrop(t, |r|);
    assert s == a + r + b;
    if r != [] { assert r[0] == t[0]; }
  }

  /** Text that neither starts nor ends with whitespace is its own trim. */
  lemma TrimNoOuterSpace(s: string)
    requires s == [] || (!IsSpace(s[0]) && !IsSpace(s[|s| - 1]))
    ensures Trim(s) == s
  {
    assert TrimStart(s) == s;
  }

  lemma TrimIdempotent(s: string)
    ensures Trim(Trim(s)) == Trim(s)
  {
    var _, _ := TrimSpec(s);
    TrimNoOuterSpace(Trim(s));
  }

  /** `!s.trim()`: the text is empty or whitespace only. */
  predicate IsBlank(s: string) { Trim(s) == "" }

  lemma BlankIffAllSpace(s: string)
    ensures IsBlank(s) <==> AllSpace(s)
  {
    var a, b := TrimSpec(s);
    if Trim(s) != "" {
      assert s[|a|] == Trim(s)[0];
      assert !IsSpace(s[|a|]);
    } else {
      assert s == a + b;
      assert forall i :: 0 <= i < |s| ==> IsSpace(s[i]) by {
        forall i | 0 <= i < |s| ensures IsSpace(s[i]) {
          if i < |a| { assert s[i] == a[i]; } else { assert s[i] == b[i - |a|]; }
        }
      }
    }
  }

  // ---------------------------------------------------------------------------------------------
  // split and join

  /** The position of the first whitespace character of `t`, if any (FirstSpaceSpec). */
  function FirstSpace(t: string): (r: Option<nat>)
    ensures r.Some? ==> r.value < |t| && IsSpace(t[r.value])
    decreases |t|
  {
    if t == [] then None
    else if IsSpace(t[0]) then Some(0)
    else match FirstSpace(t[1..])
      case None => None
      case Some(k) => Some(k + 1)
  }

  lemma {:induction false} FirstSpaceSpec(t: string)
    ensures FirstSpace(t).None? ==> NoSpace(t)
    ensures FirstSpace(t).Some? ==> NoSpace(t[..FirstSpace(t).value])
    decreases |t|
  {
    if t != [] && !IsSpace(t[0]) {
      FirstSpaceSpec(t[1..]);
      match FirstSpace(t[1..])
      case None =>
        assert forall i :: 1 <= i < |t| ==> t[i] == t[1..][i - 1];
      case Some(k) =>
        assert forall i :: 1 <= i < k + 1 ==> t[i] == t[1..][..k][i - 1];
    }
  }

  lemma {:induction false} FirstSpaceAt(t: string, i: nat)
    requires i < |t| && IsSpace(t[i]) && NoSpace(t[..i])
    ensures FirstSpace(t) == Some(i)
    decreases i
  {
    if i > 0 {
      assert t[..i][0] == t[0];
      assert t[1..][..i - 1] == t[..i][1..];
      FirstSpaceAt(t[1..], i - 1);
    }
  }

  /** The end of the whitespace run that starts at `i` (RunEndSpec). */
  function RunEnd(t: string, i: nat): (j: nat)
    requires i < |t| && IsSpace(t[i])
    ensures i < j <= |t|
    decreases |t| - i
  {
    if i + 1 < |t| && IsSpace(t[i + 1]) then RunEnd(t, i + 1) else i + 1
  }

  lemma {:induction false} RunEndSpec(t: string, i: nat)
    requires i < |t| && IsSpace(t[i])
    ensures AllSpace(t[i..RunEnd(t, i)])
    ensures RunEnd(t, i) == |t| || !IsSpace(t[RunEnd(t, i)])
    decreases |t| - i
  {
    if i + 1 < |t| && IsSpace(t[i + 1]) {
      RunEndSpec(t, i + 1);
      var j := RunEnd(t, i);
      assert forall k :: i + 1 <= k < j ==> t[k] == t[i + 1..j][k - i - 1];
    }
  }

  lemma {:induction false} RunEndAt(t: string, i: nat, j: nat)
    requires i < j <= |t| && AllSpace(t[i..j]) && (j == |t| || !IsSpace(t[j]))
    ensures RunEnd(t, i) == j
    decreases j - i
  {
    assert t[i..j][0] == t[i];
    if i + 1 < j {
      assert t[i..j][1] == t[i + 1];
      assert t[i + 1..j] == t[i..j][1..];
      RunEndAt(t, i + 1, j);
    }
  }

  /** `t.split(/\s+/)`: the pieces between maximal whitespace runs, empty ones included (SplitWsNoSpace). */
  function SplitWs(t: string): (r: seq<string>)
    ensures |r| >= 1
    decreases |t|
  {
    match FirstSpace(t)
    case None => [t]
    case Some(i) => [t[..i]] + SplitWs(t[RunEnd(t, i)..])
  }

  /** No piece of a whitespace split contains whitespace. */
  lemma {:induction false} SplitWsNoSpace(t: string)
    ensures forall i :: 0 <= i < |SplitWs(t)| ==> NoSpace(SplitWs(t)[i])
    decreases |t|
  {
    FirstSpaceSpec(t);
    match FirstSpace(t)
    case None =>
    case Some(i) =>
      SplitWsNoSpace(t[RunEnd(t, i)..]);
  }

  /** A whitespace-free word followed by a whitespace run is the first piece of the split. */
  lemma SplitWsCons(w: string, sep: string, rest: string)
    requires NoSpace(w) && |sep| > 0 && AllSpace(sep) && (rest == [] || !IsSpace(rest[0]))
    ensures SplitWs(w + sep + rest) == [w] + SplitWs(rest)
  {
    var t := w + sep + rest;
    assert t[..|w|] == w;
    assert t[|w|] == sep[0];
    FirstSpaceAt(t, |w|);
    assert t[|w|..|w| + |sep|] == sep;
    if rest != [] { assert t[|w| + |sep|] == rest[0]; }
    RunEndAt(t, |w|, |w| + |sep|);
    assert t[|w| + |sep|..] == rest;
  }

  /** A split into several pieces exposes its first piece and the whitespace run after it. */
  lemma SplitWsHead(t: string) returns (sep: string, tail: string)
    requires |SplitWs(t)| >= 2
    ensures t == SplitWs(t)[0] + sep + tail && |sep| > 0 && AllSpace(sep)
    ensures tail == [] || !IsSpace(tail[0])
    ensures SplitWs(tail) == SplitWs(t)[1..]
  {
    var i := FirstSpace(t).value;
    var j := RunEnd(t, i);
    RunEndSpec(t, i);
    sep, tail := t[i..j], t[j..];
    assert t == t[..i] + sep + tail;
  }

  /** A split into one piece leaves the text whole. */
  lemma SplitWsOne(t: string)
    requires |SplitWs(t)| == 1
    ensures SplitWs(t) == [t]
  {
  }

  /** A whitespace-free text is split into itself. */
  lemma SplitWsWord(t: string)
    requires NoSpace(t)
    ensures SplitWs(t) == [t]
  {
  }

  /** `s.split(c)` for a one-character separator: the pieces between separators, empty ones included (SplitOnSpec). */
  function SplitOn(s: string, c: char): (r: seq<string>)
    ensures |r| >= 1
    decreases |s|
  {
    match IndexOf(s, [c])
    case None => [s]
    case Some(i) => [s[..i]] + SplitOn(s[i + 1..], c)
  }

  /** No piece of a split contains the separator. */
  lemma {:induction false} SplitOnSpec(s: string, c: char)
    ensures forall i :: 0 <= i < |SplitOn(s, c)| ==> c !in SplitOn(s, c)[i]
    decreases |s|
  {
    IndexOfSpec(s, [c]);
    match IndexOf(s, [c])
    case None =>
      assert forall k :: 0 <= k < |s| ==> s[k] != c by {
        forall k | 0 <= k < |s| ensures s[k] != c { assert !OccursAt(s, [c], k); }
      }
    case Some(i) =>
      SplitOnSpec(s[i + 1..], c);
      assert forall k :: 0 <= k < i ==> s[k] != c by {
        forall k | 0 <= k < i ensures s[k] != c { assert !OccursAt(s, [c], k); }
      }
  }

  /** `pieces.join(sep)` */
  function Join(pieces: seq<string>, sep: string): string
  {
    if pieces == [] then ""
    else if |pieces| == 1 then pieces[0]
    else pieces[0] + sep + Join(pieces[1..], sep)
  }

  /** A joined text starts with its first piece and ends with its last one. */
  lemma {:induction false} JoinEnds(pieces: seq<string>, sep: string)
    requires |pieces| >= 1
    ensures pieces[0] <= Join(pieces, sep)
    ensures EndsWith(Join(pieces, sep), pieces[|pieces| - 1])
    decreases |pieces|
  {
    if |pieces| > 1 {
      JoinEnds(pieces[1..], sep);
      var rest := Join(pieces[1..], sep);
      var last := pieces[|pieces| - 1];
      assert Join(pieces, sep) == pieces[0] + sep + rest;
      assert Join(pieces, sep)[|Join(pieces, sep)| - |last|..] == rest[|rest| - |last|..];
    }
  }

  /** Splitting on whitespace undoes joining words with single spaces. */
  lemma {:induction false} SplitWsJoin(words: seq<string>)
    requires |words| >= 1
    requires forall i :: 0 <= i < |words| ==> words[i] != [] && NoSpace(words[i])
    ensures SplitWs(Join(words, " ")) == words
    decreases |words|
  {
    if |words| == 1 {
      SplitWsWord(words[0]);
    } else {
      var rest := Join(words[1..], " ");
      SplitWsJoin(words[1..]);
      JoinEnds(words[1..], " ");
      assert rest[0] == words[1][0];
      SplitWsCons(words[0], " ", rest);
      assert words == [words[0]] + words[1..];
    }
  }

  /** Words joined with single spaces have no outer whitespace to trim. */
  lemma JoinedWordsTrimmed(words: seq<string>)
    requires |words| >= 1
    requires forall i :: 0 <= i < |words| ==> words[i] != [] && NoSpace(words[i])
    ensures Trim(Join(words, " ")) == Join(words, " ")
  {
    var t := Join(words, " ");
    var last := words[|words| - 1];
    JoinEnds(words, " ");
    assert t[0] == words[0][0];
    assert t[|t| - 1] == last[|last| - 1] by {
      assert t[|t| - |last|..][|last| - 1] == last[|last| - 1];
    }
    TrimNoOuterSpace(t);
  }

  /** Splitting on a character undoes joining on it when no piece contains it. */
  lemma {:induction false} SplitOnJoin(pieces: seq<string>, c: char)
    requires |pieces| >= 1
    requires forall i :: 0 <= i < |pieces| ==> c !in pieces[i]
    ensures SplitOn(Join(pieces, [c]), c) == pieces
    decreases |pieces|
  {
    var s := Join(pieces, [c]);
    var p0 := pieces[0];
    IndexOfSpec(s, [c]);
    if |pieces| == 1 {
      assert !Contains(s, [c]) by {
        forall k | 0 <= k <= |s| ensures !OccursAt(s, [c], k) {
          if k < |s| { assert s[k] != c; }
        }
      }
    } else {
      assert s == p0 + [c] + Join(pieces[1..], [c]);
      assert OccursAt(s, [c], |p0|);
      assert forall k :: 0 <= k < |p0| ==> !OccursAt(s, [c], k) by {
        forall k | 0 <= k < |p0| ensures !OccursAt(s, [c], k) { assert s[k] == p0[k]; }
      }
      assert IndexOf(s, [c]) == Some(|p0|);
      assert s[..|p0|] == p0;
      assert s[|p0| + 1..] == Join(pieces[1..], [c]);
      SplitOnJoin(pieces[1..], c);
    }
  }

  /** Joining the pieces of a split restores the text. */
  lemma {:induction false} JoinSplitOn(s: string, c: char)
    ensures Join(SplitOn(s, c), [c]) == s
    decreases |s|
  {
    IndexOfSpec(s, [c]);
    match IndexOf(s, [c])
    case None =>
    case Some(i) =>
      JoinSplitOn(s[i + 1..], c);
      assert s[i] == c;
      assert s == s[..i] + [c] + s[i + 1..];
  }

  // ---------------------------------------------------------------------------------------------
  // case mapping

  function ToLowerChar(c: char): char {
    if 'A' <= c <= 'Z' then (c as int + 32) as char else c
  }

  function ToUpperChar(c: char): char {
    if 'a' <= c <= 'z' then (c as int - 32) as char else c
  }

  /** `s.toLowerCase()` on the ASCII letters. */
  function ToLower(s: string): (r: string)
    ensures |r| == |s| && forall i :: 0 <= i < |s| ==> r[i] == ToLowerChar(s[i])
  {
    seq(|s|, i requires 0 <= i < |s| => ToLowerChar(s[i]))
  }

  // ---------------------------------------------------------------------------------------------
  // order

  /** Lexicographic order on character codes: `a.localeCompare(b) < 0`. */
  predicate Less(a: string, b: string)
    decreases |a|
  {
    if a == [] then b != []
    else if b == [] then false
    else a[0] < b[0] || (a[0] == b[0] && Less(a[1..], b[1..]))
  }

  lemma {:induction false} LessIrreflexive(a: string)
    ensures !Less(a, a)
    decreases |a|
  {
    if a != [] { LessIrreflexive(a[1..]); }
  }

  lemma {:induction false} LessTransitive(a: string, b: string, c: string)
    requires Less(a, b) && Less(b, c)
    ensures Less(a, c)
    decreases |a|
  {
    if a != [] && a[0] == b[0] && b[0] == c[0] {
      LessTransitive(a[1..], b[1..], c[1..]);
    }
  }

  lemma {:induction false} LessTotal(a: string, b: string)
    ensures Less(a, b) || a == b || Less(b, a)
    decreases |a|
  {
    if a != [] && b != [] && a[0] == b[0] {
      LessTotal(a[1..], b[1..]);
      if a[1..] == b[1..] {
        assert a == [a[0]] + a[1..] && b == [b[0]] + b[1..];
      }
    }
  }

  lemma LessAsymmetric(a: string, b: string)
    requires Less(a, b)
    ensures !Less(b, a)
  {
    if Less(b, a) {
      LessTransitive(a, b, a);
      LessIrreflexive(a);
    }
  }

  /** `sort()` on strings, or a `a.localeCompare(b)` comparator: `a` goes no later than `b`. */
  predicate Ascending(a: string, b: string) {
    !Less(b, a)
  }

  /** A `b.localeCompare(a)` comparator: `a` goes no later than `b`. */
  predicate Descending(a: string, b: string) {
    !Less(a, b)
  }

  lemma AscendingPreorder()
    ensures Sorting.TotalPreorder(Ascending)
  {
    forall a, b ensures Ascending(a, b) || Ascending(b, a) {
      if Less(b, a) { LessAsymmetric(b, a); }
    }
    forall a, b, c | Ascending(a, b) && Ascending(b, c) ensures Ascending(a, c) {
      LessTotal(a, b);
      LessTotal(b, c);
      if Less(c, a) {
        if Less(a, b) { LessTransitive(c, a, b); }
      }
    }
  }

  lemma DescendingPreorder()
    ensures Sorting.TotalPreorder(Descending)
  {
    forall a, b ensures Descending(a, b) || Descending(b, a) {
      if Less(a, b) { LessAsymmetric(a, b); }
    }
    forall a, b, c | Descending(a, b) && Descending(b, c) ensures Descending(a, c) {
      LessTotal(a, b);
      LessTotal(b, c);
      if Less(a, c) {
        if Less(b, a) { LessTransitive(b, a, c); }
      }
    }
  }

  /** Sorted by `Descending` without repeats: strictly descending. */
  lemma DescendingStrictly(s: seq<string>)
    requires Sorting.Sorted(s, Descending)
    requires forall i, j :: 0 <= i < j < |s| ==> s[i] != s[j]
    ensures forall i, j :: 0 <= i < j < |s| ==> Less(s[j], s[i])
  {
    forall i, j | 0 <= i < j < |s| ensures Less(s[j], s[i]) {
      LessTotal(s[i], s[j]);
    }
  }

  /** Sorted by `Ascending` without repeats: strictly ascending. */
  lemma AscendingStrictly(s: seq<string>)
    requires Sorting.Sorted(s, Ascending)
    requires forall i, j :: 0 <= i < j < |s| ==> s[i] != s[j]
    ensures forall i, j :: 0 <= i < j < |s| ==> Less(s[i], s[j])
  {
    forall i, j | 0 <= i < j < |s| ensures Less(s[i], s[j]) {
      LessTotal(s[i], s[j]);
    }
  }
}

/**
  `markdownToHtml`, the editor's markdown converter: empty text gives "", text with both `<` and
  `>` is taken as HTML and kept, and anything else goes through a fixed chain of regular
  expression replacements. Each replacement is modelled by the scan the regular expression
  engine performs: a `^...$` rule with the `m` flag rewrites each line (lines end at any of the
  four line terminators), a lazy `D(.*?)D` rule pairs each delimiter with the nearest closing one
  on the same line (`[\s\S]*?` may cross lines), and a literal global rule replaces
  non-overlapping occurrences from left to right.
*/
module RichTextEditor {
  import opened Common
  import opened JsString

  // ---------------------------------------------------------------------------------------------
  // Lines

  /** The length of the first line: the index of the first line terminator, or `|s|`. */
  function LineEnd(s: string): (k: nat)
    ensures k <= |s|
  {
    if s == [] || IsLineTerminator(s[0]) then 0 else 1 + LineEnd(s[1..])
  }

  lemma {:induction false} LineEndSpec(s: string)
    ensures NoLineTerminator(s[..LineEnd(s)])
    ensures LineEnd(s) < |s| ==> IsLineTerminator(s[LineEnd(s)])
  {
    if s != [] && !IsLineTerminator(s[0]) {
      LineEndSpec(s[1..]);
      assert forall i :: 1 <= i < LineEnd(s) ==> s[..LineEnd(s)][i] == s[1..][..LineEnd(s[1..])][i - 1];
    }
  }

  /** A line followed by a terminator: the first line is that line. */
  lemma {:induction false} LineEndOfLine(a: string, c: char, rest: string)
    requires NoLineTerminator(a) && IsLineTerminator(c)
    ensures LineEnd(a + [c] + rest) == |a|
    decreases |a|
  {
    if a != [] {
      assert (a + [c] + rest)[1..] == a[1..] + [c] + rest;
      LineEndOfLine(a[1..], c, rest);
    }
  }

  lemma {:induction false} LineEndOfLast(a: string)
    requires NoLineTerminator(a)
    ensures LineEnd(a) == |a|
    decreases |a|
  {
    if a != [] {
      LineEndOfLast(a[1..]);
    }
  }

  /** `f` applied to every line, the terminators kept. */
  function MapLines(s: string, f: string -> string): string
    decreases |s|
  {
    var k := LineEnd(s);
    if k == |s| then f(s) else f(s[..k]) + [s[k]] + MapLines(s[k + 1..], f)
  }

  /** Rewriting the lines with `f` and then with `g` rewrites them with `g` after `f`. */
  lemma {:induction false} MapLinesCompose(s: string, f: string -> string, g: string -> string)
    requires forall l :: NoLineTerminator(l) ==> NoLineTerminator(f(l))
    ensures MapLines(MapLines(s, f), g) == MapLines(s, l => g(f(l)))
    decreases |s|
  {
    var k := LineEnd(s);
    LineEndSpec(s);
    if k == |s| {
      assert s[..k] == s;
      LineEndOfLast(f(s));
    } else {
      var a := f(s[..k]);
      var rest := MapLines(s[k + 1..], f);
      LineEndOfLine(a, s[k], rest);
      var t := a + [s[k]] + rest;
      assert t[..|a|] == a && t[|a|] == s[k] && t[|a| + 1..] == rest;
      MapLinesCompose(s[k + 1..], f, g);
    }
  }

  /** Two line rewritings that agree on every line agree on every text. */
  lemma {:induction false} MapLinesAgree(s: string, f: string -> string, g: string -> string)
    requires forall l :: NoLineTerminator(l) ==> f(l) == g(l)
    ensures MapLines(s, f) == MapLines(s, g)
    decreases |s|
  {
    LineEndSpec(s);
    var k := LineEnd(s);
    if k == |s| {
      assert s[..k] == s;
    } else {
      MapLinesAgree(s[k + 1..], f, g);
    }
  }

  /** `.replace(/^<prefix>(.*$)/gim, "<open>$1<close>")` on one line. */
  function PrefixLine(prefix: string, open: string, close: string): string -> string {
    l => if prefix <= l then open + l[|prefix|..] + close else l
  }

  lemma PrefixLineKeepsLines(prefix: string, open: string, close: string)
    requires NoLineTerminator(open) && NoLineTerminator(close)
    ensures forall l :: NoLineTerminator(l) ==> NoLineTerminator(PrefixLine(prefix, open, close)(l))
  {
    forall l | NoLineTerminator(l) ensures NoLineTerminator(PrefixLine(prefix, open, close)(l)) {
      if prefix <= l {
        var r := open + l[|prefix|..] + close;
        forall i | 0 <= i < |r| ensures !IsLineTerminator(r[i]) {
          if i < |open| { assert r[i] == open[i]; }
          else if i < |open| + |l| - |prefix| { assert r[i] == l[|prefix|..][i - |open|]; }
          else { assert r[i] == close[i - |open| - (|l| - |prefix|)]; }
        }
      }
    }
  }

  // ---------------------------------------------------------------------------------------------
  // Headers

  const H3 := PrefixLine("### ", "<h3>", "</h3>")
  const H2 := PrefixLine("## ", "<h2>", "</h2>")
  const H1 := PrefixLine("# ", "<h1>", "</h1>")

  /** One line after the three header rules. */
  function HeaderLine(l: string): string {
    if "### " <= l then "<h3>" + l[4..] + "</h3>"
    else if "## " <= l then "<h2>" + l[3..] + "</h2>"
    else if "# " <= l then "<h1>" + l[2..] + "</h1>"
    else l
  }

  /** On one line the three rules in turn make the header `HeaderLine` describes. */
  lemma HeaderRulesOnLine(l: string)
    ensures H1(H2(H3(l))) == HeaderLine(l)
  {
    if "### " <= l {
      assert H3(l)[0] == '<';
    } else if "## " <= l {
      assert H2(l)[0] == '<';
    }
  }

  /** A rewritten line starts with `<`, so no later line rule applies to it. */
  lemma HeaderLineStartsTag(l: string)
    ensures HeaderLine(l) != l ==> HeaderLine(l)[0] == '<'
    ensures HeaderLine(l) != l <==> "### " <= l || "## " <= l || "# " <= l
  {
  }

  /**
    The three header rules rewrite each line on its own: `### ` makes an h3, otherwise `## ` an
    h2, otherwise `# ` an h1.
  */
  lemma HeadersPerLine(s: string)
    ensures MapLines(MapLines(MapLines(s, H3), H2), H1) == MapLines(s, HeaderLine)
  {
    PrefixLineKeepsLines("### ", "<h3>", "</h3>");
    PrefixLineKeepsLines("## ", "<h2>", "</h2>");
    MapLinesCompose(s, H3, H2);
    var h32 := l => H2(H3(l));
    MapLinesCompose(s, h32, H1);
    forall l | NoLineTerminator(l) ensures H1(h32(l)) == HeaderLine(l) {
      HeaderRulesOnLine(l);
    }
    MapLinesAgree(s, l => H1(h32(l)), HeaderLine);
  }

  // ---------------------------------------------------------------------------------------------
  // Paired delimiters

  /**
    The lazy search for the closing delimiter `d` from index `j`: the first occurrence, unless a
    line terminator comes first and the group may not cross lines.
  */
  function FindClose(s: string, d: string, j: nat, acrossLines: bool): (r: Option<nat>)
    requires |d| > 0
    ensures r.Some? ==> j <= r.value && r.value + |d| <= |s| && s[r.value..r.value + |d|] == d
    decreases |s| - j
  {
    if j + |d| > |s| then None
    else if s[j..j + |d|] == d then Some(j)
    else if !acrossLines && IsLineTerminator(s[j]) then None
    else FindClose(s, d, j + 1, acrossLines)
  }

  /** `.replace(/D(.*?)D/g, "<open>$1<close>")` with the literal delimiter `d`. */
  function Pairs(s: string, d: string, open: string, close: string, acrossLines: bool): string
    requires |d| > 0
    decreases |s|
  {
    if s == [] then []
    else if d <= s && FindClose(s, d, |d|, acrossLines).Some? then
      var j := FindClose(s, d, |d|, acrossLines).value;
      open + s[|d|..j] + close + Pairs(s[j + |d|..], d, open, close, acrossLines)
    else [s[0]] + Pairs(s[1..], d, open, close, acrossLines)
  }

  /** Text without the delimiter's first character is left alone. */
  lemma {:induction false} PairsWithoutDelimiter(s: string, d: string, open: string, close: string, acrossLines: bool)
    requires |d| > 0 && d[0] !in s
    ensures Pairs(s, d, open, close, acrossLines) == s
    decreases |s|
  {
    if s != [] {
      assert !(d <= s);
      PairsWithoutDelimiter(s[1..], d, open, close, acrossLines);
    }
  }

  /** With no delimiter inside, `d x d` on one line becomes `open x close`. */
  lemma {:induction false} PairsEnclosed(x: string, d: string, open: string, close: string)
    requires |d| > 0 && d[0] !in x && NoLineTerminator(x)
    ensures Pairs(d + x + d, d, open, close, false) == open + x + close
  {
    var s := d + x + d;
    assert d <= s;
    forall j | |d| <= j < |d| + |x| ensures Passes(s, d, j) {
      assert s[j] == x[j - |d|];
    }
    assert s[|d| + |x|..|d| + |x| + |d|] == d;
    FindCloseScan(s, d, |d|, |d| + |x|);
    assert s[|d|..|d| + |x|] == x;
    assert s[|d| + |x| + |d|..] == [];
  }

  /** At index `i` the search for `d` goes on: no delimiter there, and no line terminator. */
  predicate Passes(s: string, d: string, i: nat) {
    i + |d| <= |s| && s[i..i + |d|] != d && !IsLineTerminator(s[i])
  }

  lemma {:induction false} FindCloseScan(s: string, d: string, j: nat, k: nat)
    requires |d| > 0 && j <= k && k + |d| <= |s| && s[k..k + |d|] == d
    requires forall i :: j <= i < k ==> Passes(s, d, i)
    ensures FindClose(s, d, j, false) == Some(k)
    decreases k - j
  {
    if j < k {
      assert Passes(s, d, j);
      FindCloseScan(s, d, j + 1, k);
    }
  }

  const Strong := "<strong>"
  const StrongEnd := "</strong>"

  /** The bold and italic rules, in the converter's order. */
  function Emphasis(s: string): string {
    var bold := Pairs(Pairs(s, "**", Strong, StrongEnd, false), "__", Strong, StrongEnd, false);
    Pairs(Pairs(bold, "*", "<em>", "</em>", false), "_", "<em>", "</em>", false)
  }

  /**
    Bold comes before italic: `**x**` and `__x__` become strong text, not emphasised stars or
    underscores.
  */
  lemma BoldBeforeItalic(x: string)
    requires NoLineTerminator(x) && '*' !in x && '_' !in x
    ensures Emphasis("**" + x + "**") == Strong + x + StrongEnd
    ensures Emphasis("__" + x + "__") == Strong + x + StrongEnd
  {
    var r := Strong + x + StrongEnd;
    assert '*' !in r && '_' !in r by {
      assert forall i :: 0 <= i < |r| ==> r[i] == (if i < |Strong| then Strong[i] else if i < |Strong| + |x| then x[i - |Strong|] else StrongEnd[i - |Strong| - |x|]);
    }
    PairsEnclosed(x, "**", Strong, StrongEnd);
    PairsWithoutDelimiter(r, "__", Strong, StrongEnd, false);
    PairsWithoutDelimiter(r, "*", "<em>", "</em>", false);
    PairsWithoutDelimiter(r, "_", "<em>", "</em>", false);
    var u := "__" + x + "__";
    assert '*' !in u;
    PairsWithoutDelimiter(u, "**", Strong, StrongEnd, false);
    PairsEnclosed(x, "__", Strong, StrongEnd);
  }

  // ---------------------------------------------------------------------------------------------
  // List items

  function DigitRun(l: string): (k: nat)
    ensures k <= |l|
  {
    if l != [] && IsDigit(l[0]) then 1 + DigitRun(l[1..]) else 0
  }

  /** `.replace(/^(\d+)\. (.*$)/gim, "<li>$2</li>")` on one line. */
  function NumberedLine(l: string): string {
    var k := DigitRun(l);
    if k > 0 && ". " <= l[k..] then "<li>" + l[k + 2..] + "</li>" else l
  }

  // ---------------------------------------------------------------------------------------------
  // Newlines

  /** `.replace(/<p>/g, r)` for a literal `p`: non-overlapping occurrences, left to right. */
  function ReplaceAll(s: string, p: string, r: string): string
    requires |p| > 0
    decreases |s|
  {
    if s == [] then []
    else if p <= s then r + ReplaceAll(s[|p|..], p, r)
    else [s[0]] + ReplaceAll(s[1..], p, r)
  }

  /** Text in which `p` cannot start passes through unchanged in front. */
  lemma {:induction false} ReplaceAllAfter(u: string, t: string, p: string, r: string)
    requires |p| > 0 && p[0] !in u
    ensures ReplaceAll(u + t, p, r) == u + ReplaceAll(t, p, r)
    decreases |u|
  {
    if u != [] {
      assert (u + t)[0] == u[0] && p[0] != u[0];
      assert !(p <= u + t);
      assert ReplaceAll(u + t, p, r) == [u[0]] + ReplaceAll((u + t)[1..], p, r);
      assert (u + t)[1..] == u[1..] + t;
      ReplaceAllAfter(u[1..], t, p, r);
      assert u == [u[0]] + u[1..];
    } else {
      assert u + t == t;
    }
  }

  /** The number of newlines `s` starts with. */
  function RunLength(s: string): (n: nat)
    ensures n <= |s|
  {
    if s != [] && s[0] == '\n' then 1 + RunLength(s[1..]) else 0
  }

  const EmptyParagraph := "</p><p></p><p>"
  const ParagraphBreak := "</p><p>"
  const LineBreak := "<br>"

  /** `.replace(/\n\n\n+/g, "</p><p></p><p>")`: a run of three or more newlines, taken whole. */
  function LongBreaks(s: string): string
    decreases |s|
  {
    if s == [] then []
    else if "\n\n\n" <= s then
      assert RunLength(s) >= 3 by {
        assert s[0] == '\n' && s[1..][0] == '\n' && s[1..][1..][0] == '\n';
        assert RunLength(s[1..][1..]) >= 1;
        assert RunLength(s[1..]) >= 2;
      }
      EmptyParagraph + LongBreaks(s[RunLength(s)..])
    else [s[0]] + LongBreaks(s[1..])
  }

  /** The three newline rules in order. */
  function Newlines(s: string): string {
    ReplaceAll(ReplaceAll(LongBreaks(s), "\n\n", ParagraphBreak), "\n", LineBreak)
  }

  /** What a maximal run of `n` newlines becomes. */
  function RunHtml(n: nat): string {
    if n >= 3 then EmptyParagraph else if n == 2 then ParagraphBreak else LineBreak
  }

  /** Every maximal run of newlines replaced according to its length. */
  function Breaks(s: string): string
    decreases |s|
  {
    if s == [] then []
    else if s[0] != '\n' then [s[0]] + Breaks(s[1..])
    else RunHtml(RunLength(s)) + Breaks(s[RunLength(s)..])
  }

  lemma {:induction false} RunLengthSpec(s: string)
    ensures forall i :: 0 <= i < RunLength(s) ==> s[i] == '\n'
    ensures RunLength(s) < |s| ==> s[RunLength(s)] != '\n'
  {
    if s != [] && s[0] == '\n' {
      RunLengthSpec(s[1..]);
    }
  }

  lemma LongBreaksStart(s: string)
    requires s == [] || s[0] != '\n'
    ensures LongBreaks(s) == [] || LongBreaks(s)[0] != '\n'
  {
  }

  /**
    The three newline rules together replace each maximal run of newlines as a whole: three or
    more give an empty paragraph, exactly two a paragraph break, one a line break; no newline
    is left.
  */
  lemma {:induction false} NewlinesByRuns(s: string)
    ensures Newlines(s) == Breaks(s)
    ensures '\n' !in Newlines(s)
    decreases |s|
  {
    if s == [] {
    } else if s[0] != '\n' {
      assert !("\n\n\n" <= s);
      var t := LongBreaks(s[1..]);
      ReplaceAllAfter([s[0]], t, "\n\n", ParagraphBreak);
      ReplaceAllAfter([s[0]], ReplaceAll(t, "\n\n", ParagraphBreak), "\n", LineBreak);
      NewlinesByRuns(s[1..]);
    } else {
      var n := RunLength(s);
      RunLengthSpec(s);
      var rest := s[n..];
      NewlinesByRuns(rest);
      LongBreaksStart(rest);
      var t := LongBreaks(rest);
      if n >= 3 {
        assert "\n\n\n" <= s by { assert s[0] == '\n' && s[1] == '\n' && s[2] == '\n'; }
        ReplaceAllAfter(EmptyParagraph, t, "\n\n", ParagraphBreak);
        ReplaceAllAfter(EmptyParagraph, ReplaceAll(t, "\n\n", ParagraphBreak), "\n", LineBreak);
      } else if n == 2 {
        assert s == "\n\n" + rest;
        NewlinesAfterPair(rest);
      } else {
        assert s == "\n" + rest;
        NewlinesAfterSingle(rest);
      }
    }
  }

  /** Two newlines not followed by a third become a paragraph break. */
  lemma NewlinesAfterPair(rest: string)
    requires rest == [] || rest[0] != '\n'
    ensures Newlines("\n\n" + rest) == ParagraphBreak + Newlines(rest)
  {
    var s := "\n\n" + rest;
    LongBreaksStart(rest);
    var t := LongBreaks(rest);
    assert rest != [] ==> s[2] == rest[0];
    assert !("\n\n\n" <= s);
    assert s[1..] == "\n" + rest && !("\n\n\n" <= s[1..]);
    assert s[1..][1..] == rest;
    assert LongBreaks(s) == "\n\n" + t;
    assert ("\n\n" + t)[2..] == t;
    var w := ReplaceAll(t, "\n\n", ParagraphBreak);
    assert ReplaceAll("\n\n" + t, "\n\n", ParagraphBreak) == ParagraphBreak + w;
    ReplaceAllAfter(ParagraphBreak, w, "\n", LineBreak);
  }

  /** A newline on its own becomes a line break. */
  lemma NewlinesAfterSingle(rest: string)
    requires rest == [] || rest[0] != '\n'
    ensures Newlines("\n" + rest) == LineBreak + Newlines(rest)
  {
    var s := "\n" + rest;
    LongBreaksStart(rest);
    var t := LongBreaks(rest);
    assert !("\n\n\n" <= s);
    assert LongBreaks(s) == "\n" + t;
    assert !("\n\n" <= "\n" + t);
    assert ("\n" + t)[1..] == t;
    var w := ReplaceAll(t, "\n\n", ParagraphBreak);
    assert ReplaceAll("\n" + t, "\n\n", ParagraphBreak) == "\n" + w;
    assert ("\n" + w)[1..] == w;
  }

  // ---------------------------------------------------------------------------------------------
  // Paragraphs

  /** `.replace(/^(?!<[h|b|p|l|d|c])/gm, "<p>")` on one line. */
  function OpenParagraph(l: string): string {
    if |l| >= 2 && l[0] == '<' && l[1] in "h|bpldc" then l else "<p>" + l
  }

  /** `.replace(/(?<!>)$/gm, "</p>")` on one line. */
  function CloseParagraph(l: string): string {
    if |l| > 0 && l[|l| - 1] == '>' then l else l + "</p>"
  }

  // ---------------------------------------------------------------------------------------------
  // The converter

  /** Everything the converter does after the header rules. */
  function AfterHeaders(headers: string): string {
    var inline := Pairs(Emphasis(headers), "~~", "<s>", "</s>", false);
    var code := Pairs(Pairs(inline, "```", "<pre><code>", "</code></pre>", true), "`", "<code>", "</code>", false);
    var quotes := MapLines(code, PrefixLine("> ", "<blockquote>", "</blockquote>"));
    var items := MapLines(MapLines(MapLines(quotes, PrefixLine("* ", "<li>", "</li>")),
                                   PrefixLine("- ", "<li>", "</li>")), NumberedLine);
    Paragraphs(Newlines(items))
  }

  /** The paragraph rules and the final clean-up, on text without newlines. */
  function Paragraphs(s: string): string {
    ReplaceAll(MapLines(MapLines(s, OpenParagraph), CloseParagraph), "<p><br></p>", "<p></p>")
  }

  /** The replacement chain. */
  function Convert(md: string): string {
    AfterHeaders(MapLines(MapLines(MapLines(md, H3), H2), H1))
  }

  /** `markdownToHtml`: text that is converted comes out on one line, every line break turned into markup. */
  function MarkdownToHtml(md: string): (html: string)
    ensures !('<' in md && '>' in md) ==> '\n' !in html
  {
    if md == "" then ""
    else if '<' in md && '>' in md then md
    else ConvertedHasNoNewline(md); Convert(md)
  }

  /** Empty text gives "", text with both angle brackets is returned as it is, anything else is converted. */
  lemma MarkdownToHtmlShortcuts(md: string)
    ensures md == "" ==> MarkdownToHtml(md) == ""
    ensures '<' in md && '>' in md ==> MarkdownToHtml(md) == md
    ensures md != "" && !('<' in md && '>' in md) ==> MarkdownToHtml(md) == Convert(md)
  {
  }

  /** The header rules come first and act on each line as `HeaderLine` says. */
  lemma ConvertStartsWithHeaders(md: string)
    ensures Convert(md) == AfterHeaders(MapLines(md, HeaderLine))
  {
    HeadersPerLine(md);
  }

  predicate NewlineFree(s: string) {
    '\n' !in s
  }

  /** A line rewriting that adds no newline keeps text newline-free. */
  lemma {:induction false} MapLinesNoNewline(s: string, f: string -> string)
    requires '\n' !in s
    requires forall l :: NewlineFree(l) ==> NewlineFree(f(l))
    ensures '\n' !in MapLines(s, f)
    decreases |s|
  {
    var k := LineEnd(s);
    if k == |s| {
      assert s[..k] == s;
    } else {
      assert s == s[..k] + [s[k]] + s[k + 1..];
      MapLinesNoNewline(s[k + 1..], f);
    }
  }

  /** A literal replacement without newlines keeps text newline-free. */
  lemma {:induction false} ReplaceAllNoNewline(s: string, p: string, r: string)
    requires |p| > 0 && '\n' !in s && '\n' !in r
    ensures '\n' !in ReplaceAll(s, p, r)
    decreases |s|
  {
    if s != [] {
      if p <= s {
        assert s == s[..|p|] + s[|p|..];
        ReplaceAllNoNewline(s[|p|..], p, r);
      } else {
        assert s == [s[0]] + s[1..];
        ReplaceAllNoNewline(s[1..], p, r);
      }
    }
  }

  /** Converted markdown holds no newline: every line break has become markup. */
  lemma ConvertedHasNoNewline(md: string)
    ensures '\n' !in Convert(md)
  {
    var headers := MapLines(MapLines(MapLines(md, H3), H2), H1);
    var inline := Pairs(Emphasis(headers), "~~", "<s>", "</s>", false);
    var code := Pairs(Pairs(inline, "```", "<pre><code>", "</code></pre>", true), "`", "<code>", "</code>", false);
    var quotes := MapLines(code, PrefixLine("> ", "<blockquote>", "</blockquote>"));
    var items := MapLines(MapLines(MapLines(quotes, PrefixLine("* ", "<li>", "</li>")),
                                   PrefixLine("- ", "<li>", "</li>")), NumberedLine);
    NewlinesByRuns(items);
    var plain := Newlines(items);
    MapLinesNoNewline(plain, OpenParagraph);
    MapLinesNoNewline(MapLines(plain, OpenParagraph), CloseParagraph);
    ReplaceAllNoNewline(MapLines(MapLines(plain, OpenParagraph), CloseParagraph), "<p><br></p>", "<p></p>");
  }
}

/** The profile page's display helpers: the markdown renderer for the "date me" document
    (a fixed pipeline of pattern rewrites), the first name shown in the greeting, and the
    check that sends an unfinished profile back to onboarding. */
module ProfileView {
  import opened Text
  import opened MarkdownPatterns
  import opened Lists

  /** The characters at which a multiline `^` may match and which `.` does not match. */
  predicate IsLineTerminator(c: char) {
    c == '\n' || c == '\r' || c == '\U{2028}' || c == '\U{2029}'
  }

  predicate NoLineTerminator(s: string) {
    forall i :: 0 <= i < |s| ==> !IsLineTerminator(s[i])
  }

  // ---------------------------------------------------------------- headings

  // The markup strings are written as short pieces so that facts about the characters
  // in them stay cheap to prove.
  const H3Open := "<h3 class=\"" + "text-xl font-heading " + "font-normal mt-6 mb-3\">"
  const H2Open := "<h2 class=\"" + "text-2xl font-heading " + "font-normal mt-8 mb-4\">"
  const H1Open := "<h1 class=\"" + "text-3xl font-heading " + "font-normal mt-10 mb-5\">"

  /** The length of the first line of `s`. */
  function LineEnd(s: string): (n: nat)
    ensures n <= |s| && NoLineTerminator(s[..n])
    ensures n < |s| ==> IsLineTerminator(s[n])
  {
    if s == [] || IsLineTerminator(s[0]) then 0
    else
      var n := 1 + LineEnd(s[1..]);
      assert s[..n] == [s[0]] + s[1..][..n - 1];
      n
  }

  /** `s.replace(/^marker(.*$)/gim, open + '$1' + close)`: every line that starts with
      `marker` is wrapped, without its marker, in `open` and `close`; the line terminators
      are kept. */
  function RewriteHeadingLines(s: string, marker: string, open: string, close: string): string
    decreases |s|
  {
    var n := LineEnd(s);
    var line := s[..n];
    var out := if StartsWith(line, marker) then open + line[|marker|..] + close else line;
    if n == |s| then out else out + [s[n]] + RewriteHeadingLines(s[n + 1..], marker, open, close)
  }

  /** The three heading rewrites, `###` first, then `##`, then `#`. */
  function Headings(s: string): string {
    var h3 := RewriteHeadingLines(s, "### ", H3Open, "</h3>");
    var h2 := RewriteHeadingLines(h3, "## ", H2Open, "</h2>");
    RewriteHeadingLines(h2, "# ", H1Open, "</h1>")
  }

  /** On a single line the rewrite is all or nothing. */
  lemma RewriteOneLine(s: string, marker: string, open: string, close: string)
    requires NoLineTerminator(s)
    ensures RewriteHeadingLines(s, marker, open, close)
         == if StartsWith(s, marker) then open + s[|marker|..] + close else s
  {
    assert s[..|s|] == s;
  }

  lemma PlainConcat(a: string, b: string)
    requires NoLineTerminator(a) && NoLineTerminator(b)
    ensures NoLineTerminator(a + b)
  {
    forall i | 0 <= i < |a + b| ensures !IsLineTerminator((a + b)[i]) {
      if i >= |a| {
        assert (a + b)[i] == b[i - |a|];
      }
    }
  }

  /** A line made of a marker and a text is wrapped. */
  lemma MarkedLine(marker: string, open: string, close: string, x: string)
    requires NoLineTerminator(marker) && NoLineTerminator(x)
    ensures RewriteHeadingLines(marker + x, marker, open, close) == open + x + close
  {
    PlainConcat(marker, x);
    RewriteOneLine(marker + x, marker, open, close);
    assert (marker + x)[..|marker|] == marker;
    assert (marker + x)[|marker|..] == x;
  }

  /** A heading tag line: it starts with `<` and holds no line terminator. */
  lemma TagLine(open: string, x: string, close: string)
    requires NoLineTerminator(open) && NoLineTerminator(x) && NoLineTerminator(close)
    requires open != [] && open[0] == '<'
    ensures NoLineTerminator(open + x + close) && (open + x + close)[0] == '<'
  {
    PlainConcat(open, x);
    PlainConcat(open + x, close);
  }

  /** The facts the heading lemmas need about the markup strings. */
  lemma H3Tags()
    ensures NoLineTerminator(H3Open) && H3Open[0] == '<' && NoLineTerminator("</h3>")
  {
    var a, b, c := "<h3 class=\"", "text-xl font-heading ", "font-normal mt-6 mb-3\">";
    assert NoLineTerminator(a) && NoLineTerminator(b) && NoLineTerminator(c);
    assert NoLineTerminator("</h3>");
    PlainConcat(a, b);
    PlainConcat(a + b, c);
  }

  lemma H2Tags()
    ensures NoLineTerminator(H2Open) && H2Open[0] == '<' && NoLineTerminator("</h2>")
  {
    var a, b, c := "<h2 class=\"", "text-2xl font-heading ", "font-normal mt-8 mb-4\">";
    assert NoLineTerminator(a) && NoLineTerminator(b) && NoLineTerminator(c);
    assert NoLineTerminator("</h2>");
    PlainConcat(a, b);
    PlainConcat(a + b, c);
  }

  lemma Markers()
    ensures NoLineTerminator("### ") && NoLineTerminator("## ") && NoLineTerminator("# ")
    ensures NoLineTerminator("#### ")
  {
  }

  /** A line that starts with `<` is left alone by every heading rewrite. */
  lemma TagLineUnchanged(s: string, marker: string, open: string, close: string)
    requires NoLineTerminator(s) && s != [] && s[0] == '<' && marker != [] && marker[0] == '#'
    ensures RewriteHeadingLines(s, marker, open, close) == s
  {
    RewriteOneLine(s, marker, open, close);
  }

  /** The three rewrites in sequence. */
  lemma HeadingsSteps(s: string, h3: string, h2: string, h1: string)
    requires RewriteHeadingLines(s, "### ", H3Open, "</h3>") == h3
    requires RewriteHeadingLines(h3, "## ", H2Open, "</h2>") == h2
    requires RewriteHeadingLines(h2, "# ", H1Open, "</h1>") == h1
    ensures Headings(s) == h1
  {
  }

  /** `### x` becomes an h3 and is not rewritten again by the `##` and `#` rules; `## x`
      and `# x` become h2 and h1; `#### x` matches no rule. */
  lemma HeadingOrder(x: string)
    requires NoLineTerminator(x)
    ensures Headings("### " + x) == H3Open + x + "</h3>"
    ensures Headings("## " + x) == H2Open + x + "</h2>"
    ensures Headings("# " + x) == H1Open + x + "</h1>"
    ensures Headings("#### " + x) == "#### " + x
  {
    HeadingH3(x);
    HeadingH2(x);
    HeadingH1(x);
    HeadingDeep(x);
  }

  lemma HeadingH3(x: string)
    requires NoLineTerminator(x)
    ensures Headings("### " + x) == H3Open + x + "</h3>"
  {
    H3Tags();
    Markers();
    var out := H3Open + x + "</h3>";
    MarkedLine("### ", H3Open, "</h3>", x);
    TagLine(H3Open, x, "</h3>");
    TagLineUnchanged(out, "## ", H2Open, "</h2>");
    TagLineUnchanged(out, "# ", H1Open, "</h1>");
    HeadingsSteps("### " + x, out, out, out);
  }

  lemma HeadingH2(x: string)
    requires NoLineTerminator(x)
    ensures Headings("## " + x) == H2Open + x + "</h2>"
  {
    H2Tags();
    Markers();
    var s := "## " + x;
    var out := H2Open + x + "</h2>";
    PlainConcat("## ", x);
    UnmarkedLine(s, "### ", H3Open, "</h3>", 2);
    MarkedLine("## ", H2Open, "</h2>", x);
    TagLine(H2Open, x, "</h2>");
    TagLineUnchanged(out, "# ", H1Open, "</h1>");
    HeadingsSteps(s, s, out, out);
  }

  lemma HeadingH1(x: string)
    requires NoLineTerminator(x)
    ensures Headings("# " + x) == H1Open + x + "</h1>"
  {
    Markers();
    var s := "# " + x;
    PlainConcat("# ", x);
    UnmarkedLine(s, "### ", H3Open, "</h3>", 1);
    UnmarkedLine(s, "## ", H2Open, "</h2>", 1);
    MarkedLine("# ", H1Open, "</h1>", x);
    HeadingsSteps(s, s, s, H1Open + x + "</h1>");
  }

  lemma HeadingDeep(x: string)
    requires NoLineTerminator(x)
    ensures Headings("#### " + x) == "#### " + x
  {
    Markers();
    var s := "#### " + x;
    PlainConcat("#### ", x);
    UnmarkedLine(s, "### ", H3Open, "</h3>", 3);
    UnmarkedLine(s, "## ", H2Open, "</h2>", 2);
    UnmarkedLine(s, "# ", H1Open, "</h1>", 1);
    HeadingsSteps(s, s, s, s);
  }

  /** A line whose character at `k` differs from the marker's is not rewritten. */
  lemma UnmarkedLine(s: string, marker: string, open: string, close: string, k: nat)
    requires NoLineTerminator(s) && k < |marker| && k < |s| && s[k] != marker[k]
    ensures RewriteHeadingLines(s, marker, open, close) == s
  {
    RewriteOneLine(s, marker, open, close);
    if |marker| <= |s| {
      assert s[..|marker|][k] == s[k];
    }
  }

  // ---------------------------------------------------------------- global rewrites

  /** The global rewrites after the headings, in the order they run. */
  datatype Rule = Bold | Italic | Link | Img | ParagraphBreak | LineBreak

  /** A match at the start of the string: how many characters it spans and what replaces
      them. */
  datatype Replacement = Replacement(len: nat, text: string)

  const ParagraphOpen := "</p><p class=\"" + "text-base font-base " + "mb-4 leading-relaxed\">"

  /** The lazy `(.*?)delim`: the first position in `t` where `delim` starts, provided no
      line terminator comes before it. It finds nothing exactly when every occurrence of
      `delim` comes after a line terminator. */
  function FindClose(t: string, delim: string): (r: Option<nat>)
    requires delim != []
    ensures r.Some? ==> r.value + |delim| <= |t| && t[r.value..r.value + |delim|] == delim
                        && NoLineTerminator(t[..r.value])
                        && forall j :: 0 <= j < r.value ==> !StartsWith(t[j..], delim)
    ensures r.None? ==> forall j :: 0 <= j <= |t| && NoLineTerminator(t[..j]) ==> !StartsWith(t[j..], delim)
  {
    if StartsWith(t, delim) then
      assert t[0..|delim|] == delim;
      Some(0)
    else if t == [] then None
    else if IsLineTerminator(t[0]) then
      NoCloseAfterTerminator(t, delim);
      None
    else match FindClose(t[1..], delim)
      case None =>
        NoCloseShift(t, delim);
        None
      case Some(k) =>
        FindCloseShift(t, delim, k);
        Some(k + 1)
  }

  /** Past a leading line terminator no position qualifies, so only the start is left. */
  lemma NoCloseAfterTerminator(t: string, delim: string)
    requires t != [] && IsLineTerminator(t[0]) && !StartsWith(t, delim)
    ensures forall j :: 0 <= j <= |t| && NoLineTerminator(t[..j]) ==> !StartsWith(t[j..], delim)
  {
    forall j | 0 <= j <= |t| && NoLineTerminator(t[..j]) ensures !StartsWith(t[j..], delim) {
      if j == 0 {
        assert t[0..] == t;
      }
    }
  }

  /** No close in the tail before a line terminator, and none at the start, is no close in
      `t` before a line terminator. */
  lemma NoCloseShift(t: string, delim: string)
    requires t != [] && !IsLineTerminator(t[0]) && !StartsWith(t, delim)
    requires forall j :: 0 <= j <= |t[1..]| && NoLineTerminator(t[1..][..j]) ==> !StartsWith(t[1..][j..], delim)
    ensures forall j :: 0 <= j <= |t| && NoLineTerminator(t[..j]) ==> !StartsWith(t[j..], delim)
  {
    forall j | 0 <= j <= |t| && NoLineTerminator(t[..j]) ensures !StartsWith(t[j..], delim) {
      if j == 0 {
        assert t[0..] == t;
      } else {
        assert t[1..][..j - 1] == t[..j][1..];
        assert t[j..] == t[1..][j - 1..];
      }
    }
  }

  /** A close found at `k` in the tail of `t` is at `k + 1` in `t`, when `t` neither
      starts with the delimiter nor with a line terminator. */
  lemma FindCloseShift(t: string, delim: string, k: nat)
    requires t != [] && !IsLineTerminator(t[0]) && !StartsWith(t, delim)
    requires k + |delim| <= |t| - 1 && t[1..][k..k + |delim|] == delim
    requires NoLineTerminator(t[1..][..k])
    requires forall j :: 0 <= j < k ==> !StartsWith(t[1..][j..], delim)
    ensures t[k + 1..k + 1 + |delim|] == delim && NoLineTerminator(t[..k + 1])
    ensures forall j :: 0 <= j < k + 1 ==> !StartsWith(t[j..], delim)
  {
    assert t[..k + 1] == [t[0]] + t[1..][..k];
    assert t[k + 1..k + 1 + |delim|] == t[1..][k..k + |delim|];
    forall j | 0 <= j < k + 1 ensures !StartsWith(t[j..], delim) {
      if j == 0 {
        assert t[0..] == t;
      } else {
        assert t[j..] == t[1..][j - 1..];
      }
    }
  }

  /** Wrapping in the style of the pattern `\*\*(.*?)\*\*`: `delim`, the shortest run
      without line terminators up to the next `delim`, and `delim` again, replaced by
      `open` + run + `close`. */
  function WrapAt(s: string, delim: string, open: string, close: string): (m: Option<Replacement>)
    requires delim != []
    ensures m.Some? ==> 2 * |delim| <= m.value.len <= |s|
    ensures m.Some? ==> StartsWith(s, delim)
                        && s[m.value.len - |delim|..m.value.len] == delim
                        && NoLineTerminator(s[|delim|..m.value.len - |delim|])
                        && m.value.text == open + s[|delim|..m.value.len - |delim|] + close
    ensures !StartsWith(s, delim) ==> m.None?
  {
    if !StartsWith(s, delim) then None
    else match FindClose(s[|delim|..], delim)
      case None => None
      case Some(k) =>
        assert s[|delim|..|delim| + k] == s[|delim|..][..k];
        assert s[|delim| + k..2 * |delim| + k] == s[|delim|..][k..k + |delim|];
        Some(Replacement(2 * |delim| + k, open + s[|delim|..|delim| + k] + close))
  }

  function Anchor(caption: string, target: string): string {
    "<a href=\"" + target + "\" class=\"" + "text-primary underline\" " + "target=\"_blank\">" + caption + "</a>"
  }

  function ImgTag(caption: string, target: string): string {
    "<img src=\"" + target + "\" alt=\"" + caption + "\" class=\"" + "rounded-xl my-4 " + "max-w-full\" />"
  }

  /** Whether `rule` matches at the start of `s`, and with what. */
  function MatchAt(rule: Rule, s: string): (m: Option<Replacement>)
    ensures m.Some? ==> 1 <= m.value.len <= |s|
  {
    match rule
    case Bold => WrapAt(s, "**", "<strong>", "</strong>")
    case Italic => WrapAt(s, "*", "<em>", "</em>")
    case Link =>
      (match LinkAt(s)
       case Some(b) => Some(Replacement(b.len, Anchor(b.caption, b.target)))
       case None => None)
    case Img =>
      (match ImageAt(s)
       case Some(b) => Some(Replacement(b.len, ImgTag(b.caption, b.target)))
       case None => None)
    case ParagraphBreak => if StartsWith(s, "\n\n") then Some(Replacement(2, ParagraphOpen)) else None
    case LineBreak => if StartsWith(s, "\n") then Some(Replacement(1, "<br />")) else None
  }

  /** `s.replace(pattern, replacement)` with the `g` flag: scanning left to right, each
      match is replaced and scanning resumes after it; elsewhere characters are kept. */
  function ReplaceAll(rule: Rule, s: string): string
    decreases |s|
  {
    if s == [] then []
    else match MatchAt(rule, s)
      case Some(m) => m.text + ReplaceAll(rule, s[m.len..])
      case None => [s[0]] + ReplaceAll(rule, s[1..])
  }

  /** Where a rule matches nowhere, it changes nothing. */
  lemma ReplaceAllNoMatch(rule: Rule, s: string)
    requires forall i :: 0 <= i < |s| ==> MatchAt(rule, s[i..]).None?
    ensures ReplaceAll(rule, s) == s
  {
    ReplaceAllFrom(rule, s, 0, |s|);
    assert s[0..] == s && s[0..|s|] == s && s[|s|..] == [];
  }

  /** A prefix where the rule does not match is copied, and the rest is rewritten. */
  lemma ReplaceAllPrefix(rule: Rule, a: string, rest: string)
    requires forall i :: 0 <= i < |a| ==> MatchAt(rule, (a + rest)[i..]).None?
    ensures ReplaceAll(rule, a + rest) == a + ReplaceAll(rule, rest)
  {
    var s := a + rest;
    ReplaceAllFrom(rule, s, 0, |a|);
    assert s[0..] == s && s[0..|a|] == a && s[|a|..] == rest;
  }

  /** From position `i` of `s`, the characters up to `n` at which the rule does not match
      are copied, and the rewriting goes on from `n`. */
  lemma {:induction false} ReplaceAllFrom(rule: Rule, s: string, i: nat, n: nat)
    requires i <= n <= |s|
    requires forall j :: i <= j < n ==> MatchAt(rule, s[j..]).None?
    ensures ReplaceAll(rule, s[i..]) == s[i..n] + ReplaceAll(rule, s[n..])
    decreases n - i
  {
    if i < n {
      ReplaceAllSkipAt(rule, s, i);
      ReplaceAllFrom(rule, s, i + 1, n);
      ConsAppend(s[i], s[i + 1..n], ReplaceAll(rule, s[n..]));
      assert s[i..n] == [s[i]] + s[i + 1..n];
    } else {
      assert s[i..n] == [];
    }
  }

  /** After the line-break rule no newline is left. */
  lemma {:induction false} NoNewlineLeft(s: string)
    ensures '\n' !in ReplaceAll(LineBreak, s)
  {
    if s != [] {
      if MatchAt(LineBreak, s).Some? {
        NoNewlineLeft(s[1..]);
      } else {
        NoNewlineLeft(s[1..]);
        assert s[0] != '\n';
      }
    }
  }

  /** The paragraph rule does not bring a newline in. */
  lemma {:induction false} ParagraphBreakKeepsNewlineFree(s: string)
    requires '\n' !in s
    ensures ReplaceAll(ParagraphBreak, s) == s
  {
    forall i | 0 <= i < |s| ensures MatchAt(ParagraphBreak, s[i..]).None? {
      assert s[i..][0] == s[i];
    }
    ReplaceAllNoMatch(ParagraphBreak, s);
  }

  /** A rule whose match must start with `c` does nothing on text without `c`. */
  lemma RuleNeedsChar(rule: Rule, s: string, c: char)
    requires c !in s
    requires rule == Bold || rule == Italic ==> c == '*'
    requires rule == Link || rule == Img ==> c == '[' || c == '!'
    requires rule == ParagraphBreak || rule == LineBreak ==> c == '\n'
    requires rule == Img ==> c == '!'
    requires rule == Link ==> c == '['
    ensures ReplaceAll(rule, s) == s
  {
    forall i | 0 <= i < |s| ensures MatchAt(rule, s[i..]).None? {
      assert s[i..][0] == s[i];
    }
    ReplaceAllNoMatch(rule, s);
  }

  /** Where a rule matches at the start, its replacement comes first. */
  lemma ReplaceAllStep(rule: Rule, s: string, m: Replacement)
    requires MatchAt(rule, s) == Some(m)
    ensures ReplaceAll(rule, s) == m.text + ReplaceAll(rule, s[m.len..])
  {
  }

  /** Where a rule does not match at the start, the first character is kept. */
  lemma ReplaceAllSkip(rule: Rule, s: string)
    requires s != [] && MatchAt(rule, s).None?
    ensures ReplaceAll(rule, s) == [s[0]] + ReplaceAll(rule, s[1..])
  {
  }

  /** Where a rule does not match at position `i`, the character there is kept. */
  lemma ReplaceAllSkipAt(rule: Rule, s: string, i: nat)
    requires i < |s| && MatchAt(rule, s[i..]).None?
    ensures ReplaceAll(rule, s[i..]) == [s[i]] + ReplaceAll(rule, s[i + 1..])
  {
    ReplaceAllSkip(rule, s[i..]);
    assert s[i..][1..] == s[i + 1..];
  }

  /** A run without line terminators and without the delimiter's first character is
      closed by the delimiter after it. */
  lemma {:induction false} FindCloseAfter(x: string, delim: string)
    requires delim != [] && delim[0] !in x && NoLineTerminator(x)
    ensures FindClose(x + delim, delim) == Some(|x|)
  {
    if x != [] {
      assert (x + delim)[1..] == x[1..] + delim;
      assert !StartsWith(x + delim, delim) by {
        assert (x + delim)[..|delim|][0] == x[0];
      }
      assert x[0] in x;
      FindCloseAfter(x[1..], delim);
    } else {
      assert x + delim == delim;
      assert delim[..|delim|] == delim;
    }
  }

  /** `**x**` is one bold match. */
  lemma BoldMatch(x: string)
    requires '*' !in x && NoLineTerminator(x)
    ensures MatchAt(Bold, "**" + x + "**") == Some(Replacement(|x| + 4, "<strong>" + x + "</strong>"))
  {
    var s := "**" + x + "**";
    assert s[..2] == "**";
    assert s[2..] == x + "**";
    FindCloseAfter(x, "**");
    assert s[2..2 + |x|] == x;
  }

  /** A rule that rewrites all of `s` at once, followed by a rule that leaves the
      replacement alone. */
  lemma WholeThenUnchanged(first: Rule, second: Rule, s: string, out: string)
    requires MatchAt(first, s) == Some(Replacement(|s|, out))
    requires ReplaceAll(second, out) == out
    ensures ReplaceAll(second, ReplaceAll(first, s)) == out
  {
    ReplaceAllWhole(first, s, out);
  }

  /** A match that spans all of `s` leaves just its replacement. */
  lemma ReplaceAllWhole(rule: Rule, s: string, out: string)
    requires MatchAt(rule, s) == Some(Replacement(|s|, out))
    ensures ReplaceAll(rule, s) == out
  {
    ReplaceAllStep(rule, s, Replacement(|s|, out));
    assert s[|s|..] == [];
  }

  /** `**x**` becomes strong text, and the italic rule that runs next leaves it alone. */
  lemma BoldBeforeItalic(x: string)
    requires '*' !in x && NoLineTerminator(x)
    ensures ReplaceAll(Italic, ReplaceAll(Bold, "**" + x + "**")) == "<strong>" + x + "</strong>"
  {
    BoldMatch(x);
    StrongHasNoStar(x);
    RuleNeedsChar(Italic, "<strong>" + x + "</strong>", '*');
    WholeThenUnchanged(Bold, Italic, "**" + x + "**", "<strong>" + x + "</strong>");
  }

  lemma StrongHasNoStar(x: string)
    requires '*' !in x
    ensures '*' !in "<strong>" + x + "</strong>"
  {
  }

  /** `[caption](target)` is one link match. */
  lemma LinkMatch(caption: string, target: string, s: string)
    requires caption != [] && target != [] && ']' !in caption && ')' !in target
    requires s == "[" + caption + "](" + target + ")"
    ensures MatchAt(Link, s) == Some(Replacement(|s|, Anchor(caption, target)))
  {
    BracketAtComplete(caption, target, "");
    assert s + "" == s;
  }

  /** `![caption](target)` is one image match. */
  lemma ImgMatch(caption: string, target: string, s: string)
    requires target != [] && ']' !in caption && ')' !in target
    requires s == "![" + caption + "](" + target + ")"
    ensures MatchAt(Img, s) == Some(Replacement(|s|, ImgTag(caption, target)))
  {
    ImageAtComplete(caption, target, "");
    assert s + "" == s;
  }

  /** The link rule runs before the image rule: an image with a non-empty alt text is
      left as `!` followed by a link, and only an image with an empty alt text becomes an
      `<img>`. */
  lemma LinkBeforeImage(alt: string, url: string)
    requires alt != [] && url != []
    requires ']' !in alt && ')' !in url && '[' !in alt && '[' !in url
    ensures ReplaceAll(Img, ReplaceAll(Link, "![" + alt + "](" + url + ")")) == "!" + Anchor(alt, url)
    ensures ReplaceAll(Img, ReplaceAll(Link, "![](" + url + ")")) == ImgTag("", url)
  {
    LinkedImage(alt, url);
    BareImage(url);
  }

  lemma LinkedImage(alt: string, url: string)
    requires alt != [] && url != []
    requires ']' !in alt && ')' !in url && '[' !in alt && '[' !in url
    ensures ReplaceAll(Img, ReplaceAll(Link, "![" + alt + "](" + url + ")")) == "!" + Anchor(alt, url)
  {
    var link := "[" + alt + "](" + url + ")";
    LinkMatch(alt, url, link);
    BangIsNoLink(link);
    SkipThenWhole(Link, '!', link, Anchor(alt, url));
    AnchorHasNoBracket(alt, url);
    ImgNeedsBracket("!" + Anchor(alt, url));
    BangThenBracket(alt, url);
  }

  /** One character the rule does not match at, then a whole match. */
  lemma SkipThenWhole(rule: Rule, c: char, t: string, out: string)
    requires MatchAt(rule, [c] + t).None?
    requires MatchAt(rule, t) == Some(Replacement(|t|, out))
    ensures ReplaceAll(rule, [c] + t) == [c] + out
  {
    ReplaceAllSkip(rule, [c] + t);
    assert ([c] + t)[1..] == t;
    ReplaceAllWhole(rule, t, out);
  }

  lemma BangIsNoLink(t: string)
    ensures MatchAt(Link, ['!'] + t).None?
  {
  }

  lemma AnchorHasNoBracket(caption: string, target: string)
    requires '[' !in caption && '[' !in target
    ensures '[' !in "!" + Anchor(caption, target)
  {
  }

  lemma BareImage(url: string)
    requires url != [] && ')' !in url && '[' !in url
    ensures ReplaceAll(Img, ReplaceAll(Link, "![](" + url + ")")) == ImgTag("", url)
  {
    var s := "![](" + url + ")";
    assert ReplaceAll(Link, s) == s by {
      NoLinkInBareImage(url);
    }
    assert ReplaceAll(Img, s) == ImgTag("", url) by {
      ImgMatch("", url, s);
      ReplaceAllWhole(Img, s, ImgTag("", url));
    }
  }

  /** `![](url)` holds no link: the bracket pair is empty. */
  lemma NoLinkInBareImage(url: string)
    requires url != [] && ')' !in url && '[' !in url
    ensures ReplaceAll(Link, "![](" + url + ")") == "![](" + url + ")"
  {
    var tail := url + ")";
    var s := "![](" + tail;
    assert "![](" + url + ")" == s;
    forall i | 0 <= i < 4 ensures MatchAt(Link, s[i..]).None? {
      if i == 1 {
        assert s[1..] == "[" + "" + "](" + url + ")" + "";
        BracketAtComplete("", url, "");
      } else {
        assert s[i..][0] == s[i];
      }
    }
    ReplaceAllPrefix(Link, "![](", tail);
    RuleNeedsChar(Link, tail, '[');
  }

  /** An image match needs `![`, so text without `[` has none. */
  lemma ImgNeedsBracket(s: string)
    requires '[' !in s
    ensures ReplaceAll(Img, s) == s
  {
    forall i | 0 <= i < |s| ensures MatchAt(Img, s[i..]).None? {
      if |s[i..]| >= 2 {
        assert s[i..][1..][0] == s[i + 1];
      }
    }
    ReplaceAllNoMatch(Img, s);
  }

  /** The newline rules copy a prefix without newlines. */
  lemma NewlineFreePrefix(rule: Rule, a: string, rest: string)
    requires rule == ParagraphBreak || rule == LineBreak
    requires '\n' !in a
    ensures ReplaceAll(rule, a + rest) == a + ReplaceAll(rule, rest)
  {
    forall i | 0 <= i < |a| ensures MatchAt(rule, (a + rest)[i..]).None? {
      assert (a + rest)[i..][0] == a[i];
    }
    ReplaceAllPrefix(rule, a, rest);
  }

  /** A blank line starts a new paragraph. */
  lemma ParagraphBreaks(a: string, b: string)
    requires '\n' !in a && '\n' !in b
    ensures ReplaceAll(LineBreak, ReplaceAll(ParagraphBreak, a + "\n\n" + b)) == a + ParagraphOpen + b
  {
    ParagraphStep(a, b);
    MarkupHasNoNewline();
    NewlineFreeUnchanged(a + ParagraphOpen + b);
  }

  lemma ParagraphStep(a: string, b: string)
    requires '\n' !in a && '\n' !in b
    ensures ReplaceAll(ParagraphBreak, a + "\n\n" + b) == a + ParagraphOpen + b
  {
    var rest := "\n\n" + b;
    assert a + "\n\n" + b == a + rest;
    NewlineFreePrefix(ParagraphBreak, a, rest);
    assert rest[..2] == "\n\n";
    ReplaceAllStep(ParagraphBreak, rest, Replacement(2, ParagraphOpen));
    assert rest[2..] == b;
    ParagraphBreakKeepsNewlineFree(b);
  }

  lemma NewlineFreeUnchanged(s: string)
    requires '\n' !in s
    ensures ReplaceAll(LineBreak, s) == s
  {
    RuleNeedsChar(LineBreak, s, '\n');
  }

  /** The paragraph and shell markup hold no newline. */
  lemma MarkupHasNoNewline()
    ensures '\n' !in ParagraphOpen && '\n' !in ShellOpen && '\n' !in ShellClose
  {
    ParagraphOpenPlain();
    ShellOpenPlain();
    assert NoLineTerminator(ShellClose);
    PlainHasNoNewline(ParagraphOpen);
    PlainHasNoNewline(ShellOpen);
    PlainHasNoNewline(ShellClose);
  }

  lemma ParagraphOpenPlain()
    ensures NoLineTerminator(ParagraphOpen)
  {
    var p, q, r := "</p><p class=\"", "text-base font-base ", "mb-4 leading-relaxed\">";
    assert NoLineTerminator(p) && NoLineTerminator(q) && NoLineTerminator(r);
    PlainConcat(p, q);
    PlainConcat(p + q, r);
  }

  lemma ShellOpenPlain()
    ensures NoLineTerminator(ShellOpen)
  {
    var u, v, w := "<div class=\"prose ", "prose-lg max-w-none\">", "<p class=\"";
    var q, r := "text-base font-base ", "mb-4 leading-relaxed\">";
    assert NoLineTerminator(u) && NoLineTerminator(v) && NoLineTerminator(w);
    assert NoLineTerminator(q) && NoLineTerminator(r);
    PlainConcat(u, v);
    PlainConcat(u + v, w);
    PlainConcat(u + v + w, q);
    PlainConcat(u + v + w + q, r);
  }

  lemma PlainHasNoNewline(s: string)
    requires NoLineTerminator(s)
    ensures '\n' !in s
  {
  }

  /** A single newline becomes `<br />`. */
  lemma SingleBreak(a: string, b: string)
    requires '\n' !in a && '\n' !in b
    ensures ReplaceAll(LineBreak, ReplaceAll(ParagraphBreak, a + "\n" + b)) == a + "<br />" + b
  {
    SingleNewlineStays(a, b);
    SingleNewlineBreaks(a, b);
  }

  /** The paragraph rule leaves a single newline alone. */
  lemma SingleNewlineStays(a: string, b: string)
    requires '\n' !in a && '\n' !in b
    ensures ReplaceAll(ParagraphBreak, a + "\n" + b) == a + "\n" + b
  {
    var rest := "\n" + b;
    assert a + "\n" + b == a + rest;
    NewlineFreePrefix(ParagraphBreak, a, rest);
    assert !StartsWith(rest, "\n\n") by {
      if |rest| >= 2 {
        assert rest[..2][1] == b[0];
      }
    }
    ReplaceAllSkip(ParagraphBreak, rest);
    assert rest[1..] == b;
    ParagraphBreakKeepsNewlineFree(b);
    assert [rest[0]] + b == rest;
  }

  /** The line-break rule turns a single newline into `<br />`. */
  lemma SingleNewlineBreaks(a: string, b: string)
    requires '\n' !in a && '\n' !in b
    ensures ReplaceAll(LineBreak, a + "\n" + b) == a + "<br />" + b
  {
    var rest := "\n" + b;
    assert a + "\n" + b == a + rest;
    NewlineFreePrefix(LineBreak, a, rest);
    assert rest[..1] == "\n";
    ReplaceAllStep(LineBreak, rest, Replacement(1, "<br />"));
    assert rest[1..] == b;
    RuleNeedsChar(LineBreak, b, '\n');
  }

  lemma LineBreaks(a: string, b: string)
    requires '\n' !in a && '\n' !in b
    ensures ReplaceAll(LineBreak, ReplaceAll(ParagraphBreak, a + "\n\n" + b)) == a + ParagraphOpen + b
    ensures ReplaceAll(LineBreak, ReplaceAll(ParagraphBreak, a + "\n" + b)) == a + "<br />" + b
  {
    ParagraphBreaks(a, b);
    SingleBreak(a, b);
  }

  // ---------------------------------------------------------------- the renderer

  const ShellOpen := "<div class=\"prose " + "prose-lg max-w-none\">" + "<p class=\"" + "text-base font-base " + "mb-4 leading-relaxed\">"
  const ShellClose := "</p></div>"

  /** Everything between the headings and the wrapping, in order. */
  function Inline(s: string): (r: string)
    ensures '\n' !in r
  {
    var bold := ReplaceAll(Bold, s);
    var italic := ReplaceAll(Italic, bold);
    var links := ReplaceAll(Link, italic);
    var images := ReplaceAll(Img, links);
    var paragraphs := ReplaceAll(ParagraphBreak, images);
    NoNewlineLeft(paragraphs);
    ReplaceAll(LineBreak, paragraphs)
  }

  /** `renderMarkdown(content)`: nothing for empty content; otherwise the rewritten text
      inside the fixed `div`/`p` shell, with no newline left. */
  function RenderMarkdown(content: string): (r: Option<string>)
    ensures r.None? <==> content == []
    ensures r.Some? ==> '\n' !in r.value
    ensures r.Some? ==> StartsWith(r.value, ShellOpen) && |r.value| >= |ShellOpen| + |ShellClose|
                        && r.value[|r.value| - |ShellClose|..] == ShellClose
  {
    if content == [] then None
    else
      var body := Inline(Headings(content));
      var html := ShellOpen + body + ShellClose;
      MarkupHasNoNewline();
      assert html[..|ShellOpen|] == ShellOpen;
      assert html[|html| - |ShellClose|..] == ShellClose;
      Some(html)
  }

  /** Text without markup characters comes out unchanged inside the shell. */
  lemma PlainText(s: string)
    requires s != [] && '#' !in s && '*' !in s && '[' !in s && '\n' !in s
    ensures RenderMarkdown(s) == Some(ShellOpen + s + ShellClose)
  {
    HeadingsNeedHash(s);
    RuleNeedsChar(Bold, s, '*');
    RuleNeedsChar(Italic, s, '*');
    RuleNeedsChar(Link, s, '[');
    ImgNeedsBracket(s);
    RuleNeedsChar(ParagraphBreak, s, '\n');
    RuleNeedsChar(LineBreak, s, '\n');
  }

  /** Without `#` no heading rule applies. */
  lemma {:induction false} HeadingLinesNeedHash(s: string, marker: string, open: string, close: string)
    requires '#' !in s && marker != [] && marker[0] == '#'
    ensures RewriteHeadingLines(s, marker, open, close) == s
    decreases |s|
  {
    var n := LineEnd(s);
    if n < |s| {
      HeadingLinesNeedHash(s[n + 1..], marker, open, close);
      assert s == s[..n] + [s[n]] + s[n + 1..];
    } else {
      assert s[..n] == s;
    }
  }

  lemma HeadingsNeedHash(s: string)
    requires '#' !in s
    ensures Headings(s) == s
  {
    HeadingLinesNeedHash(s, "### ", H3Open, "</h3>");
    HeadingLinesNeedHash(s, "## ", H2Open, "</h2>");
    HeadingLinesNeedHash(s, "# ", H1Open, "</h1>");
  }

  // ---------------------------------------------------------------- greeting and routing

  /** `full_name?.split(' ')[0] || 'User'`. */
  function FirstName(fullName: Option<string>): (r: string)
    ensures r != []
    ensures ' ' !in r
    ensures fullName.Some? && TakeUntil(fullName.value, ' ') != [] ==> r == TakeUntil(fullName.value, ' ')
    ensures fullName.None? || TakeUntil(fullName.value, ' ') == [] ==> r == "User"
  {
    if fullName.None? then "User"
    else
      var first := Split(fullName.value, ' ')[0];
      SplitFirst(fullName.value, ' ');
      if first != [] then first else "User"
  }

  /** A name with a leading space greets as `User`, since its first piece is empty. */
  lemma FirstNameExamples()
    ensures FirstName(Some("Ada Lee")) == "Ada"
    ensures FirstName(Some(" Ada")) == "User"
    ensures FirstName(Some("")) == "User"
  {
    assert TakeUntil("Ada Lee", ' ') == "Ada" by {
      TakeUntilStops("Ada", ' ', "Lee");
      assert "Ada" + [' '] + "Lee" == "Ada Lee";
    }
  }

  /** The profile columns the home page checks. `hasForm` is read for truthiness. */
  datatype HomeProfile = HomeProfile(fullName: Option<string>, dateMeDoc: Option<string>, hasForm: bool)

  predicate Filled(s: Option<string>) {
    s.Some? && s.value != []
  }

  /** Onboarding is complete when the name, the document and the form are all there. */
  predicate OnboardingComplete(p: HomeProfile) {
    Filled(p.fullName) && Filled(p.dateMeDoc) && p.hasForm
  }

  datatype Route = SignIn | Onboarding | Home

  /** Where the home page sends the visitor: to sign in without a session, to onboarding
      without a profile or with an unfinished one, and otherwise it stays. */
  function HomeRoute(hasSession: bool, profile: Option<HomeProfile>): (r: Route)
    ensures r == SignIn <==> !hasSession
    ensures r == Home <==> hasSession && profile.Some? && OnboardingComplete(profile.value)
  {
    if !hasSession then SignIn
    else if profile.None? then Onboarding
    else if !OnboardingComplete(profile.value) then Onboarding
    else Home
  }
}

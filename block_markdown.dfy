/** The document model of the block editor: typed blocks, the line-by-line markdown
    importer, the exporter, and the round trips between them. */
module BlockMarkdown {
  import opened Text
  import opened MarkdownPatterns

  /** The block variants. `List` is part of the type but the importer never yields it. */
  datatype BlockType = Paragraph | H1 | H2 | H3 | Image | List

  datatype Block = Block(id: string, kind: BlockType, content: string)

  /** What a block is once its id is set aside. */
  type Shape = (BlockType, string)

  /** The document used when there is nothing to import: one empty paragraph, id "1". */
  const DefaultDocument: seq<Block> := [Block("1", Paragraph, "")]

  predicate UniqueIds(bs: seq<Block>) {
    forall i, j :: 0 <= i < j < |bs| ==> bs[i].id != bs[j].id
  }

  predicate HasId(bs: seq<Block>, id: string) {
    exists i :: 0 <= i < |bs| && bs[i].id == id
  }

  // ---------------------------------------------------------------- import

  /** How the importer reads one line: the type and content of the block it yields, or
      `None` for a line that starts with `![` but holds no image match. The prefixes are
      tried in the order `# `, `## `, `### `, `![`. */
  function ClassifyLine(line: string): (r: Option<Shape>)
    ensures r.None? <==> StartsWith(line, "![") && FirstImage(line).None?
    ensures StartsWith(line, "![") && FirstImage(line).Some? ==> r == Some((Image, FirstImage(line).value.target))
    ensures r.Some? ==> r.value.0 != List
    ensures r.Some? && r.value.0 == Image ==> StartsWith(line, "![") && r.value.1 != [] && ')' !in r.value.1
    ensures r.Some? && r.value.0 == Paragraph ==> r.value.1 == line || (r.value.1 == [] && IsBlank(line))
  {
    if StartsWith(line, "# ") then Some((H1, line[2..]))
    else if StartsWith(line, "## ") then Some((H2, line[3..]))
    else if StartsWith(line, "### ") then Some((H3, line[4..]))
    else if StartsWith(line, "![") then
      match FirstImage(line)
      case Some(m) => Some((Image, m.target))
      case None => None
    else if Trim(line) != [] then Some((Paragraph, line))
    else Some((Paragraph, []))
  }

  /** The blocks the importer pushes for lines classified as `shapes` when its id counter
      stands at `next`: every yielded block takes the next decimal id, in order. */
  function Number(shapes: seq<Option<Shape>>, next: nat): (r: seq<Block>)
    ensures |r| <= |shapes|
  {
    if shapes == [] then []
    else if shapes[0].None? then Number(shapes[1..], next)
    else [Block(NatToString(next), shapes[0].value.0, shapes[0].value.1)] + Number(shapes[1..], next + 1)
  }

  /** The k-th numbered block has id `String(next + k)`. */
  lemma {:induction false} NumberIds(shapes: seq<Option<Shape>>, next: nat)
    ensures forall k :: 0 <= k < |Number(shapes, next)| ==> Number(shapes, next)[k].id == NatToString(next + k)
  {
    if shapes != [] {
      if shapes[0].None? {
        NumberIds(shapes[1..], next);
      } else {
        NumberIds(shapes[1..], next + 1);
      }
    }
  }

  function ClassifyLines(lines: seq<string>): seq<Option<Shape>> {
    seq(|lines|, i requires 0 <= i < |lines| => ClassifyLine(lines[i]))
  }

  function ParseLines(lines: seq<string>, next: nat): seq<Block> {
    Number(ClassifyLines(lines), next)
  }

  /** The document `parseMarkdownToBlocks` builds from `markdown`: never empty, at most one
      block per line, and the k-th block has id `String(k + 1)`. */
  function MarkdownToBlocks(markdown: string): (r: seq<Block>)
    ensures 1 <= |r| <= |Split(markdown, '\n')|
    ensures forall k :: 0 <= k < |r| ==> r[k].id == NatToString(k + 1)
  {
    var bs := ParseLines(Split(markdown, '\n'), 1);
    NumberIds(ClassifyLines(Split(markdown, '\n')), 1);
    if |bs| > 0 then bs else
      assert NatToString(1) == "1";
      DefaultDocument
  }

  /** `parseMarkdownToBlocks`: one pass over the lines, pushing a block and bumping the id
      counter for every line that yields one. */
  method ParseMarkdownToBlocks(markdown: string) returns (result: seq<Block>)
    ensures result == MarkdownToBlocks(markdown)
  {
    var lines := Split(markdown, '\n');
    result := [];
    var id := 1;
    var i := 0;
    while i < |lines|
      invariant 0 <= i <= |lines|
      invariant id == |result| + 1
      invariant result + Number(ClassifyLines(lines)[i..], id) == ParseLines(lines, 1)
    {
      var shape := ClassifyLine(lines[i]);
      NumberStep(ClassifyLines(lines), i, id, result, ParseLines(lines, 1));
      if shape.Some? {
        result := result + [Block(NatToString(id), shape.value.0, shape.value.1)];
        id := id + 1;
      }
      i := i + 1;
    }
    if |result| == 0 {
      result := DefaultDocument;
    }
  }

  /** One step of the importer's loop: the shape at `i` yields a block with the current
      id, or nothing. */
  lemma NumberStep(shapes: seq<Option<Shape>>, i: nat, id: nat, done: seq<Block>, all: seq<Block>)
    requires i < |shapes| && done + Number(shapes[i..], id) == all
    ensures shapes[i].None? ==> done + Number(shapes[i + 1..], id) == all
    ensures shapes[i].Some? ==>
      done + [Block(NatToString(id), shapes[i].value.0, shapes[i].value.1)] + Number(shapes[i + 1..], id + 1) == all
  {
    assert shapes[i..][1..] == shapes[i + 1..];
  }

  /** The ids the importer hands out are pairwise distinct. */
  lemma ImportedIdsUnique(markdown: string)
    ensures UniqueIds(MarkdownToBlocks(markdown))
  {
    var r := MarkdownToBlocks(markdown);
    forall i, j | 0 <= i < j < |r| ensures r[i].id != r[j].id {
      if r[i].id == r[j].id {
        NatToStringInjective(i + 1, j + 1);
      }
    }
  }

  // ---------------------------------------------------------------- export

  /** The alt text every exported image gets. */
  const ImageAlt := "Image"

  /** The line `blocksToMarkdown` writes for one block. */
  function BlockLine(b: Block): string {
    match b.kind
    case H1 => "# " + b.content
    case H2 => "## " + b.content
    case H3 => "### " + b.content
    case Image => "![" + ImageAlt + "](" + b.content + ")"
    case Paragraph => b.content
    case List => b.content
  }

  function Lines(bs: seq<Block>): seq<string> {
    seq(|bs|, i requires 0 <= i < |bs| => BlockLine(bs[i]))
  }

  /** `blocksToMarkdown`: the block lines joined by single newlines. */
  function BlocksToMarkdown(bs: seq<Block>): string {
    Join(Lines(bs), '\n')
  }

  /** The export has exactly one line per block when no content holds a newline. */
  lemma ExportLines(bs: seq<Block>)
    requires |bs| >= 1
    requires forall k :: 0 <= k < |bs| ==> '\n' !in bs[k].content
    ensures Split(BlocksToMarkdown(bs), '\n') == Lines(bs)
  {
    SplitJoin(Lines(bs), '\n');
  }

  /** The default document exports to the empty string; an image block exports with the
      fixed alt text `Image`. */
  lemma ExportExamples(id: string)
    ensures BlocksToMarkdown(DefaultDocument) == ""
    ensures BlocksToMarkdown([Block(id, Image, "http://x/y.png")]) == "![Image](http://x/y.png)"
  {
  }

  // ---------------------------------------------------------------- single lines

  /** A one-line string imports as the block its line yields, or as the default document. */
  lemma ImportOneLine(line: string)
    requires '\n' !in line
    ensures MarkdownToBlocks(line) == var shape := ClassifyLine(line);
                                      if shape.Some? then [Block("1", shape.value.0, shape.value.1)]
                                      else DefaultDocument
  {
    SplitNoSeparator(line, '\n');
    assert [line][1..] == [];
  }

  /** `# ` makes an h1 holding the rest of the line. */
  lemma ClassifyH1Line(text: string)
    ensures ClassifyLine("# " + text) == Some((H1, text))
  {
    assert ("# " + text)[2..] == text;
  }

  /** `## ` makes an h2; the line does not start with `# `. */
  lemma ClassifyH2Line(text: string)
    ensures ClassifyLine("## " + text) == Some((H2, text))
  {
    assert ("## " + text)[..2] == "##" && ("## " + text)[3..] == text;
  }

  /** `### ` makes an h3. */
  lemma ClassifyH3Line(text: string)
    ensures ClassifyLine("### " + text) == Some((H3, text))
  {
    var line := "### " + text;
    assert line[..2] == "##" && line[..3] == "###" && line[4..] == text;
  }

  /** `#### ` matches none of the heading prefixes: a paragraph holding the whole line. */
  lemma ClassifyDeepHeadingLine(text: string)
    ensures ClassifyLine("#### " + text) == Some((Paragraph, "#### " + text))
  {
    var line := "#### " + text;
    assert line[..2] == "##" && line[..3] == "###" && line[..4] == "####";
    assert !IsWhitespace(line[0]);
    ClassifyParagraphBlockLine(line);
  }

  /** A one-line heading imports as one heading block with id "1"; `#### ` imports as a
      paragraph. */
  lemma ImportHeadings(text: string)
    requires '\n' !in text
    ensures MarkdownToBlocks("# " + text) == [Block("1", H1, text)]
    ensures MarkdownToBlocks("## " + text) == [Block("1", H2, text)]
    ensures MarkdownToBlocks("### " + text) == [Block("1", H3, text)]
    ensures MarkdownToBlocks("#### " + text) == [Block("1", Paragraph, "#### " + text)]
  {
    ClassifyH1Line(text);
    ImportOneLine("# " + text);
    ClassifyH2Line(text);
    ImportOneLine("## " + text);
    ClassifyH3Line(text);
    ImportOneLine("### " + text);
    ClassifyDeepHeadingLine(text);
    ImportOneLine("#### " + text);
  }

  /** A line starting with `![alt](url)` classifies as an image holding the url. */
  lemma ClassifyImageLine(alt: string, url: string, rest: string)
    requires ']' !in alt && ')' !in url && url != []
    ensures ClassifyLine("![" + alt + "](" + url + ")" + rest) == Some((Image, url))
  {
    var line := "![" + alt + "](" + url + ")" + rest;
    ImageAtComplete(alt, url, rest);
    ClassifyBangLine(line, BracketMatch(alt, url, |alt| + |url| + 5));
  }

  /** A line starting with `![` at which the image pattern matches yields that match's url. */
  lemma ClassifyBangLine(line: string, m: BracketMatch)
    requires |line| >= 2 && line[0] == '!' && line[1] == '['
    requires ImageAt(line) == Some(m)
    ensures ClassifyLine(line) == Some((Image, m.target))
  {
    assert line[..2] == "![";
  }

  /** A line starting with `![alt](url)` imports as an image holding the url; the alt text
      is dropped. */
  lemma ImportImageLine(alt: string, url: string, rest: string)
    requires ']' !in alt && ')' !in url && url != []
    requires '\n' !in alt && '\n' !in url && '\n' !in rest
    ensures MarkdownToBlocks("![" + alt + "](" + url + ")" + rest) == [Block("1", Image, url)]
  {
    var line := "![" + alt + "](" + url + ")" + rest;
    ImageLineHasNoNewline(alt, url, rest);
    ClassifyImageLine(alt, url, rest);
    ImportOneLine(line);
  }

  lemma ImageLineHasNoNewline(alt: string, url: string, rest: string)
    requires '\n' !in alt && '\n' !in url && '\n' !in rest
    ensures '\n' !in "![" + alt + "](" + url + ")" + rest
  {
    assert '\n' !in "![" && '\n' !in "](" && '\n' !in ")";
  }

  /** `![alt]()`, an image with an empty url, yields no block. */
  lemma ClassifyEmptyImageLine(alt: string)
    requires ']' !in alt && '!' !in alt
    ensures ClassifyLine("![" + alt + "]()") == None
  {
    var line := "![" + alt + "]()";
    assert line[..2] == "![";
    assert line[1..] == "[" + alt + "]()" + "";
    BracketAtEmptyTarget(alt, "");
    assert '!' !in line[1..];
    FirstImageOnlyAtStart(line);
  }

  /** `![alt` with no closing bracket starts like an image but yields no block. */
  lemma ClassifyUnclosedImageLine(alt: string)
    requires ']' !in alt && '!' !in alt
    ensures ClassifyLine("![" + alt) == None
  {
    var line := "![" + alt;
    assert line[..2] == "![";
    assert line[1..] == "[" + alt;
    BracketAtUnclosed(alt);
    assert '!' !in line[1..];
    FirstImageOnlyAtStart(line);
  }

  /** A document made of one unmatched image line falls back to the default document. */
  lemma ImportUnmatchedImageLine(alt: string)
    requires ']' !in alt && '!' !in alt && '\n' !in alt
    ensures MarkdownToBlocks("![" + alt) == DefaultDocument
    ensures MarkdownToBlocks("![" + alt + "]()") == DefaultDocument
  {
    ClassifyUnclosedImageLine(alt);
    ImportOneLine("![" + alt);
    ClassifyEmptyImageLine(alt);
    ImportOneLine("![" + alt + "]()");
  }

  /** Empty and whitespace-only lines classify as empty paragraphs. */
  lemma ClassifyBlankLine(line: string)
    requires IsBlank(line)
    ensures ClassifyLine(line) == Some((Paragraph, ""))
  {
    if line != [] {
      assert IsWhitespace(line[0]);
      assert line[..1] != "#" && line[..1] != "!";
    }
  }

  /** A whitespace-only document imports as one empty paragraph. */
  lemma ImportBlankLine(line: string)
    requires IsBlank(line) && '\n' !in line
    ensures MarkdownToBlocks(line) == [Block("1", Paragraph, "")]
  {
    ClassifyBlankLine(line);
    ImportOneLine(line);
  }

  // ---------------------------------------------------------------- text round trip

  /** Parsing a non-empty list of lines: the first line's block, if any, with id
      `String(next)`, then the blocks of the remaining lines. */
  lemma ParseLinesCons(lines: seq<string>, next: nat)
    requires lines != []
    ensures ParseLines(lines, next)
         == var shape := ClassifyLine(lines[0]);
            if shape.Some? then [Block(NatToString(next), shape.value.0, shape.value.1)] + ParseLines(lines[1..], next + 1)
            else ParseLines(lines[1..], next)
  {
    assert ClassifyLines(lines)[1..] == ClassifyLines(lines[1..]);
  }

  /** A line the importer gives back verbatim on export: not an image line, and not a
      non-empty run of whitespace. */
  predicate VerbatimLine(line: string) {
    !StartsWith(line, "![") && (line == [] || !IsBlank(line))
  }

  lemma VerbatimLineRoundTrip(line: string, id: string)
    requires VerbatimLine(line)
    ensures ClassifyLine(line).Some?
    ensures BlockLine(Block(id, ClassifyLine(line).value.0, ClassifyLine(line).value.1)) == line
  {
    if StartsWith(line, "# ") {
      assert "# " + line[2..] == line;
    } else if StartsWith(line, "## ") {
      assert "## " + line[3..] == line;
    } else if StartsWith(line, "### ") {
      assert "### " + line[4..] == line;
    }
  }

  lemma LinesCons(b: Block, tail: seq<Block>)
    ensures Lines([b] + tail) == [BlockLine(b)] + Lines(tail)
  {
  }

  lemma {:induction false} ParseVerbatimLines(lines: seq<string>, next: nat)
    requires forall k :: 0 <= k < |lines| ==> VerbatimLine(lines[k])
    ensures Lines(ParseLines(lines, next)) == lines
  {
    if lines != [] {
      VerbatimLineRoundTrip(lines[0], NatToString(next));
      ParseLinesCons(lines, next);
      ParseVerbatimLines(lines[1..], next + 1);
      var shape := ClassifyLine(lines[0]).value;
      LinesCons(Block(NatToString(next), shape.0, shape.1), ParseLines(lines[1..], next + 1));
      assert [lines[0]] + lines[1..] == lines;
    }
  }

  /** Import then export gives the text back when no line starts with `![` and no line is
      non-empty whitespace. */
  lemma TextRoundTrip(markdown: string)
    requires forall k :: 0 <= k < |Split(markdown, '\n')| ==> VerbatimLine(Split(markdown, '\n')[k])
    ensures BlocksToMarkdown(MarkdownToBlocks(markdown)) == markdown
  {
    var lines := Split(markdown, '\n');
    ParseVerbatimLines(lines, 1);
    JoinSplit(markdown, '\n');
  }

  /** A text line that starts with none of `#`, `!` or whitespace is a paragraph. */
  lemma ClassifyTextLine(text: string)
    requires text != [] && text[0] != '#' && text[0] != '!' && !IsWhitespace(text[0])
    ensures ClassifyLine(text) == Some((Paragraph, text))
  {
    assert !StartsWith(text, "# ") && !StartsWith(text, "## ") && !StartsWith(text, "### ");
    assert !StartsWith(text, "![");
  }

  /** A heading, a blank line and a line of text import as an h1, an empty paragraph and a
      paragraph with ids "1", "2", "3"; they export as the heading, an empty line and the
      text. */
  lemma ImportTitleScenario(title: string, blank: string, text: string)
    requires '\n' !in title && '\n' !in blank && '\n' !in text && IsBlank(blank)
    requires text != [] && text[0] != '#' && text[0] != '!' && !IsWhitespace(text[0])
    ensures MarkdownToBlocks("# " + title + "\n" + blank + "\n" + text)
         == [Block("1", H1, title), Block("2", Paragraph, ""), Block("3", Paragraph, text)]
    ensures BlocksToMarkdown(MarkdownToBlocks("# " + title + "\n" + blank + "\n" + text))
         == "# " + title + "\n\n" + text
  {
    SplitScenario(title, blank, text);
    ParseScenario(title, blank, text);
    ExportScenario(title, text);
  }

  lemma ParseScenario(title: string, blank: string, text: string)
    requires IsBlank(blank)
    requires text != [] && text[0] != '#' && text[0] != '!' && !IsWhitespace(text[0])
    ensures ParseLines(["# " + title, blank, text], 1)
         == [Block("1", H1, title), Block("2", Paragraph, ""), Block("3", Paragraph, text)]
  {
    var lines := ["# " + title, blank, text];
    assert lines[1..] == [blank, text];
    ParseBlankThenText(blank, text);
    ClassifyH1Line(title);
    ParseLinesStep(lines, 1, (H1, title));
    assert NatToString(1) == "1";
  }

  /** One step of the parse: a line that yields a block. */
  lemma ParseLinesStep(lines: seq<string>, next: nat, shape: Shape)
    requires lines != [] && ClassifyLine(lines[0]) == Some(shape)
    ensures ParseLines(lines, next) == [Block(NatToString(next), shape.0, shape.1)] + ParseLines(lines[1..], next + 1)
  {
    ParseLinesCons(lines, next);
  }

  lemma ParseBlankThenText(blank: string, text: string)
    requires IsBlank(blank)
    requires text != [] && text[0] != '#' && text[0] != '!' && !IsWhitespace(text[0])
    ensures ParseLines([blank, text], 2) == [Block("2", Paragraph, ""), Block("3", Paragraph, text)]
  {
    var lines := [blank, text];
    ParseTextLine(text);
    ClassifyBlankLine(blank);
    assert lines[1..] == [text];
    ParseLinesStep(lines, 2, (Paragraph, ""));
    assert NatToString(2) == "2";
  }

  lemma ParseTextLine(text: string)
    requires text != [] && text[0] != '#' && text[0] != '!' && !IsWhitespace(text[0])
    ensures ParseLines([text], 3) == [Block("3", Paragraph, text)]
  {
    ClassifyTextLine(text);
    ParseLinesStep([text], 3, (Paragraph, text));
    assert [text][1..] == [];
    assert ParseLines([], 4) == [];
    assert NatToString(3) == "3";
  }

  lemma SplitScenario(title: string, blank: string, text: string)
    requires '\n' !in title && '\n' !in blank && '\n' !in text
    ensures Split("# " + title + "\n" + blank + "\n" + text, '\n') == ["# " + title, blank, text]
  {
    assert '\n' !in "# " + title;
    SplitThreeLines("# " + title, blank, text);
  }

  lemma SplitThreeLines(a: string, b: string, c: string)
    requires '\n' !in a && '\n' !in b && '\n' !in c
    ensures Split(a + "\n" + b + "\n" + c, '\n') == [a, b, c]
  {
    var tail := b + "\n" + c;
    assert a + "\n" + b + "\n" + c == a + ['\n'] + tail;
    SplitAfter(b, '\n', c);
    SplitNoSeparator(c, '\n');
    SplitAfter(a, '\n', tail);
  }

  lemma ExportScenario(title: string, text: string)
    ensures BlocksToMarkdown([Block("1", H1, title), Block("2", Paragraph, ""), Block("3", Paragraph, text)])
         == "# " + title + "\n\n" + text
  {
    var bs := [Block("1", H1, title), Block("2", Paragraph, ""), Block("3", Paragraph, text)];
    var lines := Lines(bs);
    assert lines == ["# " + title, "", text];
    assert lines[1..] == ["", text] && lines[1..][1..] == [text];
    assert Join(lines[1..], '\n') == "" + ['\n'] + text;
    assert Join(lines, '\n') == ("# " + title) + ['\n'] + ("" + ['\n'] + text);
  }

  // ---------------------------------------------------------------- document round trip

  /** A block whose exported line imports back as the same kind of block: its content has
      no newline; a paragraph or list line must not look like a heading or image line nor
      be non-empty whitespace; an image url must not hold `)`. */
  predicate Reimportable(b: Block) {
    && '\n' !in b.content
    && match b.kind
       case Paragraph | List =>
         && !StartsWith(b.content, "# ") && !StartsWith(b.content, "## ")
         && !StartsWith(b.content, "### ") && !StartsWith(b.content, "![")
         && (b.content == [] || !IsBlank(b.content))
       case Image => ')' !in b.content
       case _ => true
  }

  /** What a reimportable block comes back as: a list as a paragraph, an image with no url
      as nothing at all, every other block as itself. */
  function Reimported(b: Block): Option<Shape> {
    match b.kind
    case List => Some((Paragraph, b.content))
    case Image => if b.content == [] then None else Some((Image, b.content))
    case _ => Some((b.kind, b.content))
  }

  /** The shapes present in `shapes`, in order. */
  function Present(shapes: seq<Option<Shape>>): seq<Shape> {
    if shapes == [] then []
    else (if shapes[0].Some? then [shapes[0].value] else []) + Present(shapes[1..])
  }

  /** The shapes a document comes back with after export and import. */
  function ExpectedShapes(bs: seq<Block>): seq<Shape> {
    Present(seq(|bs|, i requires 0 <= i < |bs| => Reimported(bs[i])))
  }

  function Shapes(bs: seq<Block>): seq<Shape> {
    seq(|bs|, i requires 0 <= i < |bs| => (bs[i].kind, bs[i].content))
  }

  /** A paragraph or list line that is verbatim classifies as a paragraph. */
  lemma ClassifyParagraphBlockLine(content: string)
    requires !StartsWith(content, "# ") && !StartsWith(content, "## ")
    requires !StartsWith(content, "### ") && !StartsWith(content, "![")
    requires content == [] || !IsBlank(content)
    ensures ClassifyLine(content) == Some((Paragraph, content))
  {
  }

  /** Each reimportable block's line classifies as that block's reimported shape. */
  lemma ClassifyBlockLine(b: Block)
    requires Reimportable(b)
    ensures ClassifyLine(BlockLine(b)) == Reimported(b)
  {
    match b.kind {
      case H1 => ClassifyH1Line(b.content);
      case H2 => ClassifyH2Line(b.content);
      case H3 => ClassifyH3Line(b.content);
      case Image => ClassifyImageBlockLine(b.content);
      case Paragraph => ClassifyParagraphBlockLine(b.content);
      case List => ClassifyParagraphBlockLine(b.content);
    }
  }

  /** An image block's line gives back its url, or nothing when the url is empty. */
  lemma ClassifyImageBlockLine(url: string)
    requires ')' !in url
    ensures ClassifyLine(BlockLine(Block("", Image, url))) == Reimported(Block("", Image, url))
  {
    if url == [] {
      ClassifyNoUrlLine();
      assert "![" + ImageAlt + "](" + url + ")" == "![" + ImageAlt + "]()";
    } else {
      ClassifyUrlLine(url);
    }
  }

  lemma ClassifyUrlLine(url: string)
    requires ')' !in url && url != []
    ensures ClassifyLine("![" + ImageAlt + "](" + url + ")") == Some((Image, url))
  {
    ClassifyImageLine(ImageAlt, url, "");
    assert "![" + ImageAlt + "](" + url + ")" + "" == "![" + ImageAlt + "](" + url + ")";
  }

  lemma ClassifyNoUrlLine()
    ensures ClassifyLine("![" + ImageAlt + "]()") == None
  {
    ClassifyEmptyImageLine(ImageAlt);
  }

  lemma {:induction false} ShapesOfNumber(shapes: seq<Option<Shape>>, next: nat)
    ensures Shapes(Number(shapes, next)) == Present(shapes)
  {
    if shapes != [] {
      if shapes[0].None? {
        ShapesOfNumber(shapes[1..], next);
      } else {
        var sh := shapes[0].value;
        ShapesOfNumber(shapes[1..], next + 1);
        var tail := Number(shapes[1..], next + 1);
        assert Shapes([Block(NatToString(next), sh.0, sh.1)] + tail) == [sh] + Shapes(tail);
      }
    }
  }

  /** Export then import gives back the document up to ids: lists come back as paragraphs
      and image blocks without a url vanish; when nothing is left, the default document. */
  lemma DocumentRoundTrip(bs: seq<Block>)
    requires |bs| >= 1
    requires forall k :: 0 <= k < |bs| ==> Reimportable(bs[k])
    ensures ExpectedShapes(bs) != [] ==> Shapes(MarkdownToBlocks(BlocksToMarkdown(bs))) == ExpectedShapes(bs)
    ensures ExpectedShapes(bs) == [] ==> MarkdownToBlocks(BlocksToMarkdown(bs)) == DefaultDocument
  {
    ExportLines(bs);
    var reimported := seq(|bs|, i requires 0 <= i < |bs| => Reimported(bs[i]));
    forall i | 0 <= i < |bs| ensures ClassifyLines(Lines(bs))[i] == reimported[i] {
      ClassifyBlockLine(bs[i]);
    }
    assert ClassifyLines(Lines(bs)) == reimported;
    ShapesOfNumber(reimported, 1);
  }

  /** An image block without a url exports as `![Image]()` and does not come back. */
  lemma EmptyImageVanishes(id: string)
    ensures BlocksToMarkdown([Block(id, Image, "")]) == "![Image]()"
    ensures MarkdownToBlocks(BlocksToMarkdown([Block(id, Image, "")])) == DefaultDocument
  {
    var line := BlockLine(Block(id, Image, ""));
    assert line == "![" + ImageAlt + "]()" == "![Image]()";
    ExportOneBlock(Block(id, Image, ""));
    ClassifyNoUrlLine();
    ImportOneLine(line);
  }

  /** A one-block document exports as that block's line. */
  lemma ExportOneBlock(b: Block)
    ensures BlocksToMarkdown([b]) == BlockLine(b)
  {
    assert Lines([b]) == [BlockLine(b)];
  }
}

/** The editing side of the block editor: the list operations behind each handler, and the
    component state (`blocks`, the open menu, the pending image url and the value reported
    to the parent) as a class whose methods are the handlers. */
module BlockEditor {
  import opened Text
  import opened Lists
  import opened BlockMarkdown

  // ---------------------------------------------------------------- list operations

  /** `blocks.map(b => b.id === id ? { ...b, content } : b)`. */
  function WithContent(bs: seq<Block>, id: string, content: string): (r: seq<Block>)
    ensures |r| == |bs|
    ensures forall k :: 0 <= k < |bs| ==> r[k].id == bs[k].id && r[k].kind == bs[k].kind
    ensures forall k :: 0 <= k < |bs| && bs[k].id != id ==> r[k] == bs[k]
    ensures forall k :: 0 <= k < |bs| && bs[k].id == id ==> r[k].content == content
  {
    seq(|bs|, k requires 0 <= k < |bs| => if bs[k].id == id then bs[k].(content := content) else bs[k])
  }

  /** The length of the run of `c` that `s` starts with. */
  function LeadingRun(s: string, c: char): (n: nat)
    ensures n <= |s|
    ensures forall i :: 0 <= i < n ==> s[i] == c
    ensures n < |s| ==> s[n] != c
  {
    if s != [] && s[0] == c then 1 + LeadingRun(s[1..], c) else 0
  }

  /** `s[..h]` is a non-empty run of `#` that `s[h]` does not continue, and `s[h..e]` is
      whitespace: the part of `s` the pattern `^#+\s*` can match. */
  predicate HeadingMarker(s: string, h: nat, e: nat) {
    && 1 <= h <= e <= |s|
    && (forall i :: 0 <= i < h ==> s[i] == '#')
    && (h < |s| ==> s[h] != '#')
    && (forall i :: h <= i < e ==> IsWhitespace(s[i]))
  }

  /** `s` is a heading marker followed by `r`. */
  predicate MarkerThen(s: string, h: nat, r: string) {
    |r| <= |s| && HeadingMarker(s, h, |s| - |r|)
  }

  /** `content` with the pattern `^#+\s*` replaced by nothing: the leading run of `#` and
      all the whitespace after it are removed; a string that does not start with `#` is
      left alone. */
  function StripHeadingMarker(s: string): string {
    if s != [] && s[0] == '#' then TrimStart(s[LeadingRun(s, '#')..]) else s
  }

  /** The result is what follows the marker: a string that does not start with `#` is
      kept; otherwise what is stripped is the heading marker that starts with the whole
      leading `#` run, and what is left starts with no whitespace. It may start with `#`,
      but only when whitespace separated that `#` from the leading run (`"# #x"` strips
      to `"#x"`). */
  lemma StripHeadingMarkerMatches(s: string)
    ensures var r := StripHeadingMarker(s);
            && |r| <= |s| && r == s[|s| - |r|..]
            && ((s == [] || s[0] != '#') ==> r == s)
            && (s != [] && s[0] == '#' ==> MarkerThen(s, LeadingRun(s, '#'), r) && (r != [] ==> !IsWhitespace(r[0])))
            && (s != [] && s[0] == '#' && r != [] && r[0] == '#' ==> LeadingRun(s, '#') < |s| - |r|)
  {
    if s != [] && s[0] == '#' {
      StripHashed(s);
    } else {
      assert s[0..] == s;
    }
  }

  lemma StripHashed(s: string)
    requires s != [] && s[0] == '#'
    ensures var r := StripHeadingMarker(s);
            |r| <= |s| && r == s[|s| - |r|..] && MarkerThen(s, LeadingRun(s, '#'), r) && (r != [] ==> !IsWhitespace(r[0]))
  {
    var h := LeadingRun(s, '#');
    var k := LeadingBlank(s[h..]);
    ShiftedBlank(s, h, k);
    StripParts(s, h, h + k, StripHeadingMarker(s));
  }

  /** Whitespace counted from position `h` of `s`, as positions of `s`. */
  lemma ShiftedBlank(s: string, h: nat, k: nat)
    requires h <= |s| && k <= |s| - h
    requires forall i :: 0 <= i < k ==> IsWhitespace(s[h..][i])
    requires k < |s| - h ==> !IsWhitespace(s[h..][k])
    ensures forall i :: h <= i < h + k ==> IsWhitespace(s[i])
    ensures h + k < |s| ==> !IsWhitespace(s[h + k])
  {
    forall i | h <= i < h + k ensures IsWhitespace(s[i]) {
      assert s[h..][i - h] == s[i];
    }
  }

  /** A `#` run up to `h` and whitespace from `h` up to `e` make the heading marker in
      front of `s[e..]`. */
  lemma StripParts(s: string, h: nat, e: nat, r: string)
    requires s != [] && s[0] == '#' && h <= e <= |s|
    requires forall i :: 0 <= i < h ==> s[i] == '#'
    requires h < |s| ==> s[h] != '#'
    requires forall i :: h <= i < e ==> IsWhitespace(s[i])
    requires e < |s| ==> !IsWhitespace(s[e])
    requires r == s[e..]
    ensures |r| <= |s| && r == s[|s| - |r|..]
    ensures MarkerThen(s, h, r)
    ensures r != [] ==> !IsWhitespace(r[0])
  {
    assert MarkerThen(s, h, r);
  }

  /** `blocks.map(b => b.id === id ? { ...b, type, content: stripped } : b)`. */
  function Retyped(bs: seq<Block>, id: string, t: BlockType): (r: seq<Block>)
    ensures |r| == |bs|
    ensures forall k :: 0 <= k < |bs| ==> r[k].id == bs[k].id
    ensures forall k :: 0 <= k < |bs| && bs[k].id != id ==> r[k] == bs[k]
    ensures forall k :: 0 <= k < |bs| && bs[k].id == id ==>
              r[k].kind == t && r[k].content == StripHeadingMarker(bs[k].content)
  {
    seq(|bs|, k requires 0 <= k < |bs| =>
      if bs[k].id == id then Block(bs[k].id, t, StripHeadingMarker(bs[k].content)) else bs[k])
  }

  function IdIsNot(id: string): Block -> bool {
    (b: Block) => b.id != id
  }

  /** `blocks.filter(b => b.id !== id)`. */
  function Without(bs: seq<Block>, id: string): (r: seq<Block>)
    ensures |r| <= |bs|
    ensures forall b :: b in r <==> b in bs && b.id != id
  {
    Filter(bs, IdIsNot(id))
  }

  /** `splice(index + 1, 0, b)`: `b` inserted right after position `index`. */
  function InsertAfter(bs: seq<Block>, index: nat, b: Block): (r: seq<Block>)
    requires index < |bs|
    ensures |r| == |bs| + 1 && r[index + 1] == b
    ensures r[..index + 1] == bs[..index + 1] && r[index + 2..] == bs[index + 1..]
  {
    bs[..index + 1] + [b] + bs[index + 1..]
  }

  // ---------------------------------------------------------------- their properties

  /** Updating or retyping an id no block has changes nothing. */
  lemma UnknownIdIsNoOp(bs: seq<Block>, id: string, content: string, t: BlockType)
    requires !HasId(bs, id)
    ensures WithContent(bs, id, content) == bs
    ensures Retyped(bs, id, t) == bs
    ensures Without(bs, id) == bs
  {
    FilterKeepsAll(bs, IdIsNot(id));
  }

  /** With distinct ids, updating block `k` changes exactly line `k` of the export. */
  lemma UpdateChangesOneLine(bs: seq<Block>, k: nat, content: string)
    requires UniqueIds(bs) && k < |bs|
    ensures Lines(WithContent(bs, bs[k].id, content)) == Lines(bs)[k := BlockLine(bs[k].(content := content))]
  {
  }

  /** With distinct ids, deleting the id of block `k` removes exactly that block. */
  lemma DeleteRemovesOne(bs: seq<Block>, k: nat)
    requires UniqueIds(bs) && k < |bs|
    ensures Without(bs, bs[k].id) == bs[..k] + bs[k + 1..]
  {
    FilterRemovesOne(bs, IdIsNot(bs[k].id), k);
  }

  /** With distinct ids, deleting any id leaves all blocks but at most one, still with
      distinct ids. */
  lemma DeleteKeepsRest(bs: seq<Block>, id: string)
    requires UniqueIds(bs)
    ensures |Without(bs, id)| >= |bs| - 1
    ensures UniqueIds(Without(bs, id))
  {
    if HasId(bs, id) {
      var k :| 0 <= k < |bs| && bs[k].id == id;
      DeleteRemovesOne(bs, k);
      RemoveAtKeepsIdsUnique(bs, k);
    } else {
      UnknownIdIsNoOp(bs, id, "", Paragraph);
    }
  }

  lemma RemoveAtKeepsIdsUnique(bs: seq<Block>, k: nat)
    requires UniqueIds(bs) && k < |bs|
    ensures UniqueIds(bs[..k] + bs[k + 1..])
  {
    var r := bs[..k] + bs[k + 1..];
    forall i, j | 0 <= i < j < |r| ensures r[i].id != r[j].id {
      var i' := if i < k then i else i + 1;
      var j' := if j < k then j else j + 1;
      assert r[i] == bs[i'] && r[j] == bs[j'];
    }
  }

  /** A block inserted under a fresh id is removed again by deleting that id. */
  lemma InsertThenDelete(bs: seq<Block>, index: nat, b: Block)
    requires index < |bs| && !HasId(bs, b.id)
    ensures Without(InsertAfter(bs, index, b), b.id) == bs
  {
    var r := InsertAfter(bs, index, b);
    FilterRemovesOne(r, IdIsNot(b.id), index + 1);
    assert r[..index + 1] + r[index + 2..] == bs;
  }

  /** Inserting a block under a fresh id keeps the ids distinct. */
  lemma InsertKeepsIdsUnique(bs: seq<Block>, index: nat, b: Block)
    requires index < |bs| && UniqueIds(bs) && !HasId(bs, b.id)
    ensures UniqueIds(InsertAfter(bs, index, b))
  {
    var r := InsertAfter(bs, index, b);
    forall i, j | 0 <= i < j < |r| ensures r[i].id != r[j].id {
      if i == index + 1 {
        assert r[j] == bs[j - 1];
      } else if j == index + 1 {
        assert r[i] == bs[i];
      } else {
        var i' := if i <= index then i else i - 1;
        var j' := if j <= index then j else j - 1;
        assert r[i] == bs[i'] && r[j] == bs[j'];
      }
    }
  }

  /** The `#` run of `hashes + rest` is `hashes` when `rest` does not start with `#`. */
  lemma {:induction false} LeadingHashes(hashes: string, rest: string)
    requires forall i :: 0 <= i < |hashes| ==> hashes[i] == '#'
    requires rest == [] || rest[0] != '#'
    ensures LeadingRun(hashes + rest, '#') == |hashes|
  {
    if hashes != [] {
      assert (hashes + rest)[1..] == hashes[1..] + rest;
      LeadingHashes(hashes[1..], rest);
    } else {
      assert hashes + rest == rest;
    }
  }

  /** What retyping strips is a run of `#` and the blank text after it, so the marker the
      exporter writes (a run of `#` and one space) goes, and so does `#` directly before
      the text; a text that starts with neither whitespace nor `#` is kept whole. */
  lemma StripMarker(hashes: string, blank: string, t: string)
    requires hashes != [] && forall i :: 0 <= i < |hashes| ==> hashes[i] == '#'
    requires IsBlank(blank)
    requires t == [] || (!IsWhitespace(t[0]) && t[0] != '#')
    ensures StripHeadingMarker(hashes + blank + t) == t
  {
    var s, rest := hashes + blank + t, blank + t;
    assert s == hashes + rest && s[0] == '#';
    assert blank != [] ==> IsWhitespace(rest[0]);
    LeadingHashes(hashes, rest);
    assert s[|hashes|..] == rest;
    TrimStartBlank(blank, t);
    StripAfterHashes(s, |hashes|, rest, t);
  }

  /** A `#` after the first marker's whitespace is kept: `# #x` strips to `#x`. */
  lemma StripSpacedHashes(t: string)
    ensures StripHeadingMarker("# #" + t) == "#" + t
  {
    var s, rest := "# #" + t, " #" + t;
    assert s == "#" + rest && s[0] == '#' && s[1..] == rest;
    LeadingHashes("#", rest);
    assert rest == " " + ("#" + t);
    TrimStartBlank(" ", "#" + t);
    StripAfterHashes(s, 1, rest, "#" + t);
  }

  lemma StripAfterHashes(s: string, h: nat, rest: string, r: string)
    requires s != [] && s[0] == '#' && LeadingRun(s, '#') == h && s[h..] == rest && TrimStart(rest) == r
    ensures StripHeadingMarker(s) == r
  {
  }

  /** Retyping a paragraph typed as `## text` to h2 keeps its exported line. */
  lemma RetypeTypedHeading(bs: seq<Block>, k: nat, t: string)
    requires UniqueIds(bs) && k < |bs| && bs[k].kind == Paragraph && bs[k].content == "## " + t
    requires t == [] || (!IsWhitespace(t[0]) && t[0] != '#')
    ensures Lines(Retyped(bs, bs[k].id, H2)) == Lines(bs)
  {
    var r := Retyped(bs, bs[k].id, H2);
    assert r[k] == Block(bs[k].id, H2, StripHeadingMarker(bs[k].content));
    TypedHeadingLine(t);
    forall i | 0 <= i < |bs| && i != k ensures r[i] == bs[i] {
      assert bs[i].id != bs[k].id;
    }
  }

  lemma TypedHeadingLine(t: string)
    requires t == [] || (!IsWhitespace(t[0]) && t[0] != '#')
    ensures "## " + StripHeadingMarker("## " + t) == "## " + t
  {
    assert IsBlank(" ");
    StripMarker("##", " ", t);
    assert "##" + " " + t == "## " + t;
  }

  // ---------------------------------------------------------------- the component

  class Editor {
    var blocks: seq<Block>
    /** The id of the block whose menu is open; at most one menu is open. */
    var showMenu: Option<string>
    var imageUrl: string
    /** The markdown last reported to the parent through `onChange`. */
    var value: string

    /** The document is never empty, its ids are distinct, and the parent holds its export. */
    predicate Valid()
      reads this
    {
      |blocks| > 0 && UniqueIds(blocks) && value == BlocksToMarkdown(blocks)
    }

    /** Mounting with the parent's value: an empty value gives the default document,
        anything else is imported. The export is then reported back. */
    constructor (initial: string)
      ensures Valid()
      ensures blocks == if initial == [] then DefaultDocument else MarkdownToBlocks(initial)
      ensures showMenu == None && imageUrl == []
    {
      var parsed := DefaultDocument;
      if initial != [] {
        parsed := ParseMarkdownToBlocks(initial);
        ImportedIdsUnique(initial);
      }
      blocks := parsed;
      showMenu := None;
      imageUrl := [];
      value := BlocksToMarkdown(parsed);
    }

    /** `addBlock(index, type)`: an empty block of the given type under a fresh id, right
        after `index`; the menu closes. */
    method AddBlock(index: nat, t: BlockType, freshId: string)
      requires Valid() && index < |blocks| && !HasId(blocks, freshId)
      modifies this
      ensures Valid()
      ensures blocks == InsertAfter(old(blocks), index, Block(freshId, t, []))
      ensures showMenu == None && imageUrl == old(imageUrl)
    {
      InsertKeepsIdsUnique(blocks, index, Block(freshId, t, []));
      blocks := InsertAfter(blocks, index, Block(freshId, t, []));
      showMenu := None;
      value := BlocksToMarkdown(blocks);
    }

    /** `updateBlock(id, content)`. */
    method UpdateBlock(id: string, content: string)
      requires Valid()
      modifies this
      ensures Valid()
      ensures blocks == WithContent(old(blocks), id, content)
      ensures showMenu == old(showMenu) && imageUrl == old(imageUrl)
    {
      blocks := WithContent(blocks, id, content);
      value := BlocksToMarkdown(blocks);
    }

    /** `deleteBlock(id)`: refused while only one block is left. */
    method DeleteBlock(id: string)
      requires Valid()
      modifies this
      ensures Valid()
      ensures blocks == if |old(blocks)| > 1 then Without(old(blocks), id) else old(blocks)
      ensures showMenu == old(showMenu) && imageUrl == old(imageUrl)
    {
      if |blocks| > 1 {
        DeleteKeepsRest(blocks, id);
        blocks := Without(blocks, id);
        value := BlocksToMarkdown(blocks);
      }
    }

    /** `changeBlockType(id, type)`: the menu closes. */
    method ChangeBlockType(id: string, t: BlockType)
      requires Valid()
      modifies this
      ensures Valid()
      ensures blocks == Retyped(old(blocks), id, t)
      ensures showMenu == None && imageUrl == old(imageUrl)
    {
      blocks := Retyped(blocks, id, t);
      showMenu := None;
      value := BlocksToMarkdown(blocks);
    }

    /** `handleImageSubmit(id)`: a blank pending url is ignored; otherwise the trimmed url
        becomes the block's content, the pending url is cleared and the menu closes. */
    method HandleImageSubmit(id: string)
      requires Valid()
      modifies this
      ensures Valid()
      ensures IsBlank(old(imageUrl)) ==>
        blocks == old(blocks) && showMenu == old(showMenu) && imageUrl == old(imageUrl)
      ensures !IsBlank(old(imageUrl)) ==>
        blocks == WithContent(old(blocks), id, Trim(old(imageUrl))) && showMenu == None && imageUrl == []
    {
      var url := Trim(imageUrl);
      if url != [] {
        blocks := WithContent(blocks, id, url);
        value := BlocksToMarkdown(blocks);
        imageUrl := [];
        showMenu := None;
      }
    }

    /** The url input's `onChange`. */
    method SetImageUrl(url: string)
      requires Valid()
      modifies this
      ensures Valid()
      ensures imageUrl == url && blocks == old(blocks) && showMenu == old(showMenu)
    {
      imageUrl := url;
    }

    /** The plus button of block `id`: opens its menu, or closes it when it is the open one. */
    method ToggleMenu(id: string)
      requires Valid()
      modifies this
      ensures Valid()
      ensures showMenu == if old(showMenu) == Some(id) then None else Some(id)
      ensures blocks == old(blocks) && imageUrl == old(imageUrl)
    {
      if showMenu == Some(id) {
        showMenu := None;
      } else {
        showMenu := Some(id);
      }
    }

    /** Enter in the paragraph at `index`: without Shift it adds an empty paragraph after it;
        with Shift the textarea keeps the newline, which is not modelled here. */
    method PressEnter(index: nat, shift: bool, freshId: string)
      requires Valid() && index < |blocks| && blocks[index].kind == Paragraph
      requires !HasId(blocks, freshId)
      modifies this
      ensures Valid()
      ensures !shift ==> blocks == InsertAfter(old(blocks), index, Block(freshId, Paragraph, [])) && showMenu == None
      ensures shift ==> blocks == old(blocks) && showMenu == old(showMenu)
      ensures imageUrl == old(imageUrl)
    {
      if !shift {
        AddBlock(index, Paragraph, freshId);
      }
    }
  }
}

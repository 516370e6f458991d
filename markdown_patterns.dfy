/** Hand-written matchers for the two bracket patterns the editor and the profile page use:
    the image pattern `!\[([^\]]*)\]\(([^)]+)\)` and the link pattern
    `\[([^\]]+)\]\(([^)]+)\)`. Each character class excludes the character that ends
    it, so the greedy match never backtracks and each capture is the longest run before
    its terminator; a match anchored at a given position is therefore unique. */
module MarkdownPatterns {
  import opened Text

  /** The two captures of a bracket pattern and the number of characters it spans. */
  datatype BracketMatch = BracketMatch(caption: string, target: string, len: nat)

  /** `\[([^\]]*)\]\(([^)]+)\)` anchored at the start of `s`; the caption may be empty,
      the target may not. */
  function BracketAt(s: string): (m: Option<BracketMatch>)
    ensures m.Some? ==>
      && m.value.len == |m.value.caption| + |m.value.target| + 4 <= |s|
      && s[..m.value.len] == "[" + m.value.caption + "](" + m.value.target + ")"
      && ']' !in m.value.caption && ')' !in m.value.target && m.value.target != []
  {
    if s == [] || s[0] != '[' then None
    else
      var caption := TakeUntil(s[1..], ']');
      var k := 1 + |caption|;
      if k + 1 < |s| && s[k] == ']' && s[k + 1] == '(' then
        var target := TakeUntil(s[k + 2..], ')');
        var e := k + 2 + |target|;
        if target != [] && e < |s| then
          assert s[1..k] == caption && s[k + 2..e] == target;
          assert s[..e + 1] == "[" + caption + "](" + target + ")";
          Some(BracketMatch(caption, target, e + 1))
        else None
      else None
  }

  /** A string that starts with `[caption](target)` matches with exactly those captures. */
  lemma BracketAtComplete(caption: string, target: string, rest: string)
    requires ']' !in caption && ')' !in target && target != []
    ensures BracketAt("[" + caption + "](" + target + ")" + rest)
         == Some(BracketMatch(caption, target, |caption| + |target| + 4))
  {
    var s := "[" + caption + "](" + target + ")" + rest;
    var k := 1 + |caption|;
    assert s[1..] == caption + [']'] + ("(" + target + ")" + rest);
    assert s[k + 2..] == target + [')'] + rest;
    BracketAtParts(s, caption, target);
  }

  /** The bracket match read off positions: `[` at 0, the caption, `](`, the target, `)`. */
  lemma BracketAtParts(s: string, caption: string, target: string)
    requires ']' !in caption && ')' !in target && target != []
    requires |caption| + |target| + 4 <= |s| && s[0] == '['
    requires s[1..] == caption + [']'] + s[|caption| + 2..]
    requires s[|caption| + 2] == '('
    requires s[|caption| + 3..] == target + [')'] + s[|caption| + |target| + 4..]
    ensures BracketAt(s) == Some(BracketMatch(caption, target, |caption| + |target| + 4))
  {
    TakeUntilStops(caption, ']', s[|caption| + 2..]);
    TakeUntilStops(target, ')', s[|caption| + |target| + 4..]);
  }

  /** `TakeUntil` stops at the first occurrence of its stop character. */
  lemma {:induction false} TakeUntilStops(head: string, stop: char, tail: string)
    requires stop !in head
    ensures TakeUntil(head + [stop] + tail, stop) == head
  {
    if head != [] {
      assert (head + [stop] + tail)[1..] == head[1..] + [stop] + tail;
      TakeUntilStops(head[1..], stop, tail);
    }
  }

  /** The image pattern `!\[([^\]]*)\]\(([^)]+)\)` anchored at the start of `s`. */
  function ImageAt(s: string): (m: Option<BracketMatch>)
    ensures m.Some? ==>
      && m.value.len == |m.value.caption| + |m.value.target| + 5 <= |s|
      && s[..m.value.len] == "![" + m.value.caption + "](" + m.value.target + ")"
      && ']' !in m.value.caption && ')' !in m.value.target && m.value.target != []
  {
    if s == [] || s[0] != '!' then None
    else match BracketAt(s[1..])
      case None => None
      case Some(b) =>
        assert s[..b.len + 1] == [s[0]] + s[1..][..b.len];
        BangThenBracket(b.caption, b.target);
        Some(b.(len := b.len + 1))
  }

  /** The image syntax is `!` in front of the bracket syntax. */
  lemma BangThenBracket(caption: string, target: string)
    ensures "![" + caption + "](" + target + ")" == ['!'] + ("[" + caption + "](" + target + ")")
  {
    assert "![" == ['!'] + "[";
  }

  /** A string that starts with `![caption](target)` matches the image pattern with
      exactly those captures. */
  lemma ImageAtComplete(caption: string, target: string, rest: string)
    requires ']' !in caption && ')' !in target && target != []
    ensures ImageAt("![" + caption + "](" + target + ")" + rest)
         == Some(BracketMatch(caption, target, |caption| + |target| + 5))
  {
    var b := "[" + caption + "](" + target + ")";
    BangThenBracket(caption, target);
    assert (['!'] + b + rest)[1..] == b + rest;
    BracketAtComplete(caption, target, rest);
  }

  /** The link pattern `\[([^\]]+)\]\(([^)]+)\)` anchored at the start of `s`: a bracket
      match whose caption is not empty. */
  function LinkAt(s: string): (m: Option<BracketMatch>)
    ensures m.Some? ==>
      && m.value.len == |m.value.caption| + |m.value.target| + 4 <= |s|
      && s[..m.value.len] == "[" + m.value.caption + "](" + m.value.target + ")"
      && ']' !in m.value.caption && ')' !in m.value.target
      && m.value.caption != [] && m.value.target != []
  {
    match BracketAt(s)
    case Some(b) => if b.caption != [] then Some(b) else None
    case None => None
  }

  /** `s.match(image pattern)`: the match at the leftmost position where the image pattern
      matches, if any. */
  function FirstImage(s: string): (m: Option<BracketMatch>)
    ensures m.Some? ==> ']' !in m.value.caption && ')' !in m.value.target && m.value.target != []
  {
    if s == [] then None
    else match ImageAt(s)
      case Some(b) => Some(b)
      case None => FirstImage(s[1..])
  }

  /** `FirstImage` finds nothing exactly when the pattern matches nowhere, and otherwise
      returns the match at a position before which the pattern matches nowhere. */
  lemma FirstImageIsLeftmost(s: string)
    ensures FirstImage(s).None? <==> forall i :: 0 <= i < |s| ==> ImageAt(s[i..]).None?
    ensures FirstImage(s).Some? ==>
      exists i :: 0 <= i < |s| && ImageAt(s[i..]) == FirstImage(s)
                  && forall j :: 0 <= j < i ==> ImageAt(s[j..]).None?
  {
    FirstImageNone(s);
    if FirstImage(s).Some? {
      FirstImageLeftmost(s);
    }
  }

  /** The suffixes of the tail are the later suffixes. */
  lemma TailSuffixes(s: string)
    requires s != []
    ensures s[0..] == s
    ensures forall i :: 0 <= i < |s| - 1 ==> s[1..][i..] == s[i + 1..]
  {
  }

  lemma {:induction false} FirstImageNone(s: string)
    ensures FirstImage(s).None? <==> forall i :: 0 <= i < |s| ==> ImageAt(s[i..]).None?
  {
    if s != [] {
      TailSuffixes(s);
      FirstImageNone(s[1..]);
      if FirstImage(s).None? {
        forall i | 0 <= i < |s| ensures ImageAt(s[i..]).None? {
          if i > 0 {
            assert s[i..] == s[1..][i - 1..];
          }
        }
      }
      if ImageAt(s).None? && FirstImage(s[1..]).Some? {
        var i :| 0 <= i < |s| - 1 && ImageAt(s[1..][i..]).Some?;
        assert ImageAt(s[i + 1..]).Some?;
      }
    }
  }

  lemma {:induction false} FirstImageLeftmost(s: string)
    requires FirstImage(s).Some?
    ensures exists i :: 0 <= i < |s| && ImageAt(s[i..]) == FirstImage(s)
                        && forall j :: 0 <= j < i ==> ImageAt(s[j..]).None?
  {
    TailSuffixes(s);
    if ImageAt(s).Some? {
      assert ImageAt(s[0..]) == FirstImage(s);
    } else {
      FirstImageLeftmost(s[1..]);
      var i :| 0 <= i < |s| - 1 && ImageAt(s[1..][i..]) == FirstImage(s[1..])
               && forall j :: 0 <= j < i ==> ImageAt(s[1..][j..]).None?;
      assert ImageAt(s[i + 1..]) == FirstImage(s);
      assert forall j :: 0 <= j < i + 1 ==> ImageAt(s[j..]).None? by {
        forall j | 0 <= j < i + 1 ensures ImageAt(s[j..]).None? {
          if j > 0 {
            assert s[j..] == s[1..][j - 1..];
          }
        }
      }
    }
  }

  /** A bracket with an empty target, `[caption]()`, does not match. */
  lemma BracketAtEmptyTarget(caption: string, rest: string)
    requires ']' !in caption
    ensures BracketAt("[" + caption + "]()" + rest) == None
  {
    var s := "[" + caption + "]()" + rest;
    TakeUntilStops(caption, ']', "()" + rest);
    assert s[1..] == caption + [']'] + ("()" + rest);
    var k := 1 + |caption|;
    assert s[k + 2..] == [')'] + rest;
  }

  /** A bracket that is never closed does not match. */
  lemma BracketAtUnclosed(caption: string)
    requires ']' !in caption
    ensures BracketAt("[" + caption) == None
  {
    var s := "[" + caption;
    assert s[1..] == caption;
    assert TakeUntil(caption, ']') == caption;
  }

  /** A string with no `!` past its first character matches the image pattern at most at
      its start. */
  lemma {:induction false} FirstImageOnlyAtStart(s: string)
    requires s != []
    requires '!' !in s[1..]
    ensures FirstImage(s) == ImageAt(s)
  {
    if ImageAt(s) == None {
      NoImageWithoutBang(s[1..]);
    }
  }

  /** Without a `!` there is no image match. */
  lemma {:induction false} NoImageWithoutBang(s: string)
    requires '!' !in s
    ensures FirstImage(s) == None
  {
    if s != [] {
      assert s[0] in s;
      assert '!' !in s[1..] by {
        forall c | c in s[1..] ensures c != '!' {
          assert c in s;
        }
      }
      NoImageWithoutBang(s[1..]);
    }
  }
}

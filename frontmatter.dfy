/** The front-matter tag scanner of cmd/search/search.go (`processFile`) and
    the per-tag append of `parseFileTags`. File content is a string of one
    character per byte. */
module FrontMatter {
  import opened Text

  /** The four bytes `content[0:4]` that `processFile` compares with `"---\n"`.
      Go bounds a slice expression on a byte slice by its capacity. The
      buffer `io.ReadAll` returns has started with a capacity of 512 zeroed
      bytes in the Go releases to date (an implementation detail, not a
      guarantee of the `io` package), so for content shorter than 4 bytes the
      slice does not panic: its missing bytes read as zero. */
  function HeaderWindow(content: string): (w: string)
    ensures |w| == 4
    ensures |content| >= 4 ==> w == content[..4]
    ensures |content| < 4 ==> w[3] == '\0'
  {
    if |content| >= 4 then content[..4]
    else content + seq(4 - |content|, _ => '\0')
  }

  /** The newline-terminated lines of `s` from index `k` on, the first one
      continuing the partial line `cur`; each line comes without its newline,
      and characters after the last newline make no line: there is one line
      per newline. */
  function LinesAt(cur: string, s: string, k: nat): (lines: seq<string>)
    requires k <= |s|
    ensures |lines| == NewlinesFrom(s, k)
    decreases |s| - k
  {
    if k == |s| then []
    else if s[k] == '\n' then [cur] + LinesAt([], s, k + 1)
    else LinesAt(cur + [s[k]], s, k + 1)
  }

  /** A line that trims to `tags:`. */
  predicate IsTagsLine(line: string)
  {
    Trim(line, Blanks) == "tags:"
  }

  /** A line that trims to `---`. */
  predicate IsEndLine(line: string)
  {
    Trim(line, Blanks) == "---"
  }

  /** A line that, trimmed, starts with `- `. */
  predicate IsItemLine(line: string)
  {
    HasPrefix(Trim(line, Blanks), "- ")
  }

  /** The scan over the lines, each examined trimmed: before a `tags:` line
      (`found` false) a `---` line ends it; after one, each `- x` line yields
      `x` and the first other line ends it. It yields at most one tag per line. */
  function TagsIn(lines: seq<string>, found: bool): (tags: seq<string>)
    ensures |tags| <= |lines|
  {
    if lines == [] then []
    else if found && IsItemLine(lines[0]) then [Trim(lines[0], Blanks)[2..]] + TagsIn(lines[1..], found)
    else if found then []
    else if IsTagsLine(lines[0]) then TagsIn(lines[1..], true)
    else if IsEndLine(lines[0]) then []
    else TagsIn(lines[1..], false)
  }

  /** A line that ends the scan: anything but an item after `tags:`, or a
      `---` line before it. */
  lemma TagsInStop(line: string, later: seq<string>, found: bool)
    requires if found then !IsItemLine(line) else !IsTagsLine(line) && IsEndLine(line)
    ensures TagsIn([line] + later, found) == []
  {
  }

  /** The `tags:` line: the scan goes on collecting. */
  lemma TagsInTagsLine(line: string, later: seq<string>)
    requires IsTagsLine(line)
    ensures TagsIn([line] + later, false) == TagsIn(later, true)
  {
    assert ([line] + later)[1..] == later;
  }

  /** Any other line: an item after `tags:` yields its tag, a line before
      `tags:` yields nothing; the scan goes on. */
  lemma TagsInPlain(line: string, later: seq<string>, found: bool)
    requires !IsTagsLine(line) && !IsEndLine(line) && (found ==> IsItemLine(line))
    ensures TagsIn([line] + later, found) ==
      (if found then [Trim(line, Blanks)[2..]] else []) + TagsIn(later, found)
  {
    assert ([line] + later)[1..] == later;
  }

  /** The tags `processFile` returns for a file with this content: at most
      one per newline-terminated line after the opening `---\n`. */
  function FrontMatterTags(content: string): (tags: seq<string>)
    ensures |tags| <= if |content| >= 4 then NewlinesFrom(content, 4) else 0
  {
    if HeaderWindow(content) == "---\n" then TagsIn(LinesAt([], content, 4), false) else []
  }

  /** A trimmed line starting with `- ` is neither `tags:` nor `---`. */
  lemma ItemIsNoMarker(s: string)
    requires HasPrefix(s, "- ")
    ensures s != "tags:" && s != "---"
  {
    assert s[1] == s[..2][1] == ' ';
  }

  /** `processFile`: one pass over the bytes after `---\n`, collecting a line in
      a buffer and examining it, trimmed, at each newline. */
  method ProcessFile(content: string) returns (list: seq<string>)
    ensures list == FrontMatterTags(content)
  {
    var line: string := [];
    var foundTags := false;
    list := [];
    if HeaderWindow(content) == "---\n" {
      ghost var tags := FrontMatterTags(content);
      for i := 4 to |content|
        invariant list + TagsIn(LinesAt(line, content, i), foundTags) == tags
      {
        var c := content[i];
        if c != '\n' {
          line := line + [c];
        } else {
          ghost var later := LinesAt([], content, i + 1);
          var s := Trim(line, Blanks);
          if foundTags && HasPrefix(s, "- ") {
            list := list + [s[2..]];
            ItemIsNoMarker(s);
          } else if foundTags {
            TagsInStop(line, later, true);
            break;
          }
          if s == "tags:" {
            TagsInTagsLine(line, later);
            foundTags := true;
          } else if s == "---" {
            TagsInStop(line, later, false);
            break;
          } else {
            TagsInPlain(line, later, foundTags);
          }
          line := [];
        }
      }
    }
  }

  /** The length of the run of `- ` items at the head of `lines`. */
  function ItemRun(lines: seq<string>): (n: nat)
    ensures n <= |lines|
    ensures forall j :: 0 <= j < n ==> IsItemLine(lines[j])
    ensures n < |lines| ==> !IsItemLine(lines[n])
  {
    if lines != [] && IsItemLine(lines[0]) then 1 + ItemRun(lines[1..]) else 0
  }

  /** The index of the first line that trims to `tags:` or `---`. */
  function FirstMarker(lines: seq<string>): (k: nat)
    ensures k <= |lines|
    ensures forall j :: 0 <= j < k ==> !IsTagsLine(lines[j]) && !IsEndLine(lines[j])
    ensures k < |lines| ==> IsTagsLine(lines[k]) || IsEndLine(lines[k])
  {
    if lines == [] then 0
    else if IsTagsLine(lines[0]) || IsEndLine(lines[0]) then 0
    else 1 + FirstMarker(lines[1..])
  }

  /** After `tags:`, the scan yields the text after `- ` of each line of the
      leading run of items, in file order, and nothing else. */
  lemma {:induction false} TagsAfterMarker(lines: seq<string>)
    ensures |TagsIn(lines, true)| == ItemRun(lines)
    ensures forall j :: 0 <= j < ItemRun(lines) ==> TagsIn(lines, true)[j] == Trim(lines[j], Blanks)[2..]
  {
    if lines != [] && IsItemLine(lines[0]) {
      TagsAfterMarker(lines[1..]);
    }
  }

  /** Before `tags:`: nothing unless the first line that trims to `tags:` or
      `---` is a `tags:` line, and then the items right after it. */
  lemma {:induction false} TagsInCharacterized(lines: seq<string>)
    ensures TagsIn(lines, false) ==
      var k := FirstMarker(lines);
      if k < |lines| && IsTagsLine(lines[k]) then TagsIn(lines[k + 1..], true) else []
  {
    if lines != [] && !IsTagsLine(lines[0]) && !IsEndLine(lines[0]) {
      assert TagsIn(lines, false) == TagsIn(lines[1..], false);
      TagsInCharacterized(lines[1..]);
      var k := FirstMarker(lines[1..]);
      assert FirstMarker(lines) == k + 1;
      if k < |lines| - 1 {
        assert lines[1..][k] == lines[k + 1];
        assert lines[1..][k + 1..] == lines[k + 2..];
      }
    }
  }

  /** Content that does not begin with `---\n`, including content shorter than
      four bytes, has no tags. */
  lemma NoOpeningMarker(content: string)
    requires |content| < 4 || content[..4] != "---\n"
    ensures FrontMatterTags(content) == []
  {
    if |content| < 4 {
      assert HeaderWindow(content)[3] == '\0';
    }
  }

  /** The number of newlines in `s` from index `k` on. */
  function NewlinesFrom(s: string, k: nat): nat
    requires k <= |s|
    decreases |s| - k
  {
    if k == |s| then 0 else (if s[k] == '\n' then 1 else 0) + NewlinesFrom(s, k + 1)
  }

  /** Text without a newline after index `k` makes no more lines. */
  lemma {:induction false} NoNewlineNoLines(cur: string, s: string, k: nat)
    requires k <= |s|
    requires forall i :: k <= i < |s| ==> s[i] != '\n'
    ensures LinesAt(cur, s, k) == []
    decreases |s| - k
  {
    if k < |s| {
      NoNewlineNoLines(cur + [s[k]], s, k + 1);
    }
  }

  lemma {:induction false} LinesIgnoreUnterminatedTail(cur: string, s: string, t: string, k: nat)
    requires k <= |s|
    requires '\n' !in t
    ensures LinesAt(cur, s + t, k) == LinesAt(cur, s, k)
    decreases |s| - k
  {
    if k == |s| {
      forall i | k <= i < |s + t| ensures (s + t)[i] != '\n' {
        assert (s + t)[i] == t[i - |s|];
      }
      NoNewlineNoLines(cur, s + t, k);
    } else if s[k] == '\n' {
      LinesIgnoreUnterminatedTail([], s, t, k + 1);
    } else {
      LinesIgnoreUnterminatedTail(cur + [s[k]], s, t, k + 1);
    }
  }

  /** A final line with no terminating newline is never examined: appending
      such text to a file does not change its tags. */
  lemma FinalLineIgnored(content: string, t: string)
    requires |content| >= 4
    requires '\n' !in t
    ensures FrontMatterTags(content + t) == FrontMatterTags(content)
  {
    assert (content + t)[..4] == content[..4];
    LinesIgnoreUnterminatedTail([], content, t, 4);
  }

  /** A bare `-` after `tags:` ends the list: trimming removes its trailing
      space, so it no longer starts with `- `. */
  lemma BareDashEndsList()
    ensures TagsIn(["- a", "- ", "- b"], true) == ["a"]
  {
    TrimIdentity("- a", Blanks);
    assert TrimLeft("- ", Blanks) == "- ";
    assert TrimRight("- ", Blanks) == TrimRight("-", Blanks) == "-";
    assert !HasPrefix("-", "- ");
    assert ["- a", "- ", "- b"][1..] == ["- ", "- b"];
  }

  /** One entry of the tag list the search picker shows. */
  datatype Tag = Tag(name: string, filename: string, path: string)

  /** The shared list of tags that `parseFileTags` fills. */
  class TagIndex {
    var tags: seq<Tag>

    constructor ()
      ensures tags == []
    {
      tags := [];
    }

    /** The per-file step of `parseFileTags`: one `Tag` appended per tag of
        the file, in the order `processFile` returned them. */
    method AddFileTags(dir: string, filename: string, content: string)
      modifies this
      ensures |tags| == |old(tags)| + |FrontMatterTags(content)|
      ensures tags[..|old(tags)|] == old(tags)
      ensures forall j :: 0 <= j < |FrontMatterTags(content)| ==>
                tags[|old(tags)| + j] == Tag(FrontMatterTags(content)[j], filename, dir + "/" + filename)
    {
      var fileTags := ProcessFile(content);
      for j := 0 to |fileTags|
        invariant |tags| == |old(tags)| + j
        invariant tags[..|old(tags)|] == old(tags)
        invariant forall m :: 0 <= m < j ==> tags[|old(tags)| + m] == Tag(fileTags[m], filename, dir + "/" + filename)
      {
        tags := tags + [Tag(fileTags[j], filename, dir + "/" + filename)];
      }
    }
  }
}

/** The preview truncation of cmd/utils/utils.go (`TruncateContent`), whose
    loop is also written out inline in the snippet picker's preview window. */
module Truncate {
  import opened Common

  /** The loop's two counters: `lines` is `contentHeight`, `column` is
      `currentWidth`. */
  datatype Counters = Counters(lines: int, column: int)

  /** A slice expression whose bounds are out of range: Go panics. */
  datatype Crash = SliceBounds(low: int, high: int)

  /** One pass of the loop body up to, not including, the `height` test. A
      newline counts one line but leaves the column running. */
  function Step(s: Counters, c: char, width: int): (r: Counters)
    ensures s.lines <= r.lines <= s.lines + 2
    ensures r.column == 0 || r.column == s.column + 1
    ensures width >= 1 && 0 <= s.column < width ==> 0 <= r.column < width
  {
    var column := s.column + 1;
    var lines := if c == '\n' then s.lines + 1 else s.lines;
    if column >= width then Counters(lines + 1, 0) else Counters(lines, column)
  }

  /** The counters after the loop has consumed the first `k` characters:
      each character adds at most two lines and one column. */
  function CountersAfter(width: int, content: string, k: nat): (r: Counters)
    requires k <= |content|
    ensures 0 <= r.lines <= 2 * k
    ensures 0 <= r.column <= k
  {
    if k == 0 then Counters(0, 0)
    else Step(CountersAfter(width, content, k - 1), content[k - 1], width)
  }

  /** The line count right after character `i` has been consumed. */
  function LinesThrough(width: int, content: string, i: nat): int
    requires i < |content|
  {
    CountersAfter(width, content, i + 1).lines
  }

  /** The first index `i >= from` after whose character the line count equals
      `height`, if there is one: the index at which the loop breaks. */
  function CutFrom(width: int, height: int, content: string, from: nat): (r: Option<nat>)
    requires from <= |content|
    ensures r.Some? ==> from <= r.value < |content|
    ensures r.Some? ==> LinesThrough(width, content, r.value) == height
    ensures forall i :: from <= i < |content| && (r.None? || i < r.value) ==>
              LinesThrough(width, content, i) != height
    decreases |content| - from
  {
    if from == |content| then None
    else if LinesThrough(width, content, from) == height then Some(from)
    else CutFrom(width, height, content, from + 1)
  }

  /** What `TruncateContent(width, height, content)` returns: the whole content
      when the line count never equals `height`; otherwise the content before
      index `i - 1`, where `i` is the index of the character that made it equal,
      and a slice panic when that index is 0. */
  function Truncated(width: int, height: int, content: string): (r: Result<string, Crash>)
    ensures r.Ok? ==> |r.value| <= |content|
    ensures r.Err? ==> r.error == SliceBounds(0, -1) && content != []
  {
    match CutFrom(width, height, content, 0)
    case None => Ok(content)
    case Some(i) => if i == 0 then Err(SliceBounds(0, -1)) else Ok(content[..i - 1])
  }

  /** The loop of `TruncateContent`, breaking out at the first index where the
      line count equals `height`, then slicing `content[0:truncateSize]`. */
  method TruncateContent(width: int, height: int, content: string) returns (r: Result<string, Crash>)
    ensures r == Truncated(width, height, content)
  {
    var contentHeight := 0;
    var truncateSize: int := |content|;
    var currentWidth := 0;
    for index := 0 to |content|
      invariant Counters(contentHeight, currentWidth) == CountersAfter(width, content, index)
      invariant CutFrom(width, height, content, 0) == CutFrom(width, height, content, index)
      invariant truncateSize == |content|
    {
      var c := content[index];
      currentWidth := currentWidth + 1;
      if c == '\n' {
        contentHeight := contentHeight + 1;
      }
      if currentWidth >= width {
        contentHeight := contentHeight + 1;
        currentWidth := 0;
      }
      if contentHeight == height {
        assert LinesThrough(width, content, index) == height;
        truncateSize := index - 1;
        break;
      }
    }
    assert truncateSize == |content| ==> content[..truncateSize] == content;
    if truncateSize < 0 {
      return Err(SliceBounds(0, truncateSize));
    }
    r := Ok(content[..truncateSize]);
  }

  /** Whatever the counters do, a successful result is a prefix of the
      content: either all of it, or a prefix at least two characters shorter. */
  lemma TruncatedIsPrefix(width: int, height: int, content: string)
    ensures Truncated(width, height, content).Ok? ==> Truncated(width, height, content).value <= content
    ensures Truncated(width, height, content).Ok? ==>
              Truncated(width, height, content).value == content ||
              |Truncated(width, height, content).value| + 2 <= |content|
  {
  }

  /** When the line count never equals `height`, the whole content comes back;
      when it first equals `height` after character `i >= 1`, the result is
      `content[..i - 1]`, so both `content[i - 1]` and `content[i]` are dropped;
      when that happens at `i == 0`, the slice panics. */
  lemma TruncatedCases(width: int, height: int, content: string)
    ensures (forall i :: 0 <= i < |content| ==> LinesThrough(width, content, i) != height)
            <==> Truncated(width, height, content) == Ok(content)
    ensures forall i :: 0 <= i < |content| && LinesThrough(width, content, i) == height &&
                        (forall j :: 0 <= j < i ==> LinesThrough(width, content, j) != height) ==>
              Truncated(width, height, content) == (if i == 0 then Err(SliceBounds(0, -1)) else Ok(content[..i - 1]))
  {
    var cut := CutFrom(width, height, content, 0);
    if cut.Some? {
      assert Truncated(width, height, content) != Ok(content) by {
        if cut.value > 0 {
          assert |content[..cut.value - 1]| < |content|;
        }
      }
    }
    forall i | 0 <= i < |content| && LinesThrough(width, content, i) == height &&
               (forall j :: 0 <= j < i ==> LinesThrough(width, content, j) != height)
      ensures cut == Some(i)
    {
    }
  }

  /** The line counter never decreases and rises by at most 2 per character,
      so it can step from `height - 1` straight to `height + 1`. */
  lemma {:induction false} LinesMonotone(width: int, content: string, j: nat, k: nat)
    requires j <= k <= |content|
    ensures CountersAfter(width, content, j).lines <= CountersAfter(width, content, k).lines
    ensures CountersAfter(width, content, k).lines <= CountersAfter(width, content, j).lines + 2 * (k - j)
    decreases k - j
  {
    if j < k {
      LinesMonotone(width, content, j, k - 1);
    }
  }

  /** For `width >= 1` the column stays in `[0, width)` after every character. */
  lemma {:induction false} ColumnInRange(width: int, content: string, k: nat)
    requires width >= 1
    requires k <= |content|
    ensures 0 <= CountersAfter(width, content, k).column < width
  {
    if k > 0 {
      ColumnInRange(width, content, k - 1);
    }
  }

  /** A newline moves the column exactly as any other character does (it is
      not reset), and counts one line more. */
  lemma NewlineKeepsColumn(s: Counters, c: char, width: int)
    requires c != '\n'
    ensures Step(s, '\n', width).column == Step(s, c, width).column
    ensures Step(s, '\n', width).lines == Step(s, c, width).lines + 1
  {
  }

  /** The counter can skip `height`: with width 1 a newline adds 2 lines, so a
      preview of height 1 never cuts and the whole content is returned. */
  lemma SkipsPastHeight()
    ensures Truncated(1, 1, "\n") == Ok("\n")
  {
    assert CountersAfter(1, "\n", 1) == Counters(2, 0);
  }

  /** A preview of height 0 whose first character is not a newline breaks at
      index 0 when the width is at least 2: the slice `content[0:-1]` panics. */
  lemma CutAtZeroPanics(width: int, content: string)
    requires width >= 2 && |content| > 0 && content[0] != '\n'
    ensures Truncated(width, 0, content) == Err(SliceBounds(0, -1))
  {
    assert CountersAfter(width, content, 1) == Counters(0, 1);
  }
}

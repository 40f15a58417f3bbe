/** The three regular expressions of `parseContent` in cmd/snippet/snippet.go,
    each written as the scan Go's `FindAllStringSubmatch` performs with it:
    at each position, from left to right, try the leftmost-first match; on a
    match, record its capture and resume at the match's end.

      header  `(?m)\s*#{3} (.*)$`
      body    `(?s)(INPUTS:\n(?:- (?:\w+)\n)+)*\x60{3}\w*(.*?)(?:\x60\x60\x60)`
      input   `(?m)-\s+(\w+)\s*$`
*/
module Patterns {
  import opened Common
  import opened Text

  /** Captures of the header pattern from index `k` on. The leading `\s*` never
      changes the capture: the match found is the next `### ` anywhere in a
      line (so also the last three marks of `####` and text inside a fenced
      body), and `(.*)$` takes the rest of that line, `\r` included. */
  function HeaderCaptures(t: string, k: nat): (caps: seq<string>)
    requires k <= |t|
    ensures forall i :: 0 <= i < |caps| ==> '\n' !in caps[i]
    decreases |t| - k
  {
    if k == |t| then []
    else if StartsAt(t, "### ", k) then
      var e := LineEnd(t, k + 4);
      [t[k + 4..e]] + HeaderCaptures(t, e)
    else HeaderCaptures(t, k + 1)
  }

  /** A match: its capture and the index where the match ends. */
  datatype Hit = Hit(capture: string, end: nat)

  /** The largest `x` in `[lo, hi)` with `t[x] == '\n'`. */
  function LastNewline(t: string, lo: nat, hi: nat): (r: Option<nat>)
    requires lo <= hi <= |t|
    ensures r.Some? ==> lo <= r.value < hi && t[r.value] == '\n'
    ensures forall x :: (if r.Some? then r.value + 1 else lo) <= x < hi ==> t[x] != '\n'
    decreases hi - lo
  {
    if hi == lo then None
    else if t[hi - 1] == '\n' then Some(hi - 1)
    else LastNewline(t, lo, hi - 1)
  }

  /** The input pattern tried at index `k`: `-`, a run of `\s`, a `\w` word
      (the capture), then as much `\s` as still leaves the match at the end of
      a line or of the text. */
  function InputMatchAt(b: string, k: nat): (m: Option<Hit>)
    requires k <= |b|
    ensures m.Some? ==> k < m.value.end <= |b| && IsWord(m.value.capture)
  {
    if k < |b| && b[k] == '-' then
      var j := SkipSpace(b, k + 1);
      var w := SkipWord(b, j);
      if j == k + 1 || w == j then None
      else
        var e := SkipSpace(b, w);
        if e == |b| then Some(Hit(b[j..w], e))
        else match LastNewline(b, w, e)
          case None => None
          case Some(x) => Some(Hit(b[j..w], x))
    else None
  }

  /** Captures of the input pattern from index `k` on: the declared names of
      an `INPUTS:` block, each a `\w` word. */
  function InputCaptures(b: string, k: nat): (caps: seq<string>)
    requires k <= |b|
    ensures forall i :: 0 <= i < |caps| ==> IsWord(caps[i])
    decreases |b| - k
  {
    if k == |b| then []
    else match InputMatchAt(b, k)
      case Some(h) => [h.capture] + InputCaptures(b, h.end)
      case None => InputCaptures(b, k + 1)
  }

  /** One item line `- word\n` at index `q`: the index after its newline. */
  function ItemEnd(t: string, q: nat): (r: Option<nat>)
    requires q <= |t|
    ensures r.Some? ==> q < r.value <= |t|
  {
    if StartsAt(t, "- ", q) then
      var w := SkipWord(t, q + 2);
      if w > q + 2 && w < |t| && t[w] == '\n' then Some(w + 1) else None
    else None
  }

  /** The end of the longest run of item lines from index `q`. */
  function ItemsEnd(t: string, q: nat): (e: nat)
    requires q <= |t|
    ensures q <= e <= |t|
    decreases |t| - q
  {
    match ItemEnd(t, q)
    case Some(e) => ItemsEnd(t, e)
    case None => q
  }

  /** One `INPUTS:\n` block with at least one item line at index `q`: its end. */
  function BlockEnd(t: string, q: nat): (r: Option<nat>)
    requires q <= |t|
    ensures r.Some? ==> q < r.value <= |t|
  {
    if StartsAt(t, "INPUTS:\n", q) && ItemsEnd(t, q + 8) > q + 8 then Some(ItemsEnd(t, q + 8)) else None
  }

  /** The repeated first group from index `q`, taken as often as it matches:
      the text of its last repetition (Go reports the last one) and where the
      repetitions end. */
  function Blocks(t: string, q: nat, last: string): (r: Hit)
    requires q <= |t|
    ensures q <= r.end <= |t|
    decreases |t| - q
  {
    match BlockEnd(t, q)
    case Some(e) => Blocks(t, e, t[q..e])
    case None => Hit(last, q)
  }

  /** The two captures of the body pattern: the `INPUTS:` block (empty when
      there is none) and the text between the fence line's language tag and
      the closing fence. */
  datatype BodyMatch = BodyMatch(inputs: string, body: string)

  /** The body pattern tried at index `k`. */
  function BodyMatchAt(t: string, k: nat): (r: Option<(BodyMatch, nat)>)
    requires k <= |t|
    ensures r.Some? ==> k < r.value.1 <= |t|
  {
    var blocks := Blocks(t, k, "");
    if StartsAt(t, "```", blocks.end) then
      var r := SkipWord(t, blocks.end + 3);
      match IndexOf(t, "```", r)
      case None => None
      case Some(c) => Some((BodyMatch(blocks.capture, t[r..c]), c + 3))
    else None
  }

  /** Captures of the body pattern from index `k` on; each match consumes at
      least one character, so there are at most as many as characters left. */
  function BodyCaptures(t: string, k: nat): (caps: seq<BodyMatch>)
    requires k <= |t|
    ensures |caps| <= |t| - k
    decreases |t| - k
  {
    if k == |t| then []
    else match BodyMatchAt(t, k)
      case Some(m) => [m.0] + BodyCaptures(t, m.1)
      case None => BodyCaptures(t, k + 1)
  }

  // ----- An INPUTS block written out from its names -----

  /** The item lines `- w\n` for each name, in order. */
  function ItemLines(ws: seq<string>): string
  {
    if ws == [] then [] else "- " + ws[0] + "\n" + ItemLines(ws[1..])
  }

  /** The `INPUTS:` block that declares the names `ws`. */
  function InputsBlock(ws: seq<string>): string
  {
    "INPUTS:\n" + ItemLines(ws)
  }

  lemma {:induction false} SkipWordExact(t: string, a: nat, e: nat)
    requires a <= e <= |t|
    requires forall i :: a <= i < e ==> IsWordChar(t[i])
    requires e == |t| || !IsWordChar(t[e])
    ensures SkipWord(t, a) == e
    decreases e - a
  {
    if a < e {
      SkipWordExact(t, a + 1, e);
    }
  }

  /** No `-` in `b` from `k` up to `p`. */
  predicate NoDashIn(b: string, k: nat, p: nat)
    requires p <= |b|
  {
    forall i :: k <= i < p ==> b[i] != '-'
  }

  /** A position holding no `-` starts no input match. */
  lemma NoInputAt(b: string, k: nat)
    requires k < |b| && b[k] != '-'
    ensures InputCaptures(b, k) == InputCaptures(b, k + 1)
  {
    assert InputMatchAt(b, k) == None;
  }

  /** Positions holding no `-` start no input match. */
  lemma {:induction false} InputCapturesSkip(b: string, k: nat, p: nat)
    requires k <= p <= |b| && NoDashIn(b, k, p)
    ensures InputCaptures(b, k) == InputCaptures(b, p)
    decreases p - k
  {
    if k < p {
      NoInputAt(b, k);
      InputCapturesSkip(b, k + 1, p);
    }
  }

  /** A slice of a slice is a slice. */
  lemma SubSlice(b: string, p: nat, q: nat, i: nat, j: nat)
    requires p <= q <= |b| && i <= j <= q - p
    ensures b[p..q][i..j] == b[p + i..p + j]
  {
    forall k | 0 <= k < j - i ensures b[p..q][i..j][k] == b[p + i..p + j][k] {
    }
  }

  /** The suffix of a suffix. */
  lemma SuffixAt(b: string, p: nat, x: string, k: nat, q: nat)
    requires p <= |b| && b[p..] == x && k <= |x| && q == p + k
    ensures b[q..] == x[k..]
  {
    assert b[q..] == b[p..][k..];
  }

  /** The parts of an item line `- w\n` followed by `tail`. */
  lemma ItemLineShape(w: string, tail: string)
    ensures var s, L := "- " + w + "\n" + tail, |w|;
      && |s| == 3 + L + |tail|
      && s[0] == '-' && s[1] == ' ' && s[2 + L] == '\n'
      && s[..2] == "- " && s[2..2 + L] == w && s[3 + L..] == tail
  {
  }

  /** The parts of the first item line of `ItemLines(ws)`. */
  lemma ItemLinesShape(ws: seq<string>)
    requires ws != []
    ensures var s, L := ItemLines(ws), |ws[0]|;
      && |s| == 3 + L + |ItemLines(ws[1..])|
      && s[0] == '-' && s[1] == ' ' && s[2 + L] == '\n'
      && s[..2] == "- " && s[2..2 + L] == ws[0] && s[3 + L..] == ItemLines(ws[1..])
      && (ItemLines(ws[1..]) == [] <==> ws[1..] == [])
      && (ws[1..] != [] ==> s[3 + L] == '-')
  {
    var tail := ItemLines(ws[1..]);
    ItemLineShape(ws[0], tail);
    if ws[1..] != [] {
      ItemLineShape(ws[1..][0], ItemLines(ws[1..][1..]));
    }
  }

  /** An item line `- w\n` followed by `tail` standing in `b` at index `p`. */
  lemma ItemLineAt(b: string, p: nat, w: string, tail: string)
    requires p + 3 + |w| + |tail| <= |b| && b[p..p + 3 + |w| + |tail|] == "- " + w + "\n" + tail
    ensures b[p] == '-' && b[p + 1] == ' ' && b[p + 2 + |w|] == '\n'
    ensures StartsAt(b, "- ", p)
    ensures b[p + 2..p + 2 + |w|] == w
    ensures b[p + 3 + |w|..p + 3 + |w| + |tail|] == tail
  {
    var n, L := 3 + |w| + |tail|, |w|;
    ItemLineShape(w, tail);
    SubSlice(b, p, p + n, 0, 2);
    SubSlice(b, p, p + n, 2, 2 + L);
    SubSlice(b, p, p + n, 3 + L, n);
    assert b[p] == b[p..p + n][0] && b[p + 1] == b[p..p + n][1] && b[p + 2 + L] == b[p..p + n][2 + L];
  }

  /** The first item line of `ItemLines(ws)` standing in `b` at index `p`,
      read character by character. */
  lemma ItemLinesHead(b: string, p: nat, ws: seq<string>)
    requires ws != [] && p + |ItemLines(ws)| <= |b| && b[p..p + |ItemLines(ws)|] == ItemLines(ws)
    ensures |ItemLines(ws)| == 3 + |ws[0]| + |ItemLines(ws[1..])|
    ensures b[p] == '-' && b[p + 1] == ' ' && b[p + 2 + |ws[0]|] == '\n'
    ensures StartsAt(b, "- ", p)
    ensures b[p + 2..p + 2 + |ws[0]|] == ws[0]
    ensures b[p + 3 + |ws[0]|..p + |ItemLines(ws)|] == ItemLines(ws[1..])
    ensures ItemLines(ws[1..]) == [] <==> ws[1..] == []
    ensures ws[1..] != [] ==> b[p + 3 + |ws[0]|] == '-'
  {
    ItemLinesShape(ws);
    ItemLineAt(b, p, ws[0], ItemLines(ws[1..]));
    if ws[1..] != [] {
      var L := |ws[0]|;
      assert b[p + 3 + L] == ItemLines(ws[1..])[0];
    }
  }

  /** The input pattern at an item line `- w\n` followed by the end of the text
      or by the next item: it captures `w` and ends at the newline, or at the
      end of the text when no item follows. */
  lemma ItemMatch(b: string, p: nat, w: string, n: nat)
    requires IsWord(w) && n == p + 2 + |w| < |b|
    requires b[p] == '-' && b[p + 1] == ' ' && b[n] == '\n'
    requires b[p + 2..p + 2 + |w|] == w
    requires n + 1 == |b| || b[n + 1] == '-'
    ensures n + 1 == |b| ==> InputMatchAt(b, p) == Some(Hit(w, |b|))
    ensures n + 1 < |b| ==> InputMatchAt(b, p) == Some(Hit(w, n))
  {
    var L := |w|;
    assert b[p + 2] == w[0];
    assert SkipSpace(b, p + 1) == p + 2;
    forall i | p + 2 <= i < p + 2 + L ensures IsWordChar(b[i]) {
      assert b[i] == w[i - p - 2];
    }
    SkipWordExact(b, p + 2, p + 2 + L);
    if p + 3 + L < |b| {
      assert SkipSpace(b, p + 2 + L) == p + 3 + L;
      assert LastNewline(b, p + 2 + L, p + 3 + L) == Some(p + 2 + L);
    }
  }

  /** A capture that runs to the end of the text is the last one. */
  lemma CaptureAtEnd(b: string, p: nat, w: string)
    requires p < |b| && InputMatchAt(b, p) == Some(Hit(w, |b|))
    ensures InputCaptures(b, p) == [w]
  {
  }

  /** A capture that stops at a newline: the scan goes on after it. */
  lemma CaptureThenNewline(b: string, p: nat, w: string, n: nat, next: nat)
    requires p < n < |b| && b[n] == '\n' && next == n + 1
    requires InputMatchAt(b, p) == Some(Hit(w, n))
    ensures InputCaptures(b, p) == [w] + InputCaptures(b, next)
  {
    assert InputMatchAt(b, n) == None;
  }

  /** The first of the item lines at the end of the text: its name is
      captured, and the rest of the lines follow its newline. */
  lemma ItemLinesStep(b: string, p: nat, ws: seq<string>, next: nat)
    requires ws != [] && p <= |b| && b[p..] == ItemLines(ws)
    requires IsWord(ws[0]) && next == p + 3 + |ws[0]|
    ensures next <= |b| && b[next..] == ItemLines(ws[1..])
    ensures InputCaptures(b, p) == [ws[0]] + InputCaptures(b, next)
  {
    var w := ws[0];
    var n := p + 2 + |w|;
    assert b[p..p + |ItemLines(ws)|] == ItemLines(ws);
    ItemLinesHead(b, p, ws);
    ItemMatch(b, p, w, n);
    ItemLinesShape(ws);
    SuffixAt(b, p, ItemLines(ws), 3 + |w|, next);
    if ws[1..] == [] {
      CaptureAtEnd(b, p, w);
    } else {
      CaptureThenNewline(b, p, w, n, next);
    }
  }

  /** Item lines at the end of the text are captured name by name. */
  lemma {:induction false} ItemLinesCaptured(b: string, p: nat, ws: seq<string>)
    requires p <= |b| && b[p..] == ItemLines(ws)
    requires forall i :: 0 <= i < |ws| ==> IsWord(ws[i])
    ensures InputCaptures(b, p) == ws
    decreases |ws|
  {
    if ws == [] {
      assert p == |b|;
    } else {
      var next := p + 3 + |ws[0]|;
      ItemLinesStep(b, p, ws, next);
      ItemLinesCaptured(b, next, ws[1..]);
      assert ws == [ws[0]] + ws[1..];
    }
  }

  /** Round trip: the input pattern reads back, in order, exactly the names an
      `INPUTS:` block declares. */
  lemma InputsBlockRoundTrip(ws: seq<string>)
    requires forall i :: 0 <= i < |ws| ==> IsWord(ws[i])
    ensures InputCaptures(InputsBlock(ws), 0) == ws
  {
    var b := InputsBlock(ws);
    assert b[..8] == "INPUTS:\n";
    InputCapturesSkip(b, 0, 8);
    assert b[8..] == ItemLines(ws);
    ItemLinesCaptured(b, 8, ws);
  }
}

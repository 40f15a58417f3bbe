/** Markdown snippet files written out from their entries, and what the three
    patterns of `parseContent` (cmd/snippet/snippet.go) read back from them:
    one snippet per entry, in document order, with its declared input names
    and its trimmed body. */
module Documents {
  import opened Common
  import opened Text
  import opened Patterns
  import opened Snippets

  /** One snippet as an author writes it: a `### name` header line, an
      optional `INPUTS:` block, and a fenced body with an optional language tag. */
  datatype Entry = Entry(name: string, inputs: seq<string>, lang: string, body: string)

  /** The `INPUTS:` block of an entry; absent when it declares no names. */
  function Block(ws: seq<string>): string
  {
    if ws == [] then [] else InputsBlock(ws)
  }

  /** The `### name` line that opens an entry. */
  function TitleLine(name: string): string
  {
    "### " + name + "\n"
  }

  /** The fenced body of an entry, with its language tag and closing line. */
  function Fenced(lang: string, body: string): string
  {
    "```" + lang + body + "```\n"
  }

  function EntryText(e: Entry): string
  {
    TitleLine(e.name) + Block(e.inputs) + Fenced(e.lang, e.body)
  }

  /** The entries one after the other. */
  function Document(es: seq<Entry>): string
  {
    if es == [] then [] else EntryText(es[0]) + Document(es[1..])
  }

  /** The header name is one line without a fence mark. */
  predicate NameOk(e: Entry)
  {
    '\n' !in e.name && '`' !in e.name
  }

  /** The declared inputs are `\w` words. */
  predicate InputsOk(e: Entry)
  {
    forall i :: 0 <= i < |e.inputs| ==> IsWord(e.inputs[i])
  }

  /** The language tag is `\w` characters. */
  predicate LangOk(e: Entry)
  {
    forall i :: 0 <= i < |e.lang| ==> IsWordChar(e.lang[i])
  }

  /** The body does not continue the language tag and holds neither a fence
      nor a `### ` of its own. */
  predicate BodyOk(e: Entry)
  {
    && (e.body == [] || !IsWordChar(e.body[0]))
    && (forall i :: 0 <= i < |e.body| ==> !StartsAt(e.body, "```", i))
    && (e.body == [] || e.body[|e.body| - 1] != '`')
    && (forall i :: 0 <= i < |e.body| ==> !StartsAt(e.body, "### ", i))
  }

  /** An entry the patterns read back as written. */
  predicate WellFormed(e: Entry)
  {
    NameOk(e) && InputsOk(e) && LangOk(e) && BodyOk(e)
  }

  /** The snippet an entry stands for. */
  function Expected(e: Entry): Snippet
  {
    Snippet(e.name, Trim(e.body, Blanks), e.inputs)
  }

  function Names(es: seq<Entry>): seq<string>
  {
    if es == [] then [] else [es[0].name] + Names(es[1..])
  }

  function Matches(es: seq<Entry>): seq<BodyMatch>
  {
    if es == [] then [] else [BodyMatch(Block(es[0].inputs), es[0].body)] + Matches(es[1..])
  }

  // ----- Offsets inside one entry's text -----

  /** The newline ending the header line. */
  function NameEnd(e: Entry): nat { 4 + |e.name| }

  /** The length of the `INPUTS:` block that declares `ws`. */
  function BlockLen(ws: seq<string>): nat
  {
    if ws == [] then 0 else 8 + ItemLinesLen(ws)
  }

  function ItemLinesLen(ws: seq<string>): nat
  {
    if ws == [] then 0 else 3 + |ws[0]| + ItemLinesLen(ws[1..])
  }

  lemma {:induction false} ItemLinesLength(ws: seq<string>)
    ensures |ItemLines(ws)| == ItemLinesLen(ws)
    decreases |ws|
  {
    if ws != [] {
      ItemLinesLength(ws[1..]);
    }
  }

  lemma BlockLength(ws: seq<string>)
    ensures |Block(ws)| == BlockLen(ws)
  {
    ItemLinesLength(ws);
  }

  /** The opening fence. */
  function FenceAt(e: Entry): nat { 5 + |e.name| + BlockLen(e.inputs) }

  /** The first character of the body. */
  function BodyAt(e: Entry): nat { FenceAt(e) + 3 + |e.lang| }

  /** The closing fence. */
  function CloseAt(e: Entry): nat { BodyAt(e) + |e.body| }

  lemma SplitAt(t: string, s: nat, x: string, y: string)
    requires s + |x + y| <= |t| && t[s..s + |x + y|] == x + y
    ensures t[s..s + |x|] == x && t[s + |x|..s + |x| + |y|] == y
  {
    assert t[s..s + |x|] == t[s..s + |x + y|][..|x|];
    assert t[s + |x|..s + |x| + |y|] == t[s..s + |x + y|][|x|..];
  }

  /** `t` holds `x` at index `a`, character by character. */
  lemma SliceChars(t: string, a: nat, x: string)
    requires a + |x| <= |t| && t[a..a + |x|] == x
    ensures forall i :: a <= i < a + |x| ==> t[i] == x[i - a]
  {
    forall i | a <= i < a + |x| ensures t[i] == x[i - a] {
      assert t[i] == t[a..a + |x|][i - a];
    }
  }

  /** The text of entry `e` stands in `t` at index `s`. */
  predicate EntryAt(t: string, s: nat, e: Entry)
  {
    s + |EntryText(e)| <= |t| && t[s..s + |EntryText(e)|] == EntryText(e)
  }

  /** The header line of entry `e` stands in `t` at index `s`. */
  predicate HeaderLaid(t: string, s: nat, e: Entry)
  {
    && s + NameEnd(e) < |t|
    && t[s..s + 4] == "### "
    && t[s + 4..s + NameEnd(e)] == e.name
    && t[s + NameEnd(e)] == '\n'
  }

  /** The `INPUTS:` block of entry `e`, when entry `e` starts at `s`. */
  predicate BlockLaid(t: string, s: nat, e: Entry)
  {
    s + FenceAt(e) <= |t| && t[s + NameEnd(e) + 1..s + FenceAt(e)] == Block(e.inputs)
  }

  /** The opening fence and the language tag. */
  predicate FenceLaid(t: string, s: nat, e: Entry)
  {
    && s + BodyAt(e) <= |t|
    && t[s + FenceAt(e)..s + FenceAt(e) + 3] == "```"
    && t[s + FenceAt(e) + 3..s + BodyAt(e)] == e.lang
  }

  /** The body and the closing fence line. */
  predicate BodyLaid(t: string, s: nat, e: Entry)
  {
    && s + CloseAt(e) + 4 <= |t|
    && t[s + BodyAt(e)..s + CloseAt(e)] == e.body
    && t[s + CloseAt(e)..s + CloseAt(e) + 4] == "```\n"
  }

  /** The parts of entry `e` stand in `t` from index `s`. */
  predicate Laid(t: string, s: nat, e: Entry)
  {
    HeaderLaid(t, s, e) && BlockLaid(t, s, e) && FenceLaid(t, s, e) && BodyLaid(t, s, e)
  }

  /** Where each part of an entry sits when the entry is found at `s`. */
  lemma TitleLaid(t: string, s: nat, name: string)
    requires s + |name| + 5 <= |t| && t[s..s + |name| + 5] == TitleLine(name)
    ensures t[s..s + 4] == "### " && t[s + 4..s + 4 + |name|] == name && t[s + 4 + |name|] == '\n'
  {
    SplitAt(t, s, "### " + name, "\n");
    SplitAt(t, s, "### ", name);
    assert t[s + 4 + |name|] == t[s + 4 + |name|..s + 5 + |name|][0];
  }

  lemma FencedLaid(t: string, f: nat, lang: string, body: string)
    requires f + |lang| + |body| + 7 <= |t| && t[f..f + |lang| + |body| + 7] == Fenced(lang, body)
    ensures t[f..f + 3] == "```" && t[f + 3..f + 3 + |lang|] == lang
    ensures t[f + 3 + |lang|..f + 3 + |lang| + |body|] == body
    ensures t[f + 3 + |lang| + |body|..f + 7 + |lang| + |body|] == "```\n"
  {
    SplitAt(t, f, "```" + lang + body, "```\n");
    SplitAt(t, f, "```" + lang, body);
    SplitAt(t, f, "```", lang);
  }

  /** The three parts of entry `e` when it stands at `s`. */
  lemma EntryParts(t: string, s: nat, e: Entry)
    requires EntryAt(t, s, e)
    ensures |EntryText(e)| == CloseAt(e) + 4
    ensures t[s..s + NameEnd(e) + 1] == TitleLine(e.name)
    ensures BlockLaid(t, s, e)
    ensures t[s + FenceAt(e)..s + CloseAt(e) + 4] == Fenced(e.lang, e.body)
  {
    BlockLength(e.inputs);
    SplitAt(t, s, TitleLine(e.name) + Block(e.inputs), Fenced(e.lang, e.body));
    SplitAt(t, s, TitleLine(e.name), Block(e.inputs));
  }

  /** Where each part of an entry sits when the entry is found at `s`. */
  lemma EntryLayout(t: string, s: nat, e: Entry)
    requires EntryAt(t, s, e)
    ensures |EntryText(e)| == CloseAt(e) + 4
    ensures Laid(t, s, e)
  {
    EntryParts(t, s, e);
    TitleLaid(t, s, e.name);
    FencedLaid(t, s + FenceAt(e), e.lang, e.body);
  }

  // ----- The header pattern -----

  /** No `### ` starts in `[k, p)`. */
  predicate NoHeaderIn(t: string, k: nat, p: nat)
  {
    forall i :: k <= i < p ==> !StartsAt(t, "### ", i)
  }

  lemma {:induction false} HeaderSkip(t: string, k: nat, p: nat)
    requires k <= p <= |t|
    requires NoHeaderIn(t, k, p)
    ensures HeaderCaptures(t, k) == HeaderCaptures(t, p)
    decreases p - k
  {
    if k < p {
      HeaderSkip(t, k + 1, p);
    }
  }

  /** `x` holds neither a `#` nor a fence mark. */
  predicate NoMarks(x: string)
  {
    forall i :: 0 <= i < |x| ==> x[i] != '#' && x[i] != '`'
  }

  lemma NoMarksConcat(x: string, y: string)
    requires NoMarks(x) && NoMarks(y)
    ensures NoMarks(x + y)
  {
    forall i | 0 <= i < |x + y| ensures (x + y)[i] != '#' && (x + y)[i] != '`' {
      if i < |x| {
        assert (x + y)[i] == x[i];
      } else {
        assert (x + y)[i] == y[i - |x|];
      }
    }
  }

  /** Item lines hold neither a `#` nor a fence mark. */
  lemma {:induction false} ItemLinesChars(ws: seq<string>)
    requires forall i :: 0 <= i < |ws| ==> IsWord(ws[i])
    ensures NoMarks(ItemLines(ws))
    decreases |ws|
  {
    if ws != [] {
      ItemLinesChars(ws[1..]);
      var head := "- " + ws[0] + "\n";
      forall i | 0 <= i < |head| ensures head[i] != '#' && head[i] != '`' {
        if 2 <= i < 2 + |ws[0]| {
          assert head[i] == ws[0][i - 2];
        }
      }
      NoMarksConcat(head, ItemLines(ws[1..]));
      assert ItemLines(ws) == head + ItemLines(ws[1..]);
    }
  }

  /** Neither an `INPUTS:` block nor its items hold a `#` or a fence mark. */
  lemma BlockChars(ws: seq<string>)
    requires forall i :: 0 <= i < |ws| ==> IsWord(ws[i])
    ensures NoMarks(Block(ws))
  {
    if ws != [] {
      ItemLinesChars(ws);
      assert NoMarks("INPUTS:\n");
      NoMarksConcat("INPUTS:\n", ItemLines(ws));
    }
  }

  /** No `### ` starts where there is no `#`. */
  lemma NoHeaderWithoutHash(t: string, a: nat, b: nat)
    requires a <= b <= |t|
    requires forall i :: a <= i < b ==> t[i] != '#'
    ensures forall i :: a <= i < b ==> !StartsAt(t, "### ", i)
  {
    forall i | a <= i < b ensures !StartsAt(t, "### ", i) {
      if i + 4 <= |t| {
        assert t[i..i + 4][0] == t[i];
      }
    }
  }

  /** The `INPUTS:` block holds neither `#` nor a fence mark. */
  lemma BlockNoHash(t: string, s: nat, e: Entry, bs: nat, fs: nat)
    requires InputsOk(e) && BlockLaid(t, s, e)
    requires bs == s + NameEnd(e) + 1 && fs == s + FenceAt(e)
    ensures forall i :: bs <= i < fs ==> t[i] != '#' && t[i] != '`'
  {
    BlockLength(e.inputs);
    BlockChars(e.inputs);
    SliceChars(t, bs, Block(e.inputs));
  }

  /** The fence line up to the body holds no `#`. */
  lemma FenceNoHash(t: string, s: nat, e: Entry, fs: nat, ds: nat)
    requires LangOk(e) && FenceLaid(t, s, e)
    requires fs == s + FenceAt(e) && ds == s + BodyAt(e)
    ensures forall i :: fs <= i < ds ==> t[i] != '#'
  {
    SliceChars(t, fs, "```");
    SliceChars(t, fs + 3, e.lang);
  }

  /** No `### ` starts inside a text that holds none, where it stands in `t`. */
  lemma NoHeaderInside(t: string, a: nat, c: nat, x: string)
    requires c == a + |x| <= |t| && t[a..c] == x
    requires forall i :: 0 <= i < |x| ==> !StartsAt(x, "### ", i)
    ensures forall i :: a <= i && i + 4 <= c ==> !StartsAt(t, "### ", i)
  {
    forall i | a <= i && i + 4 <= c ensures !StartsAt(t, "### ", i) {
      SubSlice(t, a, c, i - a, i - a + 4);
      assert !StartsAt(x, "### ", i - a);
    }
  }

  /** No `### ` overlaps a closing fence line. */
  lemma NoHeaderAcross(t: string, c: nat)
    requires c + 4 <= |t| && t[c..c + 4] == "```\n"
    ensures forall i: nat :: i < c + 4 && c < i + 4 ==> !StartsAt(t, "### ", i)
  {
    SliceChars(t, c, "```\n");
    forall i: nat | i < c + 4 && c < i + 4 ensures !StartsAt(t, "### ", i) {
      if i + 4 <= |t| {
        var j := if i < c then c else i;
        assert t[i..i + 4][j - i] == t[j];
      }
    }
  }

  /** A header line `### name` at index `s` is one header capture. */
  lemma HeaderLine(t: string, s: nat, name: string, hs: nat)
    requires hs == s + 4 + |name| < |t| && t[s..s + 4] == "### " && '\n' !in name
    requires t[s + 4..hs] == name && t[hs] == '\n'
    ensures HeaderCaptures(t, s) == [name] + HeaderCaptures(t, hs)
  {
    assert StartsAt(t, "### ", s);
    SliceChars(t, s + 4, name);
    assert LineEnd(t, s + 4) == hs;
  }

  /** No `### ` starts after the header line of a well-formed entry. */
  lemma NoHeaderAfterName(t: string, s: nat, e: Entry, hs: nat, c: nat)
    requires WellFormed(e) && Laid(t, s, e)
    requires hs == s + NameEnd(e) && c == s + CloseAt(e) + 4
    ensures NoHeaderIn(t, hs, c)
  {
    var fs, ds, ce := s + FenceAt(e), s + BodyAt(e), s + CloseAt(e);
    BlockNoHash(t, s, e, hs + 1, fs);
    FenceNoHash(t, s, e, fs, ds);
    assert forall i :: hs <= i < ds ==> t[i] != '#';
    NoHeaderWithoutHash(t, hs, ds);
    NoHeaderInside(t, ds, ce, e.body);
    NoHeaderAcross(t, ce);
    forall i | hs <= i < c ensures !StartsAt(t, "### ", i) {
      if i < ds {
      } else if i + 4 <= ce {
      } else {
      }
    }
  }

  /** The header pattern reads one entry's name and then goes on after it. */
  lemma HeaderOfEntry(t: string, s: nat, e: Entry, c: nat)
    requires WellFormed(e) && Laid(t, s, e) && c == s + CloseAt(e) + 4
    ensures HeaderCaptures(t, s) == [e.name] + HeaderCaptures(t, c)
  {
    var hs := s + NameEnd(e);
    HeaderLine(t, s, e.name, hs);
    NoHeaderAfterName(t, s, e, hs, c);
    HeaderSkip(t, hs, c);
  }

  // ----- The body pattern -----

  /** No body match starts in `[k, p)`. */
  predicate NoBodyIn(t: string, k: nat, p: nat)
    requires p <= |t|
  {
    forall i :: k <= i < p ==> BodyMatchAt(t, i).None?
  }

  lemma {:induction false} BodySkip(t: string, k: nat, p: nat)
    requires k <= p <= |t|
    requires NoBodyIn(t, k, p)
    ensures BodyCaptures(t, k) == BodyCaptures(t, p)
    decreases p - k
  {
    if k < p {
      BodySkip(t, k + 1, p);
    }
  }

  /** Where no `INPUTS:` block starts, the repeated group matches nothing. */
  lemma NoBlocksAt(t: string, i: nat)
    requires i < |t| && t[i] != 'I'
    ensures Blocks(t, i, "") == Hit("", i)
  {
    assert !StartsAt(t, "INPUTS:\n", i);
  }

  /** A body match starts only at an `I` or at a fence mark. */
  lemma NoBodyAt(t: string, i: nat)
    requires i < |t| && t[i] != 'I' && t[i] != '`'
    ensures BodyMatchAt(t, i).None?
  {
    NoBlocksAt(t, i);
    assert !StartsAt(t, "```", i);
  }

  /** An `I` on a line whose next line does not start with `-` starts no body
      match: an `INPUTS:` there is followed by no item line. */
  lemma NoBodyAtLineI(t: string, i: nat, hs: nat)
    requires i < hs && hs + 1 < |t| && t[hs] == '\n' && t[hs + 1] != '-'
    requires t[i] == 'I' && forall j :: i <= j < hs ==> t[j] != '\n'
    ensures BodyMatchAt(t, i).None?
  {
    if StartsAt(t, "INPUTS:\n", i) {
      assert t[i + 7] == t[i..i + 8][7];
      assert t[i..i + 7] == "INPUTS:" by {
        assert t[i..i + 7] == t[i..i + 8][..7];
      }
      assert '\n' !in t[i..i + 7];
      forall m | i <= m < i + 7 ensures t[m] != '\n' {
        assert t[m] == t[i..i + 7][m - i];
      }
      assert i + 7 == hs;
      assert !StartsAt(t, "- ", hs + 1);
      assert ItemsEnd(t, i + 8) == i + 8;
    }
    assert Blocks(t, i, "") == Hit("", i);
    assert !StartsAt(t, "```", i);
  }

  /** The line after the header starts with `INPUTS:` or with the fence. */
  lemma AfterHeader(t: string, s: nat, e: Entry)
    requires InputsOk(e) && BlockLaid(t, s, e) && FenceLaid(t, s, e)
    ensures t[s + NameEnd(e) + 1] == 'I' || t[s + NameEnd(e) + 1] == '`'
  {
    var bs := s + NameEnd(e) + 1;
    if e.inputs == [] {
      SliceChars(t, s + FenceAt(e), "```");
    } else {
      SliceChars(t, bs, Block(e.inputs));
    }
  }

  /** No body match starts in the header line of a well-formed entry. */
  lemma NoBodyInHeader(t: string, s: nat, e: Entry, i: nat)
    requires NameOk(e) && HeaderLaid(t, s, e)
    requires s + NameEnd(e) + 1 < |t| && t[s + NameEnd(e) + 1] != '-'
    requires s <= i <= s + NameEnd(e)
    ensures BodyMatchAt(t, i).None?
  {
    var hs := s + NameEnd(e);
    SliceChars(t, s, "### ");
    SliceChars(t, s + 4, e.name);
    if s + 4 <= i < hs && t[i] == 'I' {
      NoBodyAtLineI(t, i, hs);
    } else {
      NoBodyAt(t, i);
    }
  }

  /** The first item line of `ItemLines(ws)` standing in `t` from `q` to `end`
      is one match of the item group, and the rest of the lines follow it. */
  lemma ItemLineEnd(t: string, q: nat, ws: seq<string>, end: nat, next: nat)
    requires ws != [] && IsWord(ws[0])
    requires end == q + |ItemLines(ws)| <= |t| && t[q..end] == ItemLines(ws)
    requires next == q + 3 + |ws[0]|
    ensures ItemEnd(t, q) == Some(next)
    ensures end == next + |ItemLines(ws[1..])| && t[next..end] == ItemLines(ws[1..])
  {
    var L := |ws[0]|;
    ItemLinesHead(t, q, ws);
    SliceChars(t, q + 2, ws[0]);
    SkipWordExact(t, q + 2, q + 2 + L);
  }

  /** Item lines followed by a character other than `-` are one run. */
  lemma {:induction false} ItemsEndOfLines(t: string, q: nat, ws: seq<string>, end: nat)
    requires forall i :: 0 <= i < |ws| ==> IsWord(ws[i])
    requires end == q + |ItemLines(ws)| < |t| && t[q..end] == ItemLines(ws)
    requires t[end] != '-'
    ensures ItemsEnd(t, q) == end
    decreases |ws|
  {
    if ws == [] {
      assert !StartsAt(t, "- ", q);
    } else {
      var next := q + 3 + |ws[0]|;
      ItemLineEnd(t, q, ws, end, next);
      ItemsEndOfLines(t, next, ws[1..], end);
    }
  }

  /** `t` holds `x + y` from `a` to `c`: it holds `x` up to `m` and `y` after. */
  lemma Halves(t: string, a: nat, m: nat, c: nat, x: string, y: string)
    requires m == a + |x| && c == m + |y| <= |t| && t[a..c] == x + y
    ensures t[a..m] == x && t[m..c] == y
  {
    assert t[a..m] == t[a..c][..|x|];
    assert t[m..c] == t[a..c][|x|..];
  }

  /** The repeated `INPUTS:` group at the start of an entry's block captures
      the block and ends at the opening fence. */
  lemma BlocksOfEntry(t: string, s: nat, e: Entry, bs: nat, fs: nat)
    requires InputsOk(e) && BlockLaid(t, s, e)
    requires bs == s + NameEnd(e) + 1 && fs == s + FenceAt(e)
    requires fs < |t| && t[fs] == '`'
    ensures Blocks(t, bs, "") == Hit(Block(e.inputs), fs)
  {
    NoBlocksAt(t, fs);
    BlockLength(e.inputs);
    if e.inputs != [] {
      var items := ItemLines(e.inputs);
      Halves(t, bs, bs + 8, fs, "INPUTS:\n", items);
      ItemsEndOfLines(t, bs + 8, e.inputs, fs);
      assert StartsAt(t, "INPUTS:\n", bs);
      assert BlockEnd(t, bs) == Some(fs);
    }
  }

  /** No fence starts inside a body that holds none and does not end with a
      fence mark, where it stands in `t`. */
  lemma NoFenceInside(t: string, a: nat, c: nat, x: string)
    requires c == a + |x| <= |t| && t[a..c] == x
    requires forall i :: 0 <= i < |x| ==> !StartsAt(x, "```", i)
    requires x == [] || x[|x| - 1] != '`'
    ensures forall i :: a <= i < c ==> !StartsAt(t, "```", i)
  {
    forall i | a <= i < c ensures !StartsAt(t, "```", i) {
      if i + 3 <= c {
        SubSlice(t, a, c, i - a, i - a + 3);
        assert !StartsAt(x, "```", i - a);
      } else if i + 3 <= |t| {
        assert t[c - 1] == x[|x| - 1] by {
          assert t[c - 1] == t[a..c][|x| - 1];
        }
        assert t[i..i + 3][c - 1 - i] == t[c - 1];
        assert "```"[c - 1 - i] == '`';
        assert t[i..i + 3] != "```";
      }
    }
  }

  lemma {:induction false} IndexOfExact(t: string, pat: string, k: nat, c: nat)
    requires k <= c && StartsAt(t, pat, c)
    requires forall i :: k <= i < c ==> !StartsAt(t, pat, i)
    ensures IndexOf(t, pat, k) == Some(c)
    decreases c - k
  {
    if k < c {
      IndexOfExact(t, pat, k + 1, c);
    }
  }

  /** The language tag ends where the body starts. */
  lemma TagEnd(t: string, s: nat, e: Entry, fs: nat, ds: nat)
    requires LangOk(e) && BodyOk(e) && FenceLaid(t, s, e) && BodyLaid(t, s, e)
    requires fs == s + FenceAt(e) && ds == s + BodyAt(e)
    ensures SkipWord(t, fs + 3) == ds
  {
    SliceChars(t, s + FenceAt(e) + 3, e.lang);
    if e.body == [] {
      SliceChars(t, s + CloseAt(e), "```\n");
    } else {
      SliceChars(t, ds, e.body);
    }
    SkipWordExact(t, s + FenceAt(e) + 3, ds);
  }

  /** The body pattern at index `bs`, given what its parts match there. */
  lemma BodyMatchFrom(t: string, bs: nat, fs: nat, ds: nat, ce: nat, block: string, body: string)
    requires bs <= |t| && Blocks(t, bs, "") == Hit(block, fs)
    requires StartsAt(t, "```", fs)
    requires SkipWord(t, fs + 3) == ds
    requires IndexOf(t, "```", ds) == Some(ce)
    requires t[ds..ce] == body
    ensures BodyMatchAt(t, bs) == Some((BodyMatch(block, body), ce + 3))
  {
    var blocks := Blocks(t, bs, "");
    assert blocks.end == fs && blocks.capture == block;
    assert SkipWord(t, blocks.end + 3) == ds;
  }

  /** The opening and the closing fence of an entry. */
  lemma EntryFences(t: string, s: nat, e: Entry, fs: nat, ce: nat)
    requires FenceLaid(t, s, e) && BodyLaid(t, s, e)
    requires fs == s + FenceAt(e) && ce == s + CloseAt(e)
    ensures StartsAt(t, "```", fs) && t[fs] == '`' && StartsAt(t, "```", ce)
    ensures ce + 4 <= |t| && t[ce + 3] == '\n'
  {
    assert "```\n" == "```" + "\n";
    SplitAt(t, ce, "```", "\n");
    assert t[ce + 3] == t[ce + 3..ce + 4][0];
    assert t[fs] == t[fs..fs + 3][0];
  }

  /** The lazy body capture of an entry stops at its closing fence. */
  lemma ClosingFence(t: string, s: nat, e: Entry, ds: nat, ce: nat)
    requires BodyOk(e) && FenceLaid(t, s, e) && BodyLaid(t, s, e)
    requires ds == s + BodyAt(e) && ce == s + CloseAt(e)
    ensures IndexOf(t, "```", ds) == Some(ce) && t[ds..ce] == e.body
  {
    EntryFences(t, s, e, s + FenceAt(e), ce);
    NoFenceInside(t, ds, ce, e.body);
    IndexOfExact(t, "```", ds, ce);
  }

  /** No match before `bs`, a match at `bs` ending just before a newline: the
      scan from `k` yields that match and goes on after the newline. */
  lemma BodyThenNewline(t: string, k: nat, bs: nat, m: BodyMatch, c: nat, next: nat)
    requires k <= bs <= c < |t| && t[c] == '\n' && next == c + 1
    requires NoBodyIn(t, k, bs)
    requires BodyMatchAt(t, bs) == Some((m, c))
    ensures BodyCaptures(t, k) == [m] + BodyCaptures(t, next)
  {
    BodySkip(t, k, bs);
    NoBodyAt(t, c);
  }

  /** No body match before `bs`, then one made of the given parts and ending
      just before a newline: the scan from `s` yields that match and goes on
      after the newline. */
  lemma BodyOfParts(t: string, s: nat, bs: nat, fs: nat, ds: nat, ce: nat, next: nat, block: string, body: string)
    requires s <= bs <= |t| && NoBodyIn(t, s, bs)
    requires Blocks(t, bs, "") == Hit(block, fs)
    requires StartsAt(t, "```", fs)
    requires SkipWord(t, fs + 3) == ds
    requires IndexOf(t, "```", ds) == Some(ce)
    requires t[ds..ce] == body
    requires next == ce + 4 <= |t| && t[ce + 3] == '\n'
    ensures BodyCaptures(t, s) == [BodyMatch(block, body)] + BodyCaptures(t, next)
  {
    BodyMatchFrom(t, bs, fs, ds, ce, block, body);
    BodyThenNewline(t, s, bs, BodyMatch(block, body), ce + 3, next);
  }

  /** No body match starts in the header line of a well-formed entry. */
  lemma NoBodyBeforeBlock(t: string, s: nat, e: Entry, bs: nat)
    requires WellFormed(e) && Laid(t, s, e) && bs == s + NameEnd(e) + 1
    ensures s < bs <= |t| && NoBodyIn(t, s, bs)
  {
    AfterHeader(t, s, e);
    forall i | s <= i < s + NameEnd(e) + 1 ensures BodyMatchAt(t, i).None? {
      NoBodyInHeader(t, s, e, i);
    }
  }

  /** The body pattern reads one entry's match and then goes on after it. */
  lemma BodyOfEntry(t: string, s: nat, e: Entry, next: nat)
    requires WellFormed(e) && Laid(t, s, e) && next == s + CloseAt(e) + 4
    ensures BodyCaptures(t, s) == [BodyMatch(Block(e.inputs), e.body)] + BodyCaptures(t, next)
  {
    var bs, fs, ds, ce := s + NameEnd(e) + 1, s + FenceAt(e), s + BodyAt(e), s + CloseAt(e);
    NoBodyBeforeBlock(t, s, e, bs);
    EntryFences(t, s, e, fs, ce);
    BlocksOfEntry(t, s, e, bs, fs);
    TagEnd(t, s, e, fs, ds);
    ClosingFence(t, s, e, ds, ce);
    BodyOfParts(t, s, bs, fs, ds, ce, next, Block(e.inputs), e.body);
  }

  // ----- Whole documents -----

  lemma {:induction false} DocumentCaptures(t: string, s: nat, es: seq<Entry>)
    requires forall i :: 0 <= i < |es| ==> WellFormed(es[i])
    requires s <= |t| && t[s..] == Document(es)
    ensures HeaderCaptures(t, s) == Names(es)
    ensures BodyCaptures(t, s) == Matches(es)
    decreases |es|
  {
    if es != [] {
      var x := EntryText(es[0]);
      var rest := Document(es[1..]);
      assert t[s..] == x + rest;
      assert EntryAt(t, s, es[0]) by {
        assert t[s..s + |x|] == t[s..][..|x|];
      }
      assert t[s + |x|..] == rest by {
        assert t[s + |x|..] == t[s..][|x|..];
      }
      EntryLayout(t, s, es[0]);
      HeaderOfEntry(t, s, es[0], s + |x|);
      BodyOfEntry(t, s, es[0], s + |x|);
      DocumentCaptures(t, s + |x|, es[1..]);
    }
  }

  lemma {:induction false} NamesLength(es: seq<Entry>)
    ensures |Names(es)| == |es| && forall i :: 0 <= i < |es| ==> Names(es)[i] == es[i].name
    decreases |es|
  {
    if es != [] {
      NamesLength(es[1..]);
    }
  }

  lemma {:induction false} MatchesLength(es: seq<Entry>)
    ensures |Matches(es)| == |es|
    ensures forall i :: 0 <= i < |es| ==> Matches(es)[i] == BodyMatch(Block(es[i].inputs), es[i].body)
    decreases |es|
  {
    if es != [] {
      MatchesLength(es[1..]);
    }
  }

  /** The snippet made from an entry's header and body match is the entry's. */
  lemma SnippetOfEntry(e: Entry)
    requires WellFormed(e)
    ensures MakeSnippet(e.name, BodyMatch(Block(e.inputs), e.body)) == Expected(e)
  {
    if e.inputs != [] {
      InputsBlockRoundTrip(e.inputs);
    }
    assert InputCaptures(Block(e.inputs), 0) == e.inputs;
    forall i | 0 <= i < |e.inputs| ensures Trim(e.inputs[i], Blanks) == e.inputs[i] {
      TrimWord(e.inputs[i]);
    }
  }

  /** A file of well-formed entries yields one snippet per entry, in document
      order, each with its declared inputs and its body trimmed of blanks, and
      no count-mismatch warning. */
  lemma DocumentRoundTrip(es: seq<Entry>, filename: string)
    requires forall i :: 0 <= i < |es| ==> WellFormed(es[i])
    ensures |FileSnippets(Document(es))| == |es|
    ensures forall i :: 0 <= i < |es| ==> FileSnippets(Document(es))[i] == Expected(es[i])
    ensures FileWarning(Document(es), filename) == None
  {
    var t := Document(es);
    DocumentCaptures(t, 0, es);
    NamesLength(es);
    MatchesLength(es);
    forall i | 0 <= i < |es| ensures FileSnippets(t)[i] == Expected(es[i]) {
      SnippetOfEntry(es[i]);
    }
  }
}

/** The snippet catalog of cmd/snippet/snippet.go: parsing one markdown file
    into snippets appended to the catalog (`parseContent`), the preview shown
    in the picker, and reading input values before rendering (`handleInputs`). */
module Snippets {
  import opened Common
  import opened Text
  import opened Patterns
  import Truncate

  /** One named block of text; `inputs` are bare names, there are no defaults. */
  datatype Snippet = Snippet(name: string, content: string, inputs: seq<string>)

  /** The two lines printed when a file's header and body counts differ. */
  datatype Warning = Warning(filename: string, headers: nat, snippets: nat)

  /** Go's built-in `min` on two counts. */
  function Min(a: nat, b: nat): (m: nat)
    ensures m <= a && m <= b && (m == a || m == b)
  {
    if a <= b then a else b
  }

  /** Every string of `xs` trimmed of the blanks `"\r\n\t "`. */
  function TrimEach(xs: seq<string>): (r: seq<string>)
    ensures |r| == |xs|
  {
    seq(|xs|, i requires 0 <= i < |xs| => Trim(xs[i], Blanks))
  }

  /** Trimming `\w` words changes none of them. */
  lemma TrimEachWords(xs: seq<string>)
    requires forall i :: 0 <= i < |xs| ==> IsWord(xs[i])
    ensures TrimEach(xs) == xs
  {
    forall i | 0 <= i < |xs| ensures TrimEach(xs)[i] == xs[i] {
      TrimWord(xs[i]);
    }
  }

  /** The snippet made from one header capture and one body match: the input
      names are the captured words as they are (trimming them is a no-op),
      and the content has no blank at either end. */
  function MakeSnippet(header: string, value: BodyMatch): (s: Snippet)
    ensures s.name == header
    ensures s.inputs == InputCaptures(value.inputs, 0)
    ensures s.content == [] || (s.content[0] !in Blanks && s.content[|s.content| - 1] !in Blanks)
  {
    TrimEachWords(InputCaptures(value.inputs, 0));
    TrimCharacterized(value.body, Blanks);
    Snippet(header, Trim(value.body, Blanks), TrimEach(InputCaptures(value.inputs, 0)))
  }

  /** The i-th header paired with the i-th body match, for as many pairs as
      the shorter list has. */
  function Paired(headers: seq<string>, values: seq<BodyMatch>): (r: seq<Snippet>)
    ensures |r| == Min(|headers|, |values|)
  {
    seq(Min(|headers|, |values|), i requires 0 <= i < Min(|headers|, |values|) => MakeSnippet(headers[i], values[i]))
  }

  /** The snippets one file contributes, in document order: the i-th is named
      by the i-th header and declares the names of the i-th body's block. */
  function FileSnippets(content: string): (r: seq<Snippet>)
    ensures |r| == Min(|HeaderCaptures(content, 0)|, |BodyCaptures(content, 0)|)
    ensures forall i :: 0 <= i < |r| ==>
              r[i].name == HeaderCaptures(content, 0)[i] &&
              r[i].inputs == InputCaptures(BodyCaptures(content, 0)[i].inputs, 0)
  {
    Paired(HeaderCaptures(content, 0), BodyCaptures(content, 0))
  }

  /** The warning `parseContent` prints for a file, if any: exactly when the
      counts differ; without one, every header yields a snippet. */
  function FileWarning(content: string, filename: string): (w: Option<Warning>)
    ensures w.None? <==> |HeaderCaptures(content, 0)| == |BodyCaptures(content, 0)|
    ensures w.Some? ==> w.value == Warning(filename, |HeaderCaptures(content, 0)|, |BodyCaptures(content, 0)|)
    ensures w.None? ==> |FileSnippets(content)| == |HeaderCaptures(content, 0)|
  {
    var headers := |HeaderCaptures(content, 0)|;
    var bodies := |BodyCaptures(content, 0)|;
    if headers != bodies then Some(Warning(filename, headers, bodies)) else None
  }

  /** The global list of snippets, appended to and never otherwise changed. */
  class Catalog {
    var snippets: seq<Snippet>

    constructor ()
      ensures snippets == []
    {
      snippets := [];
    }

    /** `parseContent`: appends the file's snippets, in document order, after
        the existing entries, and reports a warning exactly when the two match
        counts differ; processing goes on either way. */
    method ParseContent(content: string, filename: string) returns (warning: Option<Warning>)
      modifies this
      ensures snippets == old(snippets) + FileSnippets(content)
      ensures warning == FileWarning(content, filename)
    {
      var keys := HeaderCaptures(content, 0);
      var values := BodyCaptures(content, 0);
      warning := None;
      if |keys| != |values| {
        warning := Some(Warning(filename, |keys|, |values|));
      }
      var count := Min(|keys|, |values|);
      ghost var added := Paired(keys, values);
      for i := 0 to count
        invariant snippets == old(snippets) + added[..i]
      {
        var key := keys[i];
        var input := values[i].inputs;
        var list: seq<string> := [];
        var inputs := InputCaptures(input, 0);
        for j := 0 to |inputs|
          invariant list == TrimEach(inputs[..j])
        {
          var value := Trim(inputs[j], Blanks);
          list := list + [value];
        }
        assert inputs[..|inputs|] == inputs;
        var value := Trim(values[i].body, Blanks);
        assert added[i] == MakeSnippet(key, values[i]);
        snippets := snippets + [Snippet(key, value, list)];
        assert added[..i + 1] == added[..i] + [added[i]];
      }
      assert added[..count] == added;
    }

    /** The picker's preview of entry `i`: the same truncation as
        `TruncateContent`, written out inline in `searchKeys`. */
    method Preview(i: nat, width: int, height: int) returns (r: Result<string, Truncate.Crash>)
      requires i < |snippets|
      ensures r == Truncate.Truncated(width, height, snippets[i].content)
    {
      r := Truncate.TruncateContent(width, height, snippets[i].content);
    }
  }

  /** Why `handleInputs` panics: `template.Must` on a template that does not
      parse, or the slice `value[:len(value)-1]` after an empty read. */
  datatype Crash = TemplateParse | EmptyRead(input: string)

  /** `bufio.Reader.ReadString('\n')` on the input not yet read: the text up
      to and including the first newline, or all of it at the end of the
      input (the `io.EOF` error is ignored); and what is left. */
  function ReadString(stdin: string): (r: (string, string))
    ensures r.0 + r.1 == stdin
    ensures r.0 == [] <==> stdin == []
    ensures r.1 != [] ==> r.0[|r.0| - 1] == '\n'
    ensures forall i :: 0 <= i < |r.0| - 1 ==> r.0[i] != '\n'
  {
    var e := LineEnd(stdin, 0);
    if e < |stdin| then (stdin[..e + 1], stdin[e + 1..]) else (stdin, [])
  }

  /** The successive non-empty reads the input can serve. */
  function Reads(stdin: string): (r: seq<string>)
    ensures forall i :: 0 <= i < |r| ==> r[i] != []
    decreases |stdin|
  {
    if stdin == [] then []
    else [ReadString(stdin).0] + Reads(ReadString(stdin).1)
  }

  /** A read without its last character: the newline, except for a final
      read at the end of the input that has none. */
  function DropLast(value: string): string
    requires value != []
  {
    value[..|value| - 1]
  }

  /** The loop of `handleInputs` over the input names, from the map built so
      far: one read per name, stored under that name without its last
      character; a later name overwrites an earlier equal one. */
  function CollectValues(names: seq<string>, stdin: string, values: map<string, string>): (r: Result<map<string, string>, Crash>)
    ensures r.Err? ==> r.error.EmptyRead? && r.error.input in names
    ensures r.Ok? ==> values.Keys <= r.value.Keys
    decreases |names|
  {
    if names == [] then Ok(values)
    else
      var line := ReadString(stdin).0;
      if line == [] then Err(EmptyRead(names[0]))
      else CollectValues(names[1..], ReadString(stdin).1, values[names[0] := DropLast(line)])
  }

  /** `handleInputs`: a snippet without inputs is returned as it is, with no
      template parsing and no prompting. Otherwise the content is parsed as a
      template (panicking if that fails), one value is read per input name,
      and the template is executed with the map of values. Template parsing
      and execution (`html/template`) are the parameters `parses` and
      `execute`; `stdin` is the input not yet read. */
  method HandleInputs(snippet: Snippet, stdin: string, parses: string -> bool,
                      execute: (string, map<string, string>) -> string)
    returns (result: Result<string, Crash>)
    ensures snippet.inputs == [] ==> result == Ok(snippet.content)
    ensures snippet.inputs != [] && !parses(snippet.content) ==> result == Err(TemplateParse)
    ensures snippet.inputs != [] && parses(snippet.content) ==>
              result == match CollectValues(snippet.inputs, stdin, map[])
                        case Ok(values) => Ok(execute(snippet.content, values))
                        case Err(e) => Err(e)
  {
    result := Ok(snippet.content);
    if |snippet.inputs| > 0 {
      if !parses(snippet.content) {
        return Err(TemplateParse);
      }
      var values: map<string, string> := map[];
      var rest := stdin;
      for j := 0 to |snippet.inputs|
        invariant CollectValues(snippet.inputs, stdin, map[]) == CollectValues(snippet.inputs[j..], rest, values)
      {
        var input := snippet.inputs[j];
        assert snippet.inputs[j..][1..] == snippet.inputs[j + 1..];
        var value := ReadString(rest).0;
        if |value| == 0 {
          return Err(EmptyRead(input));
        }
        values := values[input := value[..|value| - 1]];
        rest := ReadString(rest).1;
      }
      result := Ok(execute(snippet.content, values));
    }
  }

  /** The values map is complete exactly when the input can serve one read per
      name; otherwise the panic names the first input left without a read. */
  lemma {:induction false} CollectValuesOk(names: seq<string>, stdin: string, values: map<string, string>)
    ensures CollectValues(names, stdin, values).Ok? <==> |names| <= |Reads(stdin)|
    ensures |names| > |Reads(stdin)| ==> CollectValues(names, stdin, values) == Err(EmptyRead(names[|Reads(stdin)|]))
    decreases |names|
  {
    if names != [] {
      var (line, rest) := ReadString(stdin);
      if line != [] {
        CollectValuesOk(names[1..], rest, values[names[0] := DropLast(line)]);
        assert Reads(stdin) == [line] + Reads(rest);
      }
    }
  }

  /** A complete values map has the names as its keys, besides those it
      started with. */
  lemma {:induction false} CollectValuesKeys(names: seq<string>, stdin: string, values: map<string, string>)
    ensures CollectValues(names, stdin, values).Ok? ==>
              CollectValues(names, stdin, values).value.Keys == values.Keys + (set x | x in names)
    decreases |names|
  {
    if names != [] {
      var (line, rest) := ReadString(stdin);
      if line != [] {
        CollectValuesKeys(names[1..], rest, values[names[0] := DropLast(line)]);
        assert (set x | x in names) == {names[0]} + (set x | x in names[1..]) by {
          assert forall x :: x in names <==> x == names[0] || x in names[1..];
        }
      }
    }
  }

  /** `names[i]` is the last occurrence of its name. */
  predicate LastAt(names: seq<string>, i: nat)
    requires i < |names|
  {
    forall k :: i < k < |names| ==> names[k] != names[i]
  }

  lemma LastAtTail(names: seq<string>, i: nat)
    requires 0 < i < |names| && LastAt(names, i)
    ensures LastAt(names[1..], i - 1)
  {
    forall k | i - 1 < k < |names[1..]| ensures names[1..][k] != names[1..][i - 1] {
      assert names[1..][k] == names[k + 1];
    }
  }

  lemma LastAtHead(names: seq<string>)
    requires names != [] && LastAt(names, 0)
    ensures names[0] !in names[1..]
  {
    forall k | 0 <= k < |names[1..]| ensures names[1..][k] != names[0] {
      assert names[1..][k] == names[k + 1];
    }
  }

  /** When the input serves one read per name, each name holds the read of
      its last occurrence, without the last character. */
  lemma {:induction false} CollectValuesLast(names: seq<string>, stdin: string, values: map<string, string>)
    requires |names| <= |Reads(stdin)|
    ensures CollectValues(names, stdin, values).Ok?
    ensures forall i :: 0 <= i < |names| && LastAt(names, i) ==>
              names[i] in CollectValues(names, stdin, values).value &&
              CollectValues(names, stdin, values).value[names[i]] == DropLast(Reads(stdin)[i])
    decreases |names|
  {
    if names != [] {
      var (line, rest) := ReadString(stdin);
      assert Reads(stdin) == [line] + Reads(rest);
      var values' := values[names[0] := DropLast(line)];
      CollectValuesLast(names[1..], rest, values');
      CollectValuesKeeps(names[1..], rest, values');
      var m := CollectValues(names, stdin, values).value;
      assert m == CollectValues(names[1..], rest, values').value;
      forall i | 0 <= i < |names| && LastAt(names, i)
        ensures names[i] in m && m[names[i]] == DropLast(Reads(stdin)[i])
      {
        if i > 0 {
          LastAtTail(names, i);
          assert names[1..][i - 1] == names[i];
        } else {
          LastAtHead(names);
        }
      }
    }
  }

  /** A key the map started with and that is not an input name keeps its value. */
  lemma {:induction false} CollectValuesKeeps(names: seq<string>, stdin: string, values: map<string, string>)
    ensures CollectValues(names, stdin, values).Ok? ==>
              forall x :: x in values && x !in names ==>
                x in CollectValues(names, stdin, values).value &&
                CollectValues(names, stdin, values).value[x] == values[x]
    decreases |names|
  {
    if names != [] {
      var (line, rest) := ReadString(stdin);
      if line != [] {
        CollectValuesKeeps(names[1..], rest, values[names[0] := DropLast(line)]);
      }
    }
  }
}

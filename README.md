# notescli snippet catalog and tag scanner in Dafny

This project models the text-processing core of notescli, a Go command-line note helper:

- **Building the snippet catalog** (`cmd/snippet/snippet.go`, `parseContent`). Three regular expressions find the `### name` headers, the fenced bodies with their optional `INPUTS:` block, and the input names inside that block. The i-th header is paired with the i-th body, the inputs and body are trimmed, and the resulting `Snippet`s are appended to the shared catalog. A warning is printed when the header and body counts differ.
- **Rendering a chosen snippet** (`handleInputs`). One line is read per declared input. The values are stored without their last character, and the content is executed as a template.
- **The picker's preview truncation**, written out inline in `searchKeys` and again as `TruncateContent` in `cmd/utils/utils.go`.
- **The front-matter tag scanner** (`cmd/search/search.go`, `processFile`) and the per-tag append of `parseFileTags`.

The modules are:

| module | file | contents |
|---|---|---|
| `Common` | `common.dfy` | `Option` and `Result` |
| `Text` | `text.dfy` | Go's `strings.Trim` and `strings.HasPrefix`; the regexp classes `\s` and `\w` |
| `Truncate` | `truncate.dfy` | the preview truncation |
| `Patterns` | `patterns.dfy` | the three regexes of `parseContent` as the left-to-right scans `FindAllStringSubmatch` performs |
| `Snippets` | `snippets.dfy` | the `Snippet` record, the `Catalog` class with `ParseContent` and `Preview`, and `HandleInputs` |
| `Documents` | `documents.dfy` | snippet files written out from their entries, and the theorem that `parseContent` reads every well-formed entry back |
| `FrontMatter` | `frontmatter.dfy` | `processFile` and the `TagIndex` class |

Strings are sequences of characters, one per byte of the Go program.

Two behaviours of the code are worth stating up front:

- **Inputs are bare `\w` names.** `handleInputs` has no default values. An empty answer stores the empty string, because each read is stored without its last character. An input with nothing left to read panics.
- **A file shorter than four bytes yields no tags** (see `FrontMatter.HeaderWindow`). `processFile` compares `content[0:4]` with `"---\n"`. Go bounds that slice by the capacity of the buffer, not by its length. The buffer `io.ReadAll` returns has had a capacity of 512 zeroed bytes in the Go releases to date, so the slice does not panic and the comparison fails. That capacity is an implementation detail of the Go release in use, not a guarantee of the `io` package.

## Model

| member | source | states |
|---|---|---|
| Text.Trim | cmd/snippet/snippet.go:173 | `strings.Trim` with the blank cut set returns a string no longer than its argument |
| Text.TrimCharacterized | cmd/snippet/snippet.go:176 | the trimmed text is a contiguous slice of the input; everything before and after it is in the cut set; it neither starts nor ends with a cut-set character |
| Text.TrimIdentity | cmd/search/search.go:110 | trimming leaves a string unchanged exactly when it is empty or has no cut-set character at either end |
| Text.TrimIdempotent | cmd/search/search.go:110 | trimming twice is the same as trimming once |
| Text.TrimWord | cmd/snippet/snippet.go:173 | a captured `\w+` input name is unchanged by the trim applied to it |
| Text.SkipSpace | cmd/snippet/snippet.go:156 | a `\s*` run ends at the first non-space character or at the end of the text |
| Text.SkipWord | cmd/snippet/snippet.go:156 | a `\w*` run ends at the first non-word character or at the end of the text |
| Text.LineEnd | cmd/snippet/snippet.go:154 | `$` in multi-line mode is found at the first newline at or after the position, or at the end of the text |
| Text.HasPrefix | cmd/search/search.go:111 | `strings.HasPrefix`: the string is at least as long as the prefix and agrees with it character by character |
| Text.IndexOf | cmd/snippet/snippet.go:155 | the lazy `(.*?)` stops at the first closing fence after the tag; there is no fence before it |
| Truncate.Step | cmd/utils/utils.go:8-16 | one character adds zero, one or two lines; the column either resets to 0 or advances by one, and stays below a positive width |
| Truncate.CountersAfter | cmd/utils/utils.go:7-16 | after `k` characters, the line count is between 0 and `2k` and the column between 0 and `k` |
| Truncate.CutFrom | cmd/utils/utils.go:17-20 | the index where the loop breaks is the first index whose line count equals `height`; no earlier index has that count |
| Truncate.Truncated | cmd/utils/utils.go:17-22 | a result is never longer than the content; the only failure is the slice panic `content[0:-1]`, and it needs non-empty content |
| Truncate.TruncateContent | cmd/utils/utils.go:3-23 | the loop with its two counters and its early break returns `Truncated(width, height, content)`, including the slice panic |
| Truncate.TruncatedIsPrefix | cmd/utils/utils.go:18-22 | every successful result is a prefix of the content: either all of it, or at least two characters shorter |
| Truncate.TruncatedCases | cmd/utils/utils.go:7-22 | the whole content comes back exactly when the line count never equals `height`; if it first does at index `i`, the result is `content[..i-1]`, or a panic when `i` is 0 |
| Truncate.LinesMonotone | cmd/utils/utils.go:9-16 | the line counter never decreases and rises by at most two per character |
| Truncate.ColumnInRange | cmd/utils/utils.go:8-16 | for a width of at least 1, the column stays in `[0, width)` |
| Truncate.NewlineKeepsColumn | cmd/utils/utils.go:9-12 | a newline advances the column like any other character and counts one extra line |
| Truncate.SkipsPastHeight | cmd/utils/utils.go:9-19 | with width 1, a newline adds two lines, so a preview of height 1 never cuts `"\n"` |
| Truncate.CutAtZeroPanics | cmd/utils/utils.go:17-22 | with height 0 and width at least 2, content that does not start with a newline breaks at index 0, and `content[0:-1]` panics |
| Patterns.HeaderCaptures | cmd/snippet/snippet.go:154 | each header capture is the rest of a line after `### `, so it holds no newline |
| Patterns.LastNewline | cmd/snippet/snippet.go:156 | the last newline in a range, with no newline after it in that range |
| Patterns.InputMatchAt | cmd/snippet/snippet.go:156 | an input match consumes at least one character and captures a `\w+` word |
| Patterns.InputCaptures | cmd/snippet/snippet.go:171 | every input name found is a `\w+` word |
| Patterns.ItemEnd | cmd/snippet/snippet.go:155 | an `- word\n` item line ends after its start |
| Patterns.ItemsEnd | cmd/snippet/snippet.go:155 | a run of item lines ends within the text, at or after its start |
| Patterns.BlockEnd | cmd/snippet/snippet.go:155 | an `INPUTS:` block with at least one item ends after its start |
| Patterns.Blocks | cmd/snippet/snippet.go:155 | the repeated input-block group ends within the text, at or after its start |
| Patterns.BodyMatchAt | cmd/snippet/snippet.go:155 | a body match consumes at least one character and ends within the text |
| Patterns.BodyCaptures | cmd/snippet/snippet.go:155-159 | the body-pattern scan finds at most one match per remaining character, since each match consumes at least one |
| Patterns.InputCapturesSkip | cmd/snippet/snippet.go:156 | positions holding no `-` start no input match |
| Patterns.ItemLinesCaptured | cmd/snippet/snippet.go:156 | the input pattern reads a run of `- w\n` item lines back as the names `w`, in order |
| Patterns.InputsBlockRoundTrip | cmd/snippet/snippet.go:169-175 | round trip: the input pattern reads back, in order, exactly the names an `INPUTS:` block declares |
| Snippets.Min | cmd/snippet/snippet.go:165 | Go's `min`: at most both arguments, and equal to one of them |
| Snippets.TrimEach | cmd/snippet/snippet.go:172-175 | trimming each input name keeps one entry per name |
| Snippets.TrimEachWords | cmd/snippet/snippet.go:171-175 | trimming a list of captured `\w` names changes none of them |
| Snippets.MakeSnippet | cmd/snippet/snippet.go:168-177 | a snippet is named by its header, declares exactly the captured input names, and its content has no blank at either end |
| Snippets.Paired | cmd/snippet/snippet.go:165-166 | as many snippets as the shorter of the header and body lists |
| Snippets.FileSnippets | cmd/snippet/snippet.go:158-166 | a file yields as many snippets as the shorter capture list; the i-th is named by the i-th header and declares the names of the i-th body's block |
| Snippets.FileWarning | cmd/snippet/snippet.go:161-164 | a warning with the file name and both counts exactly when the counts differ; without one, every header yields a snippet |
| Snippets.Catalog.constructor | cmd/snippet/snippet.go:43 | the catalog starts empty |
| Snippets.Catalog.ParseContent | cmd/snippet/snippet.go:153-180 | appends the file's snippets after the existing entries in document order, changing nothing else; returns a warning exactly when the header and body counts differ |
| Snippets.Catalog.Preview | cmd/snippet/snippet.go:114-133 | the inline preview of entry `i` is the same truncation as `TruncateContent` |
| Snippets.ReadString | cmd/snippet/snippet.go:86 | a read plus what is left is the input; a read is empty only at the end of the input; only a read at the end of the input may lack the newline; the newline is the read's only one |
| Snippets.Reads | cmd/snippet/snippet.go:84-88 | every successive read the input serves is non-empty |
| Snippets.CollectValues | cmd/snippet/snippet.go:84-88 | the read loop panics only on a declared input name, and never drops a key of the map it starts from |
| Snippets.HandleInputs | cmd/snippet/snippet.go:77-93 | without inputs, the content is returned untouched; otherwise an unparsable template panics, and a parsable one is executed with the map the read loop builds or panics on an empty read |
| Snippets.CollectValuesOk | cmd/snippet/snippet.go:84-88 | the read loop succeeds exactly when the input serves one read per name; otherwise it panics on the first name left without a read |
| Snippets.CollectValuesKeys | cmd/snippet/snippet.go:82-88 | the finished map's keys are the keys it started with plus the input names, and no others |
| Snippets.CollectValuesLast | cmd/snippet/snippet.go:84-88 | each name holds the read of its last occurrence, without that read's last character |
| Snippets.CollectValuesKeeps | cmd/snippet/snippet.go:87 | the loop writes only the keys it is given |
| Snippets.LastAtTail | cmd/snippet/snippet.go:87 | a last occurrence stays last in the rest of the list |
| Snippets.LastAtHead | cmd/snippet/snippet.go:87 | a first name that is its own last occurrence does not occur again |
| Documents.HeaderOfEntry | cmd/snippet/snippet.go:154 | the header pattern captures a well-formed entry's name once, and then nothing until the next entry |
| Documents.BodyOfEntry | cmd/snippet/snippet.go:155 | the body pattern captures a well-formed entry's input block and body once, and then nothing until the next entry |
| Documents.DocumentCaptures | cmd/snippet/snippet.go:158-159 | over a file of well-formed entries, the header captures are the entry names and the body captures are the entries' blocks and bodies, in order |
| Documents.SnippetOfEntry | cmd/snippet/snippet.go:168-177 | the snippet built from an entry's captures has the entry's name, its declared inputs and its trimmed body |
| Documents.DocumentRoundTrip | cmd/snippet/snippet.go:153-180 | round trip: a file of well-formed entries yields one snippet per entry in document order, each equal to the entry's snippet, and no warning |
| FrontMatter.HeaderWindow | cmd/search/search.go:105 | the four bytes compared with `"---\n"` are the content's first four, or end in a zero byte when the content is shorter |
| FrontMatter.LinesAt | cmd/search/search.go:106-122 | the byte loop's line buffer completes exactly one line per newline |
| FrontMatter.TagsIn | cmd/search/search.go:110-121 | the line-level scan yields at most one tag per line |
| FrontMatter.FrontMatterTags | cmd/search/search.go:105-121 | a file has at most as many tags as there are newlines after its opening `---\n` |
| FrontMatter.TagsInStop | cmd/search/search.go:113-114 | a non-item line after `tags:`, or a `---` line before it, ends the scan |
| FrontMatter.TagsInTagsLine | cmd/search/search.go:117-118 | a `tags:` line starts collecting with the next line |
| FrontMatter.TagsInPlain | cmd/search/search.go:111-112 | after `tags:`, an item line yields its text after `- `; before it, any other line yields nothing; the scan goes on |
| FrontMatter.ItemIsNoMarker | cmd/search/search.go:111-121 | a trimmed item line is neither `tags:` nor `---` |
| FrontMatter.ProcessFile | cmd/search/search.go:99-127 | the byte loop with its line buffer and `foundTags` flag returns the tags of `FrontMatterTags(content)` |
| FrontMatter.ItemRun | cmd/search/search.go:111-115 | the leading run of item lines is followed by a non-item line or the end of the lines |
| FrontMatter.FirstMarker | cmd/search/search.go:117-121 | no line before the first `tags:` or `---` line trims to either |
| FrontMatter.TagsAfterMarker | cmd/search/search.go:111-115 | after `tags:`, the tags are the items of the leading run, in order, each without its `- ` |
| FrontMatter.TagsInCharacterized | cmd/search/search.go:117-121 | before `tags:`, a file has tags only when its first marker line is `tags:`, and then exactly those of the item run after it |
| FrontMatter.NoOpeningMarker | cmd/search/search.go:105 | content that does not begin with `---\n`, including content shorter than four bytes, has no tags |
| FrontMatter.NoNewlineNoLines | cmd/search/search.go:107-109 | text without a newline completes no line |
| FrontMatter.LinesIgnoreUnterminatedTail | cmd/search/search.go:106-109 | text after the last newline adds no line |
| FrontMatter.FinalLineIgnored | cmd/search/search.go:106-124 | appending an unterminated final line does not change a file's tags |
| FrontMatter.BareDashEndsList | cmd/search/search.go:110-114 | a bare `- ` item trims to `-`, which ends the tag list |
| FrontMatter.TagIndex.constructor | cmd/search/search.go:40 | the tag list starts empty |
| FrontMatter.TagIndex.AddFileTags | cmd/search/search.go:89-94 | appends one `Tag` per file tag, in the order `processFile` returns them, with the file's name and path; earlier entries are unchanged |

## Left out

- Command wiring is not part of this model: the cobra commands, their flags, viper configuration and `cmd/add/add.go` (note creation).
- Reading directories and files (`processFilesInDir`, `parseFileTags`' directory loop, `getSnippetDir`) is left out; a file's content is a parameter. `io.ReadAll` and `os.Open` errors (`cobra.CheckErr`) are not modelled.
- Concurrency is left out. `parseContent` runs as one goroutine per file under a mutex; the model appends one file at a time, so the interleaving of entries from different files is not captured.
- The fuzzy finder (`go-fzf`), the clipboard, tmux, `$EDITOR` and printing the result are left out, as is the text of the printed prompts and warnings. The warning's counts are modelled.
- `html/template` parsing and execution are parameters of `HandleInputs` (`parses`, `execute`), and standard input is a string parameter.
- `fzfPreviewWindow` in `cmd/search/search.go`, which prefixes the file name and calls `TruncateContent` with `height - 4`, is not part of this model beyond `TruncateContent` itself.
- Go strings are byte sequences and `range` over a string visits UTF-8 runes by byte offset. The model uses one character per byte, so multi-byte characters in a preview are not modelled.
- Truncate.TruncateContent: Go `int` overflow of the counters is not modelled; integers are unbounded.
- Patterns.HeaderCaptures: `\s*` before `###` never changes the capture, so it is not scanned. The scan keeps Go's leftmost-first behaviour, including matches inside `####` and inside fenced bodies.
- Documents.DocumentRoundTrip: covers only text that is exactly `Document(es)`, so it does not describe a typical hand-written snippet file. Its limits:
  - entries follow one another directly, with no title, prose or blank line before, between or after them;
  - each `### name` line is followed directly by the `INPUTS:` block or the opening fence;
  - names hold no newline and no backtick;
  - input names and the language tag are `\w` words;
  - bodies do not start with a `\w` character, do not end with a backtick, and contain no fence and no `### `.

  Any other file is modelled by `FileSnippets`, which is not characterised further.

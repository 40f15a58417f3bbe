/** Character classes and the Go `strings` functions the core uses, over
    strings of one character per byte. */
module Text {
  import opened Common

  /** Go regexp's `\s`: `[\t\n\f\r ]`. */
  predicate IsSpace(c: char)
  {
    c == ' ' || c == '\t' || c == '\n' || c == '\r' || c == '\U{000C}'
  }

  /** Go regexp's `\w`: `[0-9A-Za-z_]`. */
  predicate IsWordChar(c: char)
  {
    ('a' <= c <= 'z') || ('A' <= c <= 'Z') || ('0' <= c <= '9') || c == '_'
  }

  predicate IsWord(w: string)
  {
    |w| > 0 && forall i :: 0 <= i < |w| ==> IsWordChar(w[i])
  }

  /** The cut set `"\r\n\t "` (snippet.go) and `" \n\t\r"` (search.go): the same set. */
  const Blanks: set<char> := {'\r', '\n', '\t', ' '}

  /** `pat` occurs in `t` at index `k`. */
  predicate StartsAt(t: string, pat: string, k: nat)
  {
    k + |pat| <= |t| && t[k..k + |pat|] == pat
  }

  /** Go's `strings.HasPrefix`: `s` is at least as long as `prefix` and
      agrees with it character by character. */
  predicate HasPrefix(s: string, prefix: string): (b: bool)
    ensures b <==> |prefix| <= |s| && forall i :: 0 <= i < |prefix| ==> s[i] == prefix[i]
  {
    |prefix| <= |s| && s[..|prefix|] == prefix
  }

  /** The leading part of Go's `strings.Trim`: drops every leading character
      that is in `cutset` (characterised by `TrimLeftSuffix`). */
  function TrimLeft(s: string, cutset: set<char>): (r: string)
    ensures |r| <= |s|
  {
    if |s| > 0 && s[0] in cutset then TrimLeft(s[1..], cutset) else s
  }

  /** The trailing part of Go's `strings.Trim`: drops every trailing character
      that is in `cutset` (characterised by `TrimRightPrefix`). */
  function TrimRight(s: string, cutset: set<char>): (r: string)
    ensures |r| <= |s|
  {
    if |s| > 0 && s[|s| - 1] in cutset then TrimRight(s[..|s| - 1], cutset) else s
  }

  /** `TrimLeft` keeps a suffix, drops only cut-set characters, and stops at
      the first character outside the cut set. */
  lemma {:induction false} TrimLeftSuffix(s: string, cutset: set<char>)
    ensures TrimLeft(s, cutset) == s[|s| - |TrimLeft(s, cutset)|..]
    ensures forall i :: 0 <= i < |s| - |TrimLeft(s, cutset)| ==> s[i] in cutset
    ensures TrimLeft(s, cutset) == [] || TrimLeft(s, cutset)[0] !in cutset
  {
    if |s| > 0 && s[0] in cutset {
      TrimLeftSuffix(s[1..], cutset);
    }
  }

  /** `TrimRight` keeps a prefix, drops only cut-set characters, and stops at
      the last character outside the cut set. */
  lemma {:induction false} TrimRightPrefix(s: string, cutset: set<char>)
    ensures TrimRight(s, cutset) == s[..|TrimRight(s, cutset)|]
    ensures forall i :: |TrimRight(s, cutset)| <= i < |s| ==> s[i] in cutset
    ensures TrimRight(s, cutset) == [] || TrimRight(s, cutset)[|TrimRight(s, cutset)| - 1] !in cutset
  {
    if |s| > 0 && s[|s| - 1] in cutset {
      TrimRightPrefix(s[..|s| - 1], cutset);
    }
  }

  /** Go's `strings.Trim(s, cutset)`: `s` without its leading and trailing runs
      of cut-set characters (characterised by `TrimCharacterized`). */
  function Trim(s: string, cutset: set<char>): (r: string)
    ensures |r| <= |s|
  {
    TrimRight(TrimLeft(s, cutset), cutset)
  }

  /** The trimmed text is the slice `s[start..start + |r|]`, everything
      outside it is in the cut set, and (when not empty) it neither starts nor
      ends with a cut-set character; these facts fix `r` uniquely. */
  lemma TrimCharacterized(s: string, cutset: set<char>)
    ensures TrimStart(s, cutset) + |Trim(s, cutset)| <= |s|
    ensures Trim(s, cutset) == s[TrimStart(s, cutset)..TrimStart(s, cutset) + |Trim(s, cutset)|]
    ensures forall i :: 0 <= i < TrimStart(s, cutset) ==> s[i] in cutset
    ensures forall i :: TrimStart(s, cutset) + |Trim(s, cutset)| <= i < |s| ==> s[i] in cutset
    ensures Trim(s, cutset) == [] || (Trim(s, cutset)[0] !in cutset && Trim(s, cutset)[|Trim(s, cutset)| - 1] !in cutset)
  {
    TrimLeftSuffix(s, cutset);
    TrimRightPrefix(TrimLeft(s, cutset), cutset);
  }

  /** Where the trimmed text starts inside `s`. */
  function TrimStart(s: string, cutset: set<char>): (k: nat)
    ensures k <= |s|
  {
    |s| - |TrimLeft(s, cutset)|
  }

  /** Trimming leaves a string alone exactly when it has no cut-set character
      at either end. */
  lemma TrimIdentity(s: string, cutset: set<char>)
    ensures Trim(s, cutset) == s <==> (s == [] || (s[0] !in cutset && s[|s| - 1] !in cutset))
  {
    TrimCharacterized(s, cutset);
  }

  /** Trimming twice is trimming once. */
  lemma TrimIdempotent(s: string, cutset: set<char>)
    ensures Trim(Trim(s, cutset), cutset) == Trim(s, cutset)
  {
    TrimCharacterized(s, cutset);
    TrimIdentity(Trim(s, cutset), cutset);
  }

  /** A `\w+` word has nothing for `Trim` with the blank cut set to remove. */
  lemma TrimWord(w: string)
    requires IsWord(w)
    ensures Trim(w, Blanks) == w
  {
    assert !IsWordChar(' ') && !IsWordChar('\t') && !IsWordChar('\n') && !IsWordChar('\r');
    TrimIdentity(w, Blanks);
  }

  /** The end of the run of `\s` characters starting at `k`. */
  function SkipSpace(t: string, k: nat): (e: nat)
    requires k <= |t|
    ensures k <= e <= |t|
    ensures forall i :: k <= i < e ==> IsSpace(t[i])
    ensures e < |t| ==> !IsSpace(t[e])
    decreases |t| - k
  {
    if k < |t| && IsSpace(t[k]) then SkipSpace(t, k + 1) else k
  }

  /** The end of the run of `\w` characters starting at `k`. */
  function SkipWord(t: string, k: nat): (e: nat)
    requires k <= |t|
    ensures k <= e <= |t|
    ensures forall i :: k <= i < e ==> IsWordChar(t[i])
    ensures e < |t| ==> !IsWordChar(t[e])
    decreases |t| - k
  {
    if k < |t| && IsWordChar(t[k]) then SkipWord(t, k + 1) else k
  }

  /** The first newline at or after `k`, or `|t|` when there is none: the end
      of the line that holds position `k`. */
  function LineEnd(t: string, k: nat): (e: nat)
    requires k <= |t|
    ensures k <= e <= |t|
    ensures forall i :: k <= i < e ==> t[i] != '\n'
    ensures e < |t| ==> t[e] == '\n'
    decreases |t| - k
  {
    if k < |t| && t[k] != '\n' then LineEnd(t, k + 1) else k
  }

  /** The first occurrence of `pat` at or after `k`. */
  function IndexOf(t: string, pat: string, k: nat): (r: Option<nat>)
    requires k <= |t|
    ensures r.Some? ==> k <= r.value && StartsAt(t, pat, r.value)
    ensures forall i :: k <= i && (r.None? || i < r.value) ==> !StartsAt(t, pat, i)
    decreases |t| - k
  {
    if StartsAt(t, pat, k) then Some(k)
    else if k + |pat| >= |t| then None
    else IndexOf(t, pat, k + 1)
  }
}

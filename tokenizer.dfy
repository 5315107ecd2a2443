/**
 * The tokenizer of parse.py. `tokenize` hides the text of string literals
 * behind placeholder words, pads brackets and commas with spaces, and
 * splits the result at runs of whitespace.
 */
module Tokenizer {
  import opened Primitives

  /** `placeholder(name)` for the three protected characters: `\"`, space and newline. */
  const Quote: string := "__BEDLAM_QUOTE"
  const Space: string := "__BEDLAM_SPACE"
  const Newline: string := "__BEDLAM_NEWLINE"

  /** The characters Python's `str.strip()` removes and the class `[\s\n]` matches. */
  predicate IsSpace(c: char) {
    var n := c as int;
    || n == 0x20 || 0x09 <= n <= 0x0d || 0x1c <= n <= 0x1f || n == 0x85 || n == 0xa0 || n == 0x1680
    || 0x2000 <= n <= 0x200a || n == 0x2028 || n == 0x2029 || n == 0x202f || n == 0x205f || n == 0x3000
  }

  predicate NoSpace(w: string) {
    forall k :: 0 <= k < |w| ==> !IsSpace(w[k])
  }

  /** The characters `pre_tokenize` pads with spaces outside strings. */
  predicate IsPunct(c: char) {
    c == '(' || c == ')' || c == '[' || c == ']' || c == '{' || c == '}' || c == ','
  }

  /**
   * `str.replace(pat, rep)`, and `re.sub` with a pattern that matches
   * only itself: the leftmost occurrences, not overlapping, are replaced.
   */
  function Replace(s: string, pat: string, rep: string): string
    requires pat != []
    decreases |s|
  {
    if |s| < |pat| then s
    else if s[..|pat|] == pat then rep + Replace(s[|pat|..], pat, rep)
    else [s[0]] + Replace(s[1..], pat, rep)
  }

  /** `str.split(sep)`: the pieces between the separators, empty ones included. */
  function SplitOn(s: string, sep: char): (r: seq<string>)
    ensures r != []
    ensures forall k :: 0 <= k < |r| ==> sep !in r[k]
  {
    if s == [] then [[]]
    else
      var t := SplitOn(s[1..], sep);
      if s[0] == sep then [[]] + t
      else
        assert sep !in [s[0]] + t[0];
        [[s[0]] + t[0]] + t[1..]
  }

  /** `re.sub(r'([\(\)\[\]\{\},])', r' \1 ', s)`: a space on each side of every bracket and comma. */
  function PadPunct(s: string): string {
    if s == [] then []
    else (if IsPunct(s[0]) then [' ', s[0], ' '] else [s[0]]) + PadPunct(s[1..])
  }

  /**
   * `pre_tokenize((i, segment))`: the odd segments are the insides of
   * string literals, whose spaces and newlines become placeholders; in
   * the others spaces and newlines become placeholder words and brackets
   * and commas are padded.
   */
  function PreTokenize(i: nat, segment: string): string {
    if i % 2 == 1 then Replace(Replace(segment, " ", Space), "\n", Newline)
    else PadPunct(Replace(Replace(segment, " ", " " + Space + " "), "\n", " " + Newline + " "))
  }

  /** `map(pre_tokenize, enumerate(segments))`, numbering from `i`. */
  function PreTokenizeAll(segments: seq<string>, i: nat): (r: seq<string>)
    ensures |r| == |segments|
  {
    if segments == [] then [] else [PreTokenize(i, segments[0])] + PreTokenizeAll(segments[1..], i + 1)
  }

  /** `str.lstrip()`: drops the leading whitespace. */
  function LStrip(s: string): (r: string)
    ensures |r| <= |s| && r == s[|s| - |r|..]
    ensures forall k :: 0 <= k < |s| - |r| ==> IsSpace(s[k])
    ensures r == [] || !IsSpace(r[0])
  {
    if s != [] && IsSpace(s[0]) then LStrip(s[1..]) else s
  }

  /** `str.rstrip()`: drops the trailing whitespace. */
  function RStrip(s: string): (r: string)
    ensures |r| <= |s| && r == s[..|r|]
    ensures forall k :: |r| <= k < |s| ==> IsSpace(s[k])
    ensures r == [] || !IsSpace(r[|r| - 1])
  {
    if s != [] && IsSpace(s[|s| - 1]) then RStrip(s[..|s| - 1]) else s
  }

  /** `str.strip()`. */
  function Strip(s: string): (r: string)
    ensures r == [] || (!IsSpace(r[0]) && !IsSpace(r[|r| - 1]))
  {
    RStrip(LStrip(s))
  }

  /**
   * `re.split('[\s\n]+', s)`: the pieces between maximal runs of
   * whitespace; a leading or trailing run gives an empty piece.
   */
  function SplitWs(s: string): (r: seq<string>)
    ensures r != []
  {
    SplitRuns(s, [], false)
  }

  /** The scan behind `SplitWs`: `cur` is the piece being read, `gap` whether a run is being skipped. */
  function SplitRuns(s: string, cur: string, gap: bool): (r: seq<string>)
    ensures r != []
  {
    if s == [] then [cur]
    else if IsSpace(s[0]) then (if gap then [] else [cur]) + SplitRuns(s[1..], [], true)
    else SplitRuns(s[1..], cur + [s[0]], false)
  }

  /** `tokenize(s)`. */
  function Tokenize(s: string): (r: seq<string>)
    ensures r != []
  {
    var segments := PreTokenizeAll(SplitOn(Replace(s, "\\\"", Quote), '"'), 0);
    SplitWs(Replace(Strip(Join("\"", segments)), Quote, "\""))
  }

  /** What the builder makes of the inside of a string token: the placeholders put back. */
  function Restore(t: string): string {
    Replace(Replace(t, Space, " "), Newline, "\n")
  }
}

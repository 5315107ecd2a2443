/**
 * What `tokenize` does, stated against a character-by-character reading
 * of the same transformation (`Expand`) and the whitespace-separated
 * words of the result (`Words`).
 */
module TokenizerProperties {
  import opened Primitives
  import opened Tokenizer

  // ---------------------------------------------------------------------
  // Reference definitions

  /** What `pre_tokenize` makes of one character, inside a string literal or outside. */
  function Piece(c: char, inside: bool): string {
    if inside then (if c == ' ' then Space else if c == '\n' then Newline else [c])
    else if c == ' ' then " " + Space + " "
    else if c == '\n' then " " + Newline + " "
    else if IsPunct(c) then [' ', c, ' ']
    else [c]
  }

  /** The text `tokenize` splits, read left to right; each `"` enters or leaves a string literal. */
  function Expand(s: string, inside: bool): string {
    if s == [] then []
    else if s[0] == '"' then "\"" + Expand(s[1..], !inside)
    else Piece(s[0], inside) + Expand(s[1..], inside)
  }

  /**
   * `Expand` with the escapes read: a `\"` is a quote character that
   * neither enters nor leaves a string literal.
   */
  function Read(s: string, inside: bool): string
    decreases |s|
  {
    if s == [] then []
    else if |s| > 1 && s[0] == '\\' && s[1] == '"' then "\"" + Read(s[2..], inside)
    else if s[0] == '"' then "\"" + Read(s[1..], !inside)
    else Piece(s[0], inside) + Read(s[1..], inside)
  }

  /** Every character by its `Piece`: the text inside or outside one string literal. */
  function Pieces(s: string, inside: bool): string {
    if s == [] then [] else Piece(s[0], inside) + Pieces(s[1..], inside)
  }

  /** A string value as a program writes it: every `"` escaped with a backslash. */
  function Escape(b: string): string {
    if b == [] then [] else (if b[0] == '"' then "\\\"" else [b[0]]) + Escape(b[1..])
  }

  /** The number of `"` characters. */
  function Quotes(s: string): nat {
    if s == [] then 0 else (if s[0] == '"' then 1 else 0) + Quotes(s[1..])
  }

  /** The maximal runs of non-whitespace characters. */
  function Words(s: string): (r: seq<string>)
    ensures forall k :: 0 <= k < |r| ==> r[k] != [] && NoSpace(r[k])
  {
    WordsFrom(s, [])
  }

  function WordsFrom(s: string, cur: string): (r: seq<string>)
    requires NoSpace(cur)
    ensures forall k :: 0 <= k < |r| ==> r[k] != [] && NoSpace(r[k])
  {
    if s == [] then (if cur == [] then [] else [cur])
    else if IsSpace(s[0]) then (if cur == [] then [] else [cur]) + WordsFrom(s[1..], [])
    else WordsFrom(s[1..], cur + [s[0]])
  }

  // ---------------------------------------------------------------------
  // Sequence shapes, proved apart from the recursive functions that use them

  lemma HeadTail(x: string, y: string)
    requires x != []
    ensures (x + y)[0] == x[0] && (x + y)[1..] == x[1..] + y
  {
  }

  lemma SliceConcat(x: string, y: string, n: nat)
    requires n <= |x|
    ensures (x + y)[..n] == x[..n] && (x + y)[n..] == x[n..] + y
  {
  }

  lemma SplitAt(x: string, n: nat)
    requires n <= |x|
    ensures x == x[..n] + x[n..]
  {
  }

  lemma Assoc(a: string, b: string, c: string)
    ensures a + b + c == a + (b + c)
  {
  }

  // ---------------------------------------------------------------------
  // split and join

  /** Joining the pieces of `str.split` with the separator gives the text back. */
  lemma {:induction false} SplitOnJoin(s: string, sep: char)
    ensures Join([sep], SplitOn(s, sep)) == s
  {
    if s != [] {
      var t := SplitOn(s[1..], sep);
      SplitOnJoin(s[1..], sep);
      if s[0] == sep {
        assert ([[]] + t)[1..] == t;
      } else {
        JoinHead(sep, [s[0]], t[0], t[1..]);
        assert [t[0]] + t[1..] == t;
      }
    }
  }

  lemma {:induction false} JoinHead(sep: char, x: string, y: string, rest: seq<string>)
    ensures Join([sep], [x + y] + rest) == x + Join([sep], [y] + rest)
  {
    if rest != [] {
      assert ([x + y] + rest)[1..] == rest;
      assert ([y] + rest)[1..] == rest;
    }
  }

  // ---------------------------------------------------------------------
  // Replacing one character

  lemma ReplaceCons(a: char, t: string, c: char, rep: string)
    ensures Replace([a] + t, [c], rep) == (if a == c then rep else [a]) + Replace(t, [c], rep)
  {
    assert ([a] + t)[..1] == [a];
    assert ([a] + t)[1..] == t;
  }

  /** Replacing a character that does not occur changes nothing. */
  lemma {:induction false} ReplaceCharAbsent(s: string, c: char, rep: string)
    requires c !in s
    ensures Replace(s, [c], rep) == s
  {
    if s != [] {
      ReplaceCons(s[0], s[1..], c, rep);
      ReplaceCharAbsent(s[1..], c, rep);
      assert [s[0]] + s[1..] == s;
    }
  }

  /** Replacing a character distributes over concatenation. */
  lemma {:induction false} ReplaceCharConcat(x: string, y: string, c: char, rep: string)
    ensures Replace(x + y, [c], rep) == Replace(x, [c], rep) + Replace(y, [c], rep)
  {
    if x == [] {
      assert x + y == y;
    } else {
      ReplaceCons(x[0], x[1..] + y, c, rep);
      assert x + y == [x[0]] + (x[1..] + y);
      ReplaceCharConcat(x[1..], y, c, rep);
      ReplaceCons(x[0], x[1..], c, rep);
      assert [x[0]] + x[1..] == x;
    }
  }

  lemma {:induction false} PadPunctConcat(x: string, y: string)
    ensures PadPunct(x + y) == PadPunct(x) + PadPunct(y)
  {
    if x == [] {
      assert x + y == y;
    } else {
      assert (x + y)[0] == x[0] && (x + y)[1..] == x[1..] + y;
      PadPunctConcat(x[1..], y);
    }
  }

  lemma {:induction false} PadPunctAbsent(s: string)
    requires forall k :: 0 <= k < |s| ==> !IsPunct(s[k])
    ensures PadPunct(s) == s
  {
    if s != [] {
      PadPunctAbsent(s[1..]);
      assert [s[0]] + s[1..] == s;
    }
  }

  /** `pre_tokenize` distributes over concatenation. */
  lemma PreTokenizeConcat(i: nat, x: string, y: string)
    ensures PreTokenize(i, x + y) == PreTokenize(i, x) + PreTokenize(i, y)
  {
    var inside := i % 2 == 1;
    var s1 := if inside then Space else " " + Space + " ";
    var n1 := if inside then Newline else " " + Newline + " ";
    ReplaceCharConcat(x, y, ' ', s1);
    ReplaceCharConcat(Replace(x, " ", s1), Replace(y, " ", s1), '\n', n1);
    if !inside {
      PadPunctConcat(Replace(Replace(x, " ", s1), "\n", n1), Replace(Replace(y, " ", s1), "\n", n1));
    }
  }

  /** The two substitutions on one character. */
  lemma ReplaceTwice(a: char, s1: string, n1: string)
    requires '\n' !in s1
    ensures Replace(Replace([a], " ", s1), "\n", n1) == if a == ' ' then s1 else if a == '\n' then n1 else [a]
  {
    ReplaceCons(a, [], ' ', s1);
    assert Replace([], " ", s1) == [];
    if a == ' ' {
      assert Replace([a], " ", s1) == s1;
      ReplaceCharAbsent(s1, '\n', n1);
    } else {
      assert Replace([a], " ", s1) == [a];
      ReplaceCons(a, [], '\n', n1);
      assert Replace([], "\n", n1) == [];
    }
  }

  /** `pre_tokenize` of one character is its `Piece`. */
  lemma PreTokenizeChar(i: nat, a: char)
    ensures PreTokenize(i, [a]) == Piece(a, i % 2 == 1)
  {
    if i % 2 == 1 {
      ReplaceTwice(a, Space, Newline);
    } else {
      PreTokenizeOutside(i, a);
    }
  }

  lemma PreTokenizeOutside(i: nat, a: char)
    requires i % 2 == 0
    ensures PreTokenize(i, [a]) == Piece(a, false)
  {
    var s1 := " " + Space + " ";
    var n1 := " " + Newline + " ";
    PaddedPlain(Space);
    PaddedPlain(Newline);
    ReplaceTwice(a, s1, n1);
    if a == ' ' {
      PadPunctAbsent(s1);
    } else if a == '\n' {
      PadPunctAbsent(n1);
    } else {
      PadPunctPlain(a);
    }
  }

  /** A space or newline placeholder padded with spaces has no newline and nothing `pre_tokenize` pads. */
  lemma PaddedPlain(p: string)
    requires p == Space || p == Newline
    ensures '\n' !in " " + p + " "
    ensures forall k :: 0 <= k < |" " + p + " "| ==> !IsPunct((" " + p + " ")[k])
  {
  }

  lemma PadPunctPlain(a: char)
    ensures PadPunct([a]) == if IsPunct(a) then [' ', a, ' '] else [a]
  {
    assert PadPunct([a]) == (if IsPunct(a) then [' ', a, ' '] else [a]) + PadPunct([]);
  }

  /** `pre_tokenize`'s chain of substitutions acts on each character on its own. */
  lemma {:induction false} PreTokenizeCharwise(i: nat, seg: string)
    requires '"' !in seg
    ensures PreTokenize(i, seg) == Expand(seg, i % 2 == 1)
  {
    if seg == [] {
      assert PreTokenize(i, []) == [];
    } else {
      assert seg == [seg[0]] + seg[1..];
      PreTokenizeConcat(i, [seg[0]], seg[1..]);
      PreTokenizeChar(i, seg[0]);
      PreTokenizeCharwise(i, seg[1..]);
    }
  }

  /**
   * Splitting at `"`, pre-tokenizing the pieces by their parity and
   * joining them again with `"` is the character-wise `Expand`.
   */
  lemma {:induction false} SegmentsExpand(s: string, i: nat)
    ensures Join("\"", PreTokenizeAll(SplitOn(s, '"'), i)) == Expand(s, i % 2 == 1)
  {
    if s == [] {
      assert PreTokenize(i, []) == [];
    } else {
      var t := SplitOn(s[1..], '"');
      if s[0] == '"' {
        SegmentsExpand(s[1..], i + 1);
        assert SplitOn(s, '"') == [[]] + t;
        assert PreTokenizeAll([[]] + t, i) == [PreTokenize(i, [])] + PreTokenizeAll(t, i + 1);
        assert PreTokenize(i, []) == [];
        assert ([[]] + PreTokenizeAll(t, i + 1))[1..] == PreTokenizeAll(t, i + 1);
        assert (i + 1) % 2 == 1 <==> !(i % 2 == 1);
      } else {
        SegmentsExpand(s[1..], i);
        var a := s[0];
        assert SplitOn(s, '"') == [[a] + t[0]] + t[1..];
        assert '"' !in [a] + t[0] && '"' !in t[0];
        PreTokenizeCharwise(i, [a] + t[0]);
        PreTokenizeCharwise(i, t[0]);
        assert Expand([a] + t[0], i % 2 == 1) == Piece(a, i % 2 == 1) + Expand(t[0], i % 2 == 1) by {
          assert ([a] + t[0])[1..] == t[0];
        }
        var rest := PreTokenizeAll(t[1..], i + 1);
        assert PreTokenizeAll(t, i) == [PreTokenize(i, t[0])] + rest;
        assert PreTokenizeAll(SplitOn(s, '"'), i) == [Piece(a, i % 2 == 1) + PreTokenize(i, t[0])] + rest;
        JoinHead('"', Piece(a, i % 2 == 1), PreTokenize(i, t[0]), rest);
      }
    }
  }

  /** `Expand` of a concatenation: the second part starts inside a string after an odd number of quotes. */
  lemma {:induction false} ExpandConcat(x: string, y: string, inside: bool)
    ensures Expand(x + y, inside) == Expand(x, inside) + Expand(y, if Quotes(x) % 2 == 1 then !inside else inside)
  {
    if x == [] {
      assert x + y == y;
    } else {
      var next := if x[0] == '"' then !inside else inside;
      var h := if x[0] == '"' then "\"" else Piece(x[0], inside);
      var fy := if Quotes(x) % 2 == 1 then !inside else inside;
      assert fy == if Quotes(x[1..]) % 2 == 1 then !next else next;
      HeadTail(x, y);
      ExpandConcat(x[1..], y, next);
      assert Expand(x + y, inside) == h + Expand(x[1..] + y, next);
      assert Expand(x, inside) == h + Expand(x[1..], next);
      Assoc(h, Expand(x[1..], next), Expand(y, fy));
    }
  }

  // ---------------------------------------------------------------------
  // Whitespace

  /** A whitespace character separates the words before it from those after it. */
  lemma {:induction false} WordsSplit(x: string, c: char, y: string, cur: string)
    requires IsSpace(c) && NoSpace(cur)
    ensures WordsFrom(x + [c] + y, cur) == WordsFrom(x, cur) + WordsFrom(y, [])
  {
    if x == [] {
      assert x + [c] + y == [c] + y;
      assert ([c] + y)[1..] == y;
    } else {
      assert (x + [c] + y)[0] == x[0] && (x + [c] + y)[1..] == x[1..] + [c] + y;
      if IsSpace(x[0]) {
        WordsSplit(x[1..], c, y, []);
      } else {
        WordsSplit(x[1..], c, y, cur + [x[0]]);
      }
    }
  }

  /** Leading whitespace adds no word. */
  lemma {:induction false} WordsLeading(lead: string, y: string)
    requires forall k :: 0 <= k < |lead| ==> IsSpace(lead[k])
    ensures Words(lead + y) == Words(y)
  {
    if lead != [] {
      assert lead + y == [] + [lead[0]] + (lead[1..] + y);
      WordsSplit([], lead[0], lead[1..] + y, []);
      WordsLeading(lead[1..], y);
    } else {
      assert lead + y == y;
    }
  }

  /** Trailing whitespace adds no word. */
  lemma {:induction false} WordsTrailing(y: string, trail: string)
    requires forall k :: 0 <= k < |trail| ==> IsSpace(trail[k])
    ensures Words(y + trail) == Words(y)
  {
    if trail != [] {
      var n := |trail| - 1;
      assert y + trail == (y + trail[..n]) + [trail[n]] + [];
      WordsSplit(y + trail[..n], trail[n], [], []);
      WordsTrailing(y, trail[..n]);
    } else {
      assert y + trail == y;
    }
  }

  lemma LStripWords(s: string)
    ensures Words(LStrip(s)) == Words(s)
  {
    var l := LStrip(s);
    var lead := s[..|s| - |l|];
    assert s == lead + l;
    assert forall k :: 0 <= k < |lead| ==> IsSpace(lead[k]) by {
      forall k | 0 <= k < |lead| ensures IsSpace(lead[k]) {
        assert lead[k] == s[k];
      }
    }
    WordsLeading(lead, l);
  }

  lemma RStripWords(l: string)
    ensures Words(RStrip(l)) == Words(l)
  {
    var r := RStrip(l);
    var trail := l[|r|..];
    assert l == r + trail;
    assert forall k :: 0 <= k < |trail| ==> IsSpace(trail[k]) by {
      forall k | 0 <= k < |trail| ensures IsSpace(trail[k]) {
        assert trail[k] == l[|r| + k];
      }
    }
    WordsTrailing(r, trail);
  }

  /** `strip` removes no word. */
  lemma StripWords(s: string)
    ensures Words(Strip(s)) == Words(s)
  {
    LStripWords(s);
    RStripWords(LStrip(s));
  }

  /** On text with no whitespace at either end, `re.split` gives the words. */
  lemma {:induction false} SplitRunsWords(s: string, cur: string, gap: bool)
    requires s != [] && !IsSpace(s[|s| - 1]) && NoSpace(cur)
    requires gap ==> cur == []
    requires cur == [] && !gap ==> !IsSpace(s[0])
    ensures SplitRuns(s, cur, gap) == WordsFrom(s, cur)
  {
    if |s| > 1 {
      assert s[1..][|s[1..]| - 1] == s[|s| - 1];
      if IsSpace(s[0]) {
        SplitRunsWords(s[1..], [], true);
      } else {
        SplitRunsWords(s[1..], cur + [s[0]], false);
      }
    }
  }

  /**
   * `re.split` after `strip`: the words of the text, or the one empty
   * piece when the text is all whitespace.
   */
  lemma SplitStripped(s: string)
    ensures SplitWs(Strip(s)) == if Words(s) == [] then [""] else Words(s)
  {
    StripWords(s);
    if Strip(s) != [] {
      SplitRunsWords(Strip(s), [], false);
    }
  }

  // ---------------------------------------------------------------------
  // Placeholders

  /**
   * A text with no backslash and no two underscores in a row: it has no
   * escaped quote, and it cannot spell the `__` that starts a placeholder.
   */
  predicate Clean(s: string) {
    (forall k :: 0 <= k < |s| ==> s[k] != '\\') && NoDoubleUnderscore(s)
  }

  predicate NoDoubleUnderscore(s: string) {
    forall k :: 0 <= k < |s| - 1 ==> s[k] != '_' || s[k + 1] != '_'
  }

  lemma NoDoubleTail(s: string)
    requires NoDoubleUnderscore(s) && s != []
    ensures NoDoubleUnderscore(s[1..])
    ensures |s| > 1 && s[0] == '_' ==> s[1] != '_'
  {
    forall k | 0 <= k < |s[1..]| - 1 ensures s[1..][k] != '_' || s[1..][k + 1] != '_' {
      assert s[1..][k] == s[k + 1] && s[1..][k + 1] == s[k + 2];
    }
  }

  /**
   * A text starts safely when a placeholder cannot begin one character
   * before it: its first character is not `_`, or it starts with a
   * placeholder's `__B`, where a `_` in front mismatches at `B`.
   */
  predicate StartsSafely(e: string) {
    e == [] || e[0] != '_' || (|e| > 2 && e[1] == '_' && e[2] == 'B')
  }

  /** A text that starts safely copies a `_` put in front of it. */
  lemma UnderscoreStep(e: string, pat: string, rep: string)
    requires |pat| > 2 && pat[0] == '_' && pat[1] == '_' && pat[2] == 'B'
    requires StartsSafely(e)
    ensures Replace("_" + e, pat, rep) == "_" + Replace(e, pat, rep)
  {
    var x := "_" + e;
    assert x[1..] == e;
    if |x| >= |pat| {
      if e[0] != '_' {
        ReplaceStepAt(x, pat, rep, 1);
      } else {
        ReplaceStepAt(x, pat, rep, 2);
      }
    }
  }

  /** The expansion of a text that does not start with `_` starts safely. */
  lemma ExpandHead(s: string, inside: bool)
    requires s == [] || s[0] != '_'
    ensures StartsSafely(Expand(s, inside))
  {
    if s != [] && s[0] != '"' {
      var pc := Piece(s[0], inside);
      assert Expand(s, inside) == pc + Expand(s[1..], inside);
      if inside && s[0] == ' ' {
        assert pc == "__BEDLAM_SPACE";
      } else if inside && s[0] == '\n' {
        assert pc == "__BEDLAM_NEWLINE";
      }
    }
  }

  /** Where the text cannot start an occurrence, `Replace` keeps its first character. */
  lemma ReplaceStep(x: string, pat: string, rep: string)
    requires pat != [] && x != []
    requires x[0] != pat[0] || (|x| > 1 && |pat| > 1 && x[1] != pat[1])
    ensures Replace(x, pat, rep) == [x[0]] + Replace(x[1..], pat, rep)
  {
    if |x| >= |pat| {
      assert x[..|pat|][0] == x[0];
      assert |pat| > 1 ==> x[..|pat|][1] == x[1];
    }
  }

  /** A mismatch anywhere within the first `|pat|` characters means no occurrence starts here. */
  lemma ReplaceStepAt(x: string, pat: string, rep: string, i: nat)
    requires pat != [] && |x| >= |pat| && i < |pat| && x[i] != pat[i]
    ensures Replace(x, pat, rep) == [x[0]] + Replace(x[1..], pat, rep)
  {
    assert x[..|pat|][i] == x[i];
  }

  /** No `_` is followed by another `_`, and the text does not end in `_`. */
  predicate Unforgeable(p: string) {
    forall j :: 0 <= j < |p| ==> LoneAt(p, j)
  }

  /** The character at `j` is not `_`, or it is followed by one that is not. */
  predicate LoneAt(p: string, j: nat)
    requires j < |p|
  {
    p[j] != '_' || (j + 1 < |p| && p[j + 1] != '_')
  }

  lemma UnforgeableTail(p: string)
    requires Unforgeable(p) && p != []
    ensures Unforgeable(p[1..])
  {
    forall j | 0 <= j < |p| - 1 ensures LoneAt(p[1..], j) {
      assert p[1..][j] == p[j + 1];
      assert LoneAt(p, j + 1);
      if j + 1 < |p| - 1 {
        assert p[1..][j + 1] == p[j + 2];
      }
    }
  }

  /**
   * An unforgeable text cannot hold the start of a placeholder, so
   * `Replace` copies it.
   */
  lemma {:induction false} SkipChars(p: string, y: string, pat: string, rep: string)
    requires |pat| > 1 && pat[0] == '_' && pat[1] == '_'
    requires Unforgeable(p)
    ensures Replace(p + y, pat, rep) == p + Replace(y, pat, rep)
  {
    if p == [] {
      assert p + y == y;
    } else {
      var x := p + y;
      HeadTail(p, y);
      assert |p| > 1 ==> x[1] == p[1];
      assert LoneAt(p, 0);
      ReplaceStep(x, pat, rep);
      UnforgeableTail(p);
      SkipChars(p[1..], y, pat, rep);
      Assoc([p[0]], p[1..], Replace(y, pat, rep));
      assert [p[0]] + p[1..] == p;
    }
  }

  /** The placeholders, told apart by their tenth character. */
  predicate IsPlaceholder(p: string) {
    p == Quote || p == Space || p == Newline
  }

  lemma PlaceholderShape(p: string)
    requires IsPlaceholder(p)
    ensures |p| > 9 && p[0] == '_' && p[1] == '_' && Unforgeable(p[1..])
    ensures p[9] == if p == Quote then 'Q' else if p == Space then 'S' else 'N'
  {
    if p == Quote {
      assert p[1..] == "_BEDLAM_QUOTE";
    } else if p == Space {
      assert p[1..] == "_BEDLAM_SPACE";
    } else {
      assert p[1..] == "_BEDLAM_NEWLINE";
    }
  }

  /** A text that differs from the pattern at position 9 and is unforgeable after its first character. */
  lemma SkipDiffering(p: string, y: string, pat: string, rep: string)
    requires |p| > 9 && |pat| > 9 && pat[0] == '_' && pat[1] == '_'
    requires p[9] != pat[9] && Unforgeable(p[1..])
    ensures Replace(p + y, pat, rep) == p + Replace(y, pat, rep)
  {
    var x := p + y;
    assert x[1..] == p[1..] + y;
    if |x| >= |pat| {
      assert x[9] == p[9];
      ReplaceStepAt(x, pat, rep, 9);
      SkipChars(p[1..], y, pat, rep);
    }
  }

  /** One placeholder is not mistaken for another. */
  lemma SkipPlaceholder(p: string, y: string, pat: string, rep: string)
    requires IsPlaceholder(p) && IsPlaceholder(pat) && p != pat
    ensures Replace(p + y, pat, rep) == p + Replace(y, pat, rep)
  {
    PlaceholderShape(p);
    PlaceholderShape(pat);
    SkipDiffering(p, y, pat, rep);
  }

  /** A placeholder is replaced where it stands. */
  lemma MatchPlaceholder(y: string, pat: string, rep: string)
    requires pat != []
    ensures Replace(pat + y, pat, rep) == rep + Replace(y, pat, rep)
  {
    assert (pat + y)[..|pat|] == pat && (pat + y)[|pat|..] == y;
  }

  /** Text without `_` is copied by the restoration of a placeholder. */
  lemma SkipPlain(w: string, y: string, pat: string, rep: string)
    requires |pat| > 1 && pat[0] == '_' && pat[1] == '_' && '_' !in w
    ensures Replace(w + y, pat, rep) == w + Replace(y, pat, rep)
  {
    assert Unforgeable(w);
    SkipChars(w, y, pat, rep);
  }

  /** Concatenation of four texts, regrouped to the right. */
  lemma Regroup(a: string, b: string, c: string, d: string)
    ensures a + b + c + d == a + (b + (c + d))
  {
  }

  /** Concatenation of five texts, regrouped to the right. */
  lemma Regroup5(a: string, b: string, c: string, d: string, e: string)
    ensures a + b + c + d + e == a + (b + (c + (d + e)))
  {
  }

  /** A word the restoration of a placeholder copies is still copied when padded with text without `_`. */
  lemma SkipPadded(w: string, p: string, y: string, pat: string, rep: string)
    requires |pat| > 1 && pat[0] == '_' && pat[1] == '_' && '_' !in w
    requires Replace(p + (w + y), pat, rep) == p + Replace(w + y, pat, rep)
    ensures Replace(w + p + w + y, pat, rep) == w + p + w + Replace(y, pat, rep)
  {
    calc {
      Replace(w + p + w + y, pat, rep);
    == { Regroup(w, p, w, y); }
      Replace(w + (p + (w + y)), pat, rep);
    == { SkipPlain(w, p + (w + y), pat, rep); }
      w + (p + Replace(w + y, pat, rep));
    == { SkipPlain(w, y, pat, rep); }
      w + (p + (w + Replace(y, pat, rep)));
    == { Regroup(w, p, w, Replace(y, pat, rep)); }
      w + p + w + Replace(y, pat, rep);
    }
  }

  /** What `pre_tokenize` makes of a character other than `_` holds no `QUOTE` placeholder. */
  lemma PieceKeepsQuote(c: char, inside: bool, y: string)
    requires c != '_'
    ensures Replace(Piece(c, inside) + y, Quote, "\"") == Piece(c, inside) + Replace(y, Quote, "\"")
  {
    if c == ' ' || c == '\n' {
      var p := if c == ' ' then Space else Newline;
      if inside {
        SkipPlaceholder(p, y, Quote, "\"");
      } else {
        SkipPlaceholder(p, " " + y, Quote, "\"");
        PlaceholderShape(Quote);
        assert '_' !in " ";
        SkipPadded(" ", p, y, Quote, "\"");
      }
    } else {
      PlaceholderShape(Quote);
      SkipPlain(Piece(c, inside), y, Quote, "\"");
    }
  }

  /** Leading whitespace is copied by `Replace` of a pattern without whitespace. */
  lemma {:induction false} ReplaceLeadingWs(lead: string, z: string, pat: string, rep: string)
    requires pat != [] && NoSpace(pat)
    requires forall k :: 0 <= k < |lead| ==> IsSpace(lead[k])
    ensures Replace(lead + z, pat, rep) == lead + Replace(z, pat, rep)
  {
    if lead == [] {
      assert lead + z == z;
    } else {
      var x := lead + z;
      HeadTail(lead, z);
      ReplaceStep(x, pat, rep);
      ReplaceLeadingWs(lead[1..], z, pat, rep);
      Assoc([lead[0]], lead[1..], Replace(z, pat, rep));
      assert [lead[0]] + lead[1..] == lead;
    }
  }

  lemma NoMatchIntoTrail(y: string, trail: string, pat: string)
    requires NoSpace(pat) && |y| < |pat| <= |y + trail|
    requires forall k :: 0 <= k < |trail| ==> IsSpace(trail[k])
    ensures (y + trail)[..|pat|] != pat
  {
    assert (y + trail)[..|pat|][|y|] == trail[0];
  }

  /** No occurrence of a pattern without whitespace reaches into trailing whitespace. */
  lemma {:induction false} ReplaceTrailingWs(y: string, trail: string, pat: string, rep: string)
    requires pat != [] && NoSpace(pat)
    requires forall k :: 0 <= k < |trail| ==> IsSpace(trail[k])
    ensures Replace(y + trail, pat, rep) == Replace(y, pat, rep) + trail
    decreases |y|
  {
    var x := y + trail;
    if |x| < |pat| {
    } else if |y| >= |pat| && y[..|pat|] == pat {
      SliceConcat(y, trail, |pat|);
      ReplaceTrailingWs(y[|pat|..], trail, pat, rep);
      Assoc(rep, Replace(y[|pat|..], pat, rep), trail);
    } else {
      if |y| < |pat| {
        NoMatchIntoTrail(y, trail, pat);
      } else {
        SliceConcat(y, trail, |pat|);
      }
      if y == [] {
        ReplaceLeadingWs(trail, [], pat, rep);
        assert trail + [] == trail && x == trail;
      } else {
        HeadTail(y, trail);
        ReplaceTrailingWs(y[1..], trail, pat, rep);
        assert Replace(x, pat, rep) == [y[0]] + (Replace(y[1..], pat, rep) + trail);
        if |y| < |pat| {
          assert [y[0]] + y[1..] == y;
        }
        assert Replace(y, pat, rep) == [y[0]] + Replace(y[1..], pat, rep);
        Assoc([y[0]], Replace(y[1..], pat, rep), trail);
      }
    }
  }

  /** `strip` removes whitespace from the ends and nothing else. */
  lemma StripParts(x: string) returns (lead: string, trail: string)
    ensures x == lead + (Strip(x) + trail)
    ensures forall k :: 0 <= k < |lead| ==> IsSpace(lead[k])
    ensures forall k :: 0 <= k < |trail| ==> IsSpace(trail[k])
  {
    lead := LeadingPart(x);
    trail := TrailingPart(LStrip(x));
  }

  lemma LeadingPart(x: string) returns (lead: string)
    ensures x == lead + LStrip(x)
    ensures forall k :: 0 <= k < |lead| ==> IsSpace(lead[k])
  {
    var l := LStrip(x);
    lead := x[..|x| - |l|];
    SplitAt(x, |x| - |l|);
    forall k | 0 <= k < |lead| ensures IsSpace(lead[k]) {
      assert lead[k] == x[k];
    }
  }

  lemma TrailingPart(l: string) returns (trail: string)
    ensures l == RStrip(l) + trail
    ensures forall k :: 0 <= k < |trail| ==> IsSpace(trail[k])
  {
    var core := RStrip(l);
    trail := l[|core|..];
    SplitAt(l, |core|);
    forall k | 0 <= k < |trail| ensures IsSpace(trail[k]) {
      assert trail[k] == l[|core| + k];
    }
  }

  /** `Replace` keeps the first and the last character of a text, or puts the replacement's there. */
  lemma {:induction false} ReplaceEnds(x: string, pat: string, rep: string)
    requires pat != [] && rep != [] && x != []
    ensures var r := Replace(x, pat, rep);
      r != [] && (r[0] == x[0] || r[0] == rep[0]) && (r[|r| - 1] == x[|x| - 1] || r[|r| - 1] == rep[|rep| - 1])
    decreases |x|
  {
    if |x| >= |pat| {
      var rest := if x[..|pat|] == pat then x[|pat|..] else x[1..];
      if rest != [] {
        ReplaceEnds(rest, pat, rep);
        assert rest[|rest| - 1] == x[|x| - 1];
      }
    }
  }

  /** Leading whitespace before a text that does not start with whitespace is what `lstrip` drops. */
  lemma {:induction false} LStripLeading(lead: string, w: string)
    requires forall k :: 0 <= k < |lead| ==> IsSpace(lead[k])
    requires w == [] || !IsSpace(w[0])
    ensures LStrip(lead + w) == w
  {
    if lead == [] {
      assert lead + w == w;
    } else {
      HeadTail(lead, w);
      LStripLeading(lead[1..], w);
    }
  }

  /** Trailing whitespace after a text that does not end in whitespace is what `rstrip` drops. */
  lemma {:induction false} RStripTrailing(w: string, trail: string)
    requires forall k :: 0 <= k < |trail| ==> IsSpace(trail[k])
    requires w == [] || !IsSpace(w[|w| - 1])
    ensures RStrip(w + trail) == w
  {
    if trail == [] {
      assert w + trail == w;
    } else {
      var n := |trail| - 1;
      assert (w + trail)[..|w + trail| - 1] == w + trail[..n];
      RStripTrailing(w, trail[..n]);
    }
  }

  /** `strip` of a text with whitespace only around a core that has none at its ends. */
  lemma StripExact(lead: string, r: string, trail: string)
    requires forall k :: 0 <= k < |lead| ==> IsSpace(lead[k])
    requires forall k :: 0 <= k < |trail| ==> IsSpace(trail[k])
    requires r == [] || (!IsSpace(r[0]) && !IsSpace(r[|r| - 1]))
    ensures Strip(lead + (r + trail)) == r
  {
    if r == [] {
      var all := lead + trail;
      assert lead + (r + trail) == all + [];
      assert forall k :: 0 <= k < |all| ==> IsSpace(all[k]) by {
        forall k | 0 <= k < |all| ensures IsSpace(all[k]) {
          if k < |lead| {
            assert all[k] == lead[k];
          } else {
            assert all[k] == trail[k - |lead|];
          }
        }
      }
      LStripLeading(all, []);
    } else {
      LStripLeading(lead, r + trail);
      RStripTrailing(r, trail);
    }
  }

  /** `strip` and the restoration of the escaped quotes commute. */
  lemma StripReplace(x: string)
    ensures Replace(Strip(x), Quote, "\"") == Strip(Replace(x, Quote, "\""))
  {
    var lead, trail := StripParts(x);
    var core := Strip(x);
    ReplaceAroundCore(lead, core, trail);
    StripExact(lead, Replace(core, Quote, "\""), trail);
  }

  /** The restoration of the escaped quotes leaves the whitespace around a text in place and keeps its ends free of it. */
  lemma ReplaceAroundCore(lead: string, core: string, trail: string)
    requires forall k :: 0 <= k < |lead| ==> IsSpace(lead[k])
    requires forall k :: 0 <= k < |trail| ==> IsSpace(trail[k])
    requires core == [] || (!IsSpace(core[0]) && !IsSpace(core[|core| - 1]))
    ensures var r := Replace(core, Quote, "\"");
      && Replace(lead + (core + trail), Quote, "\"") == lead + (r + trail)
      && (r == [] || (!IsSpace(r[0]) && !IsSpace(r[|r| - 1])))
  {
    QuoteNoSpace();
    ReplaceAround(lead, core, trail);
    if core != [] {
      ReplaceEnds(core, Quote, "\"");
    }
  }

  lemma QuoteNoSpace()
    ensures Quote != [] && NoSpace(Quote)
  {
    PlaceholderShape(Quote);
    assert NoSpace(Quote);
  }

  lemma ReplaceAround(lead: string, core: string, trail: string)
    requires forall k :: 0 <= k < |lead| ==> IsSpace(lead[k])
    requires forall k :: 0 <= k < |trail| ==> IsSpace(trail[k])
    requires Quote != [] && NoSpace(Quote)
    ensures Replace(lead + (core + trail), Quote, "\"") == lead + (Replace(core, Quote, "\"") + trail)
  {
    ReplaceLeadingWs(lead, core + trail, Quote, "\"");
    ReplaceTrailingWs(core, trail, Quote, "\"");
  }

  // ---------------------------------------------------------------------
  // tokenize

  /**
   * On a text with no backslash and no `__`, `tokenize` gives the
   * whitespace-separated words of the character-wise expansion, or the
   * single empty token when there are none.
   */
  lemma TokenizeClean(s: string)
    requires Clean(s)
    ensures var w := Words(Expand(s, false));
      Tokenize(s) == if w == [] then [""] else w
  {
    ReadWithoutEscape(s, false);
    TokenizeEscaped(s);
  }

  /**
   * On a text with no `__`, `tokenize` gives the whitespace-separated
   * words of the reading of the text in which each `\"` stands for a
   * quote character, or the single empty token when there are none.
   */
  lemma TokenizeEscaped(s: string)
    requires NoDoubleUnderscore(s)
    ensures var w := Words(Read(s, false));
      Tokenize(s) == if w == [] then [""] else w
  {
    var q := "\"";
    var escaped := Replace(s, "\\\"", Quote);
    var e := Expand(escaped, false);
    assert Join(q, PreTokenizeAll(SplitOn(escaped, '"'), 0)) == e by {
      SegmentsExpand(escaped, 0);
    }
    assert Replace(Strip(e), Quote, q) == Strip(Read(s, false)) by {
      EscapedExpansion(s, false);
      StripReplace(e);
    }
    assert Tokenize(s) == SplitWs(Strip(Read(s, false)));
    SplitStripped(Read(s, false));
  }

  /** Without a backslash there is no escape: the reading is the expansion. */
  lemma {:induction false} ReadWithoutEscape(s: string, inside: bool)
    requires forall k :: 0 <= k < |s| ==> s[k] != '\\'
    ensures Read(s, inside) == Expand(s, inside)
    decreases |s|
  {
    if s != [] {
      ReadWithoutEscape(s[1..], if s[0] == '"' then !inside else inside);
    }
  }

  /** Characters that `pre_tokenize` passes through unchanged, wherever they stand. */
  predicate Inert(p: string) {
    forall k :: 0 <= k < |p| ==> p[k] != '"' && p[k] != ' ' && p[k] != '\n' && !IsPunct(p[k])
  }

  lemma {:induction false} ExpandInert(p: string, z: string, inside: bool)
    requires Inert(p)
    ensures Expand(p + z, inside) == p + Expand(z, inside)
  {
    if p == [] {
      assert p + z == z;
    } else {
      HeadTail(p, z);
      assert Inert(p[1..]) by {
        forall k | 0 <= k < |p[1..]| ensures p[1..][k] == p[k + 1] {
        }
      }
      ExpandInert(p[1..], z, inside);
      Assoc([p[0]], p[1..], Expand(z, inside));
      assert [p[0]] + p[1..] == p;
    }
  }

  /** What escaping the quotes makes of a text that does not start with `_` still starts safely. */
  lemma EscapedHead(t: string, inside: bool)
    requires t == [] || t[0] != '_'
    ensures StartsSafely(Expand(Replace(t, "\\\"", Quote), inside))
  {
    var esc := "\\\"";
    var r := Replace(t, esc, Quote);
    if |t| >= 2 && t[..2] == esc {
      assert Inert(Quote);
      ExpandInert(Quote, Replace(t[2..], esc, Quote), inside);
      assert Quote[..3] == "__B";
    } else {
      assert r == [] || r[0] == t[0];
      ExpandHead(r, inside);
    }
  }

  /**
   * Escaping the quotes, expanding, and putting the quotes back is the
   * reading in which `\"` is a quote character.
   */
  lemma {:induction false} EscapedExpansion(s: string, inside: bool)
    requires NoDoubleUnderscore(s)
    ensures Replace(Expand(Replace(s, "\\\"", Quote), inside), Quote, "\"") == Read(s, inside)
    decreases |s|
  {
    if s != [] {
      NoDoubleTail(s);
      if |s| > 1 && s[0] == '\\' && s[1] == '"' {
        NoDoubleTail(s[1..]);
        assert s[1..][1..] == s[2..];
        EscapedExpansion(s[2..], inside);
        EscapedQuoteStep(s, inside);
      } else {
        var next := if s[0] == '"' then !inside else inside;
        EscapedExpansion(s[1..], next);
        EscapedPlainStep(s, inside);
      }
    }
  }

  /** The step of `EscapedExpansion` over an escaped quote. */
  lemma EscapedQuoteStep(s: string, inside: bool)
    requires |s| > 1 && s[0] == '\\' && s[1] == '"' && NoDoubleUnderscore(s[2..])
    requires Replace(Expand(Replace(s[2..], "\\\"", Quote), inside), Quote, "\"") == Read(s[2..], inside)
    ensures Replace(Expand(Replace(s, "\\\"", Quote), inside), Quote, "\"") == Read(s, inside)
  {
    var esc, q := "\\\"", "\"";
    assert s[..2] == esc;
    var r := Replace(s[2..], esc, Quote);
    assert Inert(Quote);
    ExpandInert(Quote, r, inside);
    MatchPlaceholder(Expand(r, inside), Quote, q);
  }

  /** The step of `EscapedExpansion` over any other character. */
  lemma EscapedPlainStep(s: string, inside: bool)
    requires s != [] && !(|s| > 1 && s[0] == '\\' && s[1] == '"') && NoDoubleUnderscore(s)
    requires var next := if s[0] == '"' then !inside else inside;
      Replace(Expand(Replace(s[1..], "\\\"", Quote), next), Quote, "\"") == Read(s[1..], next)
    ensures Replace(Expand(Replace(s, "\\\"", Quote), inside), Quote, "\"") == Read(s, inside)
  {
    var esc, q := "\\\"", "\"";
    var r := Replace(s[1..], esc, Quote);
    assert Replace(s, esc, Quote) == [s[0]] + r;
    var next := if s[0] == '"' then !inside else inside;
    assert ([s[0]] + r)[1..] == r;
    if s[0] == '"' {
      SkipChars(q, Expand(r, next), Quote, q);
    } else if s[0] == '_' {
      EscapedHead(s[1..], inside);
      PlaceholderShape(Quote);
      UnderscoreStep(Expand(r, inside), Quote, q);
    } else {
      PieceKeepsQuote(s[0], inside, Expand(r, inside));
    }
  }

  lemma {:induction false} QuotesConcat(x: string, y: string)
    ensures Quotes(x + y) == Quotes(x) + Quotes(y)
  {
    if x == [] {
      assert x + y == y;
    } else {
      assert (x + y)[0] == x[0] && (x + y)[1..] == x[1..] + y;
      QuotesConcat(x[1..], y);
    }
  }

  lemma {:induction false} NoQuotes(s: string)
    requires '"' !in s
    ensures Quotes(s) == 0
  {
    if s != [] {
      NoQuotes(s[1..]);
    }
  }

  /** Two texts without `__` joined by a character other than `_`. */
  lemma NoDoubleAround(x: string, c: char, y: string)
    requires NoDoubleUnderscore(x) && NoDoubleUnderscore(y) && c != '_'
    ensures NoDoubleUnderscore(x + [c] + y)
  {
    var z := x + [c] + y;
    forall k | 0 <= k < |z| - 1 ensures z[k] != '_' || z[k + 1] != '_' {
      if k > |x| {
        assert z[k] == y[k - |x| - 1] && z[k + 1] == y[k - |x|];
      } else if k + 1 < |x| {
        assert z[k] == x[k] && z[k + 1] == x[k + 1];
      }
    }
  }

  /** Two clean texts joined by a character other than `_` and backslash. */
  lemma CleanAround(x: string, c: char, y: string)
    requires Clean(x) && Clean(y) && c != '_' && c != '\\'
    ensures Clean(x + [c] + y)
  {
    var z := x + [c] + y;
    forall k | 0 <= k < |z| ensures z[k] != '\\' {
      if k > |x| {
        assert z[k] == y[k - |x| - 1];
      } else if k < |x| {
        assert z[k] == x[k];
      }
    }
    NoDoubleAround(x, c, y);
  }

  /** A nonempty run of non-whitespace is one word. */
  lemma {:induction false} WordsOfWord(w: string, cur: string)
    requires NoSpace(w) && NoSpace(cur) && cur + w != []
    ensures WordsFrom(w, cur) == [cur + w]
  {
    if w == [] {
      assert cur + w == cur;
    } else {
      assert !IsSpace(w[0]);
      assert NoSpace(w[1..]) by {
        forall k | 0 <= k < |w[1..]| ensures !IsSpace(w[1..][k]) {
          assert w[1..][k] == w[k + 1];
        }
      }
      assert NoSpace(cur + [w[0]]) by {
        forall k | 0 <= k < |cur + [w[0]]| ensures !IsSpace((cur + [w[0]])[k]) {
          if k < |cur| {
            assert (cur + [w[0]])[k] == cur[k];
          }
        }
      }
      WordsOfWord(w[1..], cur + [w[0]]);
      assert cur + [w[0]] + w[1..] == cur + w;
    }
  }

  /** A text set off by a space on each side is one word between the words around it. */
  lemma SpacedWord(x: string, w: string, y: string)
    requires w != [] && NoSpace(w)
    ensures Words(x + " " + w + " " + y) == Words(x) + [w] + Words(y)
  {
    assert x + " " + w + " " + y == x + [' '] + (w + [' '] + y);
    WordsSplit(x, ' ', w + [' '] + y, []);
    WordsSplit(w, ' ', y, []);
    WordsOfWord(w, []);
    assert [] + w == w;
  }

  /**
   * A bracket or comma outside a string literal is a token of its own:
   * the tokens of the text are those before it, the bracket, and those
   * after it.
   */
  lemma BracketIsToken(u: string, c: char, v: string)
    requires IsPunct(c) && Quotes(u) % 2 == 0
    ensures Words(Expand(u + [c] + v, false)) == Words(Expand(u, false)) + [[c]] + Words(Expand(v, false))
  {
    var e, g := Expand(u, false), Expand(v, false);
    calc {
      Expand(u + [c] + v, false);
    == { Assoc(u, [c], v); }
      Expand(u + ([c] + v), false);
    == { ExpandConcat(u, [c] + v, false); }
      e + Expand([c] + v, false);
    == { PunctStep(c, v); }
      e + ([' ', c, ' '] + g);
    == { Padded(e, c, g); }
      e + " " + [c] + " " + g;
    }
    SpacedWord(e, [c], g);
  }

  lemma PunctStep(c: char, v: string)
    requires IsPunct(c)
    ensures Expand([c] + v, false) == [' ', c, ' '] + Expand(v, false)
  {
    assert ([c] + v)[0] == c && ([c] + v)[1..] == v;
  }

  lemma Padded(e: string, c: char, g: string)
    ensures e + ([' ', c, ' '] + g) == e + " " + [c] + " " + g
  {
  }

  /** The same, for the tokens `tokenize` returns. */
  lemma TokenizeBracket(u: string, c: char, v: string)
    requires IsPunct(c) && Quotes(u) % 2 == 0 && Clean(u) && Clean(v)
    ensures Tokenize(u + [c] + v) == Words(Expand(u, false)) + [[c]] + Words(Expand(v, false))
  {
    CleanAround(u, c, v);
    TokenizeClean(u + [c] + v);
    BracketIsToken(u, c, v);
  }

  // ---------------------------------------------------------------------
  // String literals

  /** A character after which, or before which, a string literal starts a token of its own. */
  predicate Delimiter(c: char) {
    c == ' ' || c == '\n' || IsPunct(c)
  }

  /** The only whitespace the placeholders protect. */
  predicate ProtectedSpacing(b: string) {
    forall k :: 0 <= k < |b| ==> IsSpace(b[k]) ==> b[k] == ' ' || b[k] == '\n'
  }

  lemma PieceOfDelimiter(c: char)
    requires Delimiter(c)
    ensures var pc := Piece(c, false); |pc| >= 3 && pc[0] == ' ' && pc[|pc| - 1] == ' '
  {
  }

  lemma ExpandEndsInSpace(u: string) returns (pre: string)
    requires u != [] && Delimiter(u[|u| - 1]) && Quotes(u) % 2 == 0
    ensures Expand(u, false) == pre + " "
  {
    var n := |u| - 1;
    assert u == u[..n] + [u[n]];
    QuotesConcat(u[..n], [u[n]]);
    assert Quotes([u[n]]) == 0;
    ExpandConcat(u[..n], [u[n]], false);
    var pc := Piece(u[n], false);
    assert Expand([u[n]], false) == pc + Expand([], false);
    PieceOfDelimiter(u[n]);
    pre := Expand(u[..n], false) + pc[..|pc| - 1];
    assert pc == pc[..|pc| - 1] + " ";
  }

  lemma ExpandStartsWithSpace(v: string) returns (post: string)
    requires v != [] && Delimiter(v[0])
    ensures Expand(v, false) == " " + post
  {
    var pc := Piece(v[0], false);
    assert v[0] != '"';
    assert Expand(v, false) == pc + Expand(v[1..], false);
    PieceOfDelimiter(v[0]);
    post := pc[1..] + Expand(v[1..], false);
    assert pc == " " + pc[1..];
  }

  /** The inside of a string literal whose only whitespace is spaces and newlines has no whitespace left. */
  lemma {:induction false} PiecesNoSpace(b: string)
    requires ProtectedSpacing(b)
    ensures NoSpace(Pieces(b, true))
  {
    if b != [] {
      assert ProtectedSpacing(b[1..]) by {
        forall k | 0 <= k < |b[1..]| ensures IsSpace(b[1..][k]) ==> b[1..][k] == ' ' || b[1..][k] == '\n' {
          assert b[1..][k] == b[k + 1];
        }
      }
      PiecesNoSpace(b[1..]);
      var pc := Piece(b[0], true);
      assert NoSpace(pc) by {
        if b[0] == ' ' {
          assert pc == "__BEDLAM_SPACE";
        } else if b[0] == '\n' {
          assert pc == "__BEDLAM_NEWLINE";
        }
      }
      var e := Pieces(b[1..], true);
      forall k | 0 <= k < |pc + e| ensures !IsSpace((pc + e)[k]) {
        if k >= |pc| {
          assert (pc + e)[k] == e[k - |pc|];
        } else {
          assert (pc + e)[k] == pc[k];
        }
      }
    }
  }

  /** Without a quote, nothing enters or leaves a string literal. */
  lemma {:induction false} ExpandIsPieces(b: string, inside: bool)
    requires '"' !in b
    ensures Expand(b, inside) == Pieces(b, inside)
  {
    if b != [] {
      ExpandIsPieces(b[1..], inside);
    }
  }

  /** A word with a space or nothing on each side. */
  lemma WordsAround(x: string, w: string, y: string)
    requires w != [] && NoSpace(w)
    requires x == [] || x[|x| - 1] == ' '
    requires y == [] || y[0] == ' '
    ensures Words(x + w + y) == Words(x) + [w] + Words(y)
    decreases |x|
  {
    if x == [] {
      assert x + w + y == w + y;
      WordsOfWord(w, []);
      assert [] + w == w;
      if y == [] {
        assert w + y == w;
      } else {
        assert w + y == w + [' '] + y[1..];
        WordsSplit(w, ' ', y[1..], []);
        assert y == [] + [' '] + y[1..];
        WordsSplit([], ' ', y[1..], []);
      }
    } else {
      var x1 := x[..|x| - 1];
      assert x + w + y == x1 + [' '] + (w + y);
      WordsSplit(x1, ' ', w + y, []);
      assert x == x1 + [' '] + [];
      WordsSplit(x1, ' ', [], []);
      WordsAround([], w, y);
      assert [] + w + y == w + y;
    }
  }

  /** How a string literal between two texts expands. */
  lemma ExpandString(u: string, b: string, v: string)
    requires Quotes(u) % 2 == 0 && '"' !in b
    ensures Expand(u + "\"" + b + "\"" + v, false) ==
      Expand(u, false) + ("\"" + Expand(b, true) + "\"") + Expand(v, false)
  {
    var q := "\"";
    var e, f, g := Expand(u, false), Expand(b, true), Expand(v, false);
    NoQuotes(b);
    calc {
      Expand(u + q + b + q + v, false);
    == { Regroup5(u, q, b, q, v); }
      Expand(u + (q + (b + (q + v))), false);
    == { ExpandConcat(u, q + (b + (q + v)), false); }
      e + Expand(q + (b + (q + v)), false);
    == { QuoteStep(b + (q + v), false); }
      e + (q + Expand(b + (q + v), true));
    == { ExpandConcat(b, q + v, true); }
      e + (q + (f + Expand(q + v, true)));
    == { QuoteStep(v, true); }
      e + (q + (f + (q + g)));
    == { Regroup5(e, q, f, q, g); }
      e + (q + f + q) + g;
    }
  }

  /** A quote enters or leaves a string literal. */
  lemma QuoteStep(z: string, inside: bool)
    ensures Expand("\"" + z, inside) == "\"" + Expand(z, !inside)
  {
    assert ("\"" + z)[0] == '"' && ("\"" + z)[1..] == z;
  }

  /** A quoted inside with no whitespace left is itself without whitespace. */
  lemma QuotedNoSpace(e: string)
    requires NoSpace(e)
    ensures NoSpace("\"" + e + "\"")
  {
    var w := "\"" + e + "\"";
    forall k | 0 <= k < |w| ensures !IsSpace(w[k]) {
      if 0 < k < |w| - 1 {
        assert w[k] == e[k - 1];
      }
    }
  }

  /**
   * The inside of a string literal whose only whitespace is spaces and
   * newlines is never split: set off by a delimiter or the end of the text
   * on each side, the whole literal is one token.
   */
  lemma StringIsToken(u: string, b: string, v: string)
    requires Quotes(u) % 2 == 0 && '"' !in b && ProtectedSpacing(b)
    requires u == [] || Delimiter(u[|u| - 1])
    requires v == [] || Delimiter(v[0])
    ensures Words(Expand(u + "\"" + b + "\"" + v, false)) ==
      Words(Expand(u, false)) + ["\"" + Pieces(b, true) + "\""] + Words(Expand(v, false))
  {
    ExpandString(u, b, v);
    ExpandIsPieces(b, true);
    PiecesNoSpace(b);
    QuotedNoSpace(Pieces(b, true));
    if u != [] {
      var pre := ExpandEndsInSpace(u);
    }
    if v != [] {
      var post := ExpandStartsWithSpace(v);
    }
    WordsAround(Expand(u, false), "\"" + Pieces(b, true) + "\"", Expand(v, false));
  }

  /** The same, for the tokens `tokenize` returns. */
  lemma TokenizeString(u: string, b: string, v: string)
    requires Quotes(u) % 2 == 0 && '"' !in b && ProtectedSpacing(b)
    requires Clean(u) && Clean(b) && Clean(v)
    requires u == [] || Delimiter(u[|u| - 1])
    requires v == [] || Delimiter(v[0])
    ensures Tokenize(u + "\"" + b + "\"" + v) ==
      Words(Expand(u, false)) + ["\"" + Pieces(b, true) + "\""] + Words(Expand(v, false))
  {
    var q := "\"";
    CleanAround(u, '"', b);
    CleanAround(u + q + b, '"', v);
    TokenizeClean(u + q + b + q + v);
    StringIsToken(u, b, v);
  }

  /** The inside of a string literal with its newlines still protected. */
  ghost function NewlinesProtected(b: string): string {
    if b == [] then [] else (if b[0] == '\n' then Newline else [b[0]]) + NewlinesProtected(b[1..])
  }

  lemma NewlinesProtectedHead(b: string)
    requires b == [] || b[0] != '_'
    ensures StartsSafely(NewlinesProtected(b))
  {
    if b != [] && b[0] == '\n' {
      assert NewlinesProtected(b) == "__BEDLAM_NEWLINE" + NewlinesProtected(b[1..]);
    }
  }

  lemma PiecesHead(b: string)
    requires b == [] || b[0] != '_'
    ensures StartsSafely(Pieces(b, true))
  {
    if b != [] && b[0] == ' ' {
      assert Pieces(b, true) == "__BEDLAM_SPACE" + Pieces(b[1..], true);
    } else if b != [] && b[0] == '\n' {
      assert Pieces(b, true) == "__BEDLAM_NEWLINE" + Pieces(b[1..], true);
    }
  }

  lemma {:induction false} RestoreSpaces(b: string)
    requires NoDoubleUnderscore(b)
    ensures Replace(Pieces(b, true), Space, " ") == NewlinesProtected(b)
  {
    if b != [] {
      NoDoubleTail(b);
      RestoreSpaces(b[1..]);
      var e := Pieces(b[1..], true);
      PlaceholderShape(Space);
      if b[0] == ' ' {
        MatchPlaceholder(e, Space, " ");
      } else if b[0] == '\n' {
        SkipPlaceholder(Newline, e, Space, " ");
      } else if b[0] == '_' {
        PiecesHead(b[1..]);
        UnderscoreStep(e, Space, " ");
      } else {
        SkipPlain([b[0]], e, Space, " ");
      }
    }
  }

  lemma {:induction false} RestoreNewlines(b: string)
    requires NoDoubleUnderscore(b)
    ensures Replace(NewlinesProtected(b), Newline, "\n") == b
  {
    if b != [] {
      NoDoubleTail(b);
      RestoreNewlines(b[1..]);
      var e := NewlinesProtected(b[1..]);
      PlaceholderShape(Newline);
      if b[0] == '\n' {
        MatchPlaceholder(e, Newline, "\n");
      } else if b[0] == '_' {
        NewlinesProtectedHead(b[1..]);
        UnderscoreStep(e, Newline, "\n");
      } else {
        SkipPlain([b[0]], e, Newline, "\n");
      }
      assert [b[0]] + b[1..] == b;
    }
  }

  /** Putting the placeholders back gives the inside of a string literal unchanged, when it has no `__`. */
  lemma RestoreInside(b: string)
    requires NoDoubleUnderscore(b)
    ensures Restore(Pieces(b, true)) == b
  {
    RestoreSpaces(b);
    RestoreNewlines(b);
  }

  // ---------------------------------------------------------------------
  // Escaped quotes in a string literal

  lemma EscapeHead(b: string)
    requires b != []
    ensures Escape(b) != [] && Escape(b)[0] != '"'
    ensures Escape(b)[0] == if b[0] == '"' then '\\' else b[0]
  {
  }

  /**
   * The escaped text of a string value reads as the value's characters
   * themselves, none of them entering or leaving a string literal, as
   * long as a backslash at its end does not escape what follows.
   */
  lemma {:induction false} ReadEscape(b: string, z: string, inside: bool)
    requires b == [] || z == [] || b[|b| - 1] != '\\' || z[0] != '"'
    ensures Read(Escape(b) + z, inside) == Pieces(b, inside) + Read(z, inside)
  {
    if b == [] {
      assert Escape(b) + z == z;
    } else {
      var t := Escape(b[1..]) + z;
      var h := if b[0] == '"' then "\\\"" else [b[0]];
      Assoc(h, Escape(b[1..]), z);
      ReadEscape(b[1..], z, inside);
      if b[0] == '"' {
        ReadEscapedQuote(t, inside);
      } else {
        if b[1..] != [] {
          EscapeHead(b[1..]);
          assert b[1..][|b[1..]| - 1] == b[|b| - 1];
        } else {
          assert t == z;
        }
        ReadPlain(b[0], t, inside);
      }
      Assoc(Piece(b[0], inside), Pieces(b[1..], inside), Read(z, inside));
    }
  }

  /** A quote that is not escaped enters or leaves a string literal. */
  lemma ReadOpening(t: string, inside: bool)
    ensures Read("\"" + t, inside) == "\"" + Read(t, !inside)
  {
    assert ("\"" + t)[1..] == t;
  }

  /** An escaped quote reads as a quote character. */
  lemma ReadEscapedQuote(t: string, inside: bool)
    ensures Read("\\\"" + t, inside) == "\"" + Read(t, inside)
  {
    assert ("\\\"" + t)[2..] == t;
  }

  /** Any other character reads as its `Piece`, unless it is a backslash escaping a quote. */
  lemma ReadPlain(c: char, t: string, inside: bool)
    requires c != '"' && (c != '\\' || t == [] || t[0] != '"')
    ensures Read([c] + t, inside) == Piece(c, inside) + Read(t, inside)
  {
    assert ([c] + t)[1..] == t;
  }

  /** Escaping brings no two underscores together. */
  lemma {:induction false} EscapeNoDouble(b: string)
    requires NoDoubleUnderscore(b)
    ensures NoDoubleUnderscore(Escape(b))
  {
    if b != [] {
      NoDoubleTail(b);
      EscapeNoDouble(b[1..]);
      var h := if b[0] == '"' then "\\\"" else [b[0]];
      var t := Escape(b[1..]);
      if t != [] {
        EscapeHead(b[1..]);
      }
      forall k | 0 <= k < |h + t| - 1 ensures (h + t)[k] != '_' || (h + t)[k + 1] != '_' {
        if k >= |h| {
          assert (h + t)[k] == t[k - |h|] && (h + t)[k + 1] == t[k - |h| + 1];
        }
      }
    }
  }

  /** A string value without quotes is written as it is. */
  lemma {:induction false} EscapeWithoutQuote(b: string)
    requires '"' !in b
    ensures Escape(b) == b
  {
    if b != [] {
      EscapeWithoutQuote(b[1..]);
      assert [b[0]] + b[1..] == b;
    }
  }
}

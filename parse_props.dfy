/**
 * What `build_ast` and `parse` do with brackets and with whole texts:
 * a sequence of tokens is parsed without a bracket error exactly when its
 * brackets balance, counted as a running depth; and the blank text and a
 * lone string literal parse as the source's code has them.
 */
module ParserProperties {
  import opened Syntax
  import opened Primitives
  import opened Tokenizer
  import opened TokenizerProperties
  import opened Parser

  // ---------------------------------------------------------------------
  // Bracket depth, an independent reading of when brackets match

  /** How a token moves the bracket depth: up for an opener, down for a closer. */
  function Weight(t: string): int {
    if IsOpener(t) then 1 else if IsCloser(t) then -1 else 0
  }

  /** The bracket depth after reading `ts`. */
  function Depth(ts: seq<string>): int {
    if ts == [] then 0 else Weight(ts[0]) + Depth(ts[1..])
  }

  /** No prefix of `ts` closes more brackets than it opens. */
  predicate NeverBelow(ts: seq<string>) {
    forall i :: 0 <= i <= |ts| ==> Depth(ts[..i]) >= 0
  }

  /** Every bracket of `ts` is closed by a later one, and no closer is left over. */
  predicate Balanced(ts: seq<string>) {
    NeverBelow(ts) && Depth(ts) == 0
  }

  /** The first `n` tokens of `ts` are where the depth first drops below zero. */
  predicate ClosesAt(ts: seq<string>, n: nat) {
    && n <= |ts|
    && Depth(ts[..n]) == -1
    && forall i :: 0 <= i < n ==> Depth(ts[..i]) >= 0
  }

  /** No token is the empty string. */
  predicate NoEmptyToken(ts: seq<string>) {
    forall k :: 0 <= k < |ts| ==> ts[k] != ""
  }

  lemma {:induction false} DepthConcat(a: seq<string>, b: seq<string>)
    ensures Depth(a + b) == Depth(a) + Depth(b)
  {
    if a == [] {
      assert a + b == b;
    } else {
      assert (a + b)[0] == a[0] && (a + b)[1..] == a[1..] + b;
      DepthConcat(a[1..], b);
    }
  }

  /**
   * Reading a stretch `a` that returns to depth zero without going below
   * it, before `b`, changes none of the three ways `b` can end.
   */
  lemma AfterLevel(a: seq<string>, b: seq<string>)
    requires NeverBelow(a) && Depth(a) == 0
    ensures forall n: nat :: ClosesAt(b, n) ==> ClosesAt(a + b, |a| + n)
    ensures NeverBelow(b) ==> NeverBelow(a + b)
    ensures Depth(a + b) == Depth(b)
  {
    DepthConcat(a, b);
    forall i | |a| <= i <= |a + b| ensures Depth((a + b)[..i]) == Depth(b[..i - |a|]) {
      assert (a + b)[..i] == a + b[..i - |a|];
      DepthConcat(a, b[..i - |a|]);
    }
    forall i | 0 <= i <= |a| ensures (a + b)[..i] == a[..i] {
    }
  }

  /**
   * An opener before a stretch that goes at most one below zero, and
   * only at its end, gives a stretch that never goes below zero.
   */
  lemma RaiseLevel(o: string, b: seq<string>)
    requires IsOpener(o)
    requires forall i :: 0 <= i < |b| ==> Depth(b[..i]) >= 0
    requires Depth(b) >= -1
    ensures NeverBelow([o] + b) && Depth([o] + b) == 1 + Depth(b)
  {
    var ts := [o] + b;
    assert [o][1..] == [];
    assert Depth([o]) == 1;
    DepthConcat([o], b);
    forall i | 0 <= i <= |ts| ensures Depth(ts[..i]) >= 0 {
      if i == 0 {
        assert ts[..0] == [];
      } else {
        assert ts[..i] == [o] + b[..i - 1];
        DepthConcat([o], b[..i - 1]);
        if i - 1 == |b| {
          assert b[..i - 1] == b;
        }
      }
    }
  }

  /** One token that is neither bracket, on its own, is a stretch of depth zero. */
  lemma Flat(t: string)
    requires !IsOpener(t) && !IsCloser(t)
    ensures NeverBelow([t]) && Depth([t]) == 0
  {
    assert [t][1..] == [];
    assert [t][..0] == [] && [t][..1] == [t];
  }

  /** The three ways a level can end, each fixed by the depth of its tokens. */
  predicate LevelShape(ts: seq<string>, r: Parsed<Built>) {
    && (r.Ok? && r.value.closed ==> |r.value.rest| <= |ts| && ClosesAt(ts, |ts| - |r.value.rest|))
    && (r.Ok? && !r.value.closed ==> Balanced(ts))
    && (r.Err? ==> r.error == UnclosedBracket && NeverBelow(ts) && Depth(ts) > 0)
  }

  /** `r` ends the way `rb` does: the same error, or the same tokens left and the same closing. */
  predicate SameEnd(r: Parsed<Built>, rb: Parsed<Built>) {
    && r.Ok? == rb.Ok?
    && (r.Ok? ==> r.value.closed == rb.value.closed && r.value.rest == rb.value.rest)
    && (r.Err? ==> r == rb)
  }

  /** A level that reads the stretch `a` first and then ends as the level of `b` does. */
  lemma ShapeShift(a: seq<string>, b: seq<string>, rb: Parsed<Built>, r: Parsed<Built>)
    requires NeverBelow(a) && Depth(a) == 0
    requires LevelShape(b, rb) && SameEnd(r, rb)
    ensures LevelShape(a + b, r)
  {
    AfterLevel(a, b);
    if r.Ok? && r.value.closed {
      assert |a + b| - |r.value.rest| == |a| + (|b| - |rb.value.rest|);
    }
  }

  /** Where the level goes on after a token that is neither a bracket nor empty. */
  function Next(t: string, l: Loc): Loc {
    if t == Newline then Loc(l.line + 1, 0)
    else if t == Space || t == "," then Loc(l.line, l.column + 1)
    else After(l, t)
  }

  lemma FlatStep(nm: Numerals, t: string, rest: seq<string>, l: Loc)
    requires !IsOpener(t) && !IsCloser(t) && t != ""
    ensures SameEnd(Build(nm, [t] + rest, l), Build(nm, rest, Next(t, l)))
  {
    assert ([t] + rest)[0] == t && ([t] + rest)[1..] == rest;
  }

  lemma NoEmptyTail(ts: seq<string>, n: nat)
    requires NoEmptyToken(ts) && n <= |ts|
    ensures NoEmptyToken(ts[n..])
  {
    forall k | 0 <= k < |ts| - n ensures ts[n..][k] != "" {
      assert ts[n..][k] == ts[n + k];
    }
  }

  /** What a level leaves is a suffix of its tokens, just after a closing bracket when the level is closed. */
  predicate LeftSuffix(ts: seq<string>, r: Parsed<Built>) {
    r.Ok? ==>
      && |r.value.rest| <= |ts| && r.value.rest == ts[|ts| - |r.value.rest|..]
      && (r.value.closed ==> |r.value.rest| < |ts| && IsCloser(ts[|ts| - |r.value.rest| - 1]))
  }

  lemma SuffixOfSuffix<T>(a: seq<T>, b: seq<T>, c: seq<T>)
    requires |b| <= |a| && b == a[|a| - |b|..]
    requires |c| <= |b| && c == b[|b| - |c|..]
    ensures c == a[|a| - |c|..]
    ensures |c| < |b| ==> b[|b| - |c| - 1] == a[|a| - |c| - 1]
  {
  }

  /** Every level, failing or not, leaves a suffix of its tokens. */
  lemma {:induction false} BuildRest(nm: Numerals, ts: seq<string>, l: Loc)
    ensures LeftSuffix(ts, Build(nm, ts, l))
    decreases |ts|, 1
  {
    if ts != [] {
      var t, rest := ts[0], ts[1..];
      assert ts == [t] + rest;
      var k := KindOf(t);
      if k == Open {
        BuildGroupRest(nm, t, rest, l);
        OpenerUnfold(nm, t, rest, l);
        var r := BuildGroup(nm, t, rest, l);
        if r.Ok? {
          SuffixOfSuffix(ts, rest, r.value.rest);
        }
      } else if k != Close && k != Blank {
        BuildRest(nm, rest, Next(t, l));
        FlatStep(nm, t, rest, l);
        var r := Build(nm, rest, Next(t, l));
        if r.Ok? {
          SuffixOfSuffix(ts, rest, r.value.rest);
        }
      }
    }
  }

  lemma {:induction false} BuildGroupRest(nm: Numerals, o: string, rest: seq<string>, l: Loc)
    requires IsOpener(o)
    ensures LeftSuffix(rest, BuildGroup(nm, o, rest, l))
    decreases |rest| + 1, 0
  {
    var inner := Build(nm, rest, l);
    BuildRest(nm, rest, l);
    if inner.Ok? && inner.value.closed {
      BuildRest(nm, inner.value.rest, After(inner.value.loc, o));
      GroupRestClosed(nm, o, rest, l);
    } else {
      GroupRestOpen(nm, o, rest, l);
    }
  }

  /** A group whose nested level is not closed fails, so it leaves nothing. */
  lemma GroupRestOpen(nm: Numerals, o: string, rest: seq<string>, l: Loc)
    requires IsOpener(o)
    requires !(Build(nm, rest, l).Ok? && Build(nm, rest, l).value.closed)
    ensures LeftSuffix(rest, BuildGroup(nm, o, rest, l))
  {
  }

  /** A closed group leaves what the level after its closing bracket leaves, a suffix of that level's tokens. */
  lemma GroupRestClosed(nm: Numerals, o: string, rest: seq<string>, l: Loc)
    requires IsOpener(o)
    requires var inner := Build(nm, rest, l);
      && inner.Ok? && inner.value.closed && LeftSuffix(rest, inner)
      && LeftSuffix(inner.value.rest, Build(nm, inner.value.rest, After(inner.value.loc, o)))
    ensures LeftSuffix(rest, BuildGroup(nm, o, rest, l))
  {
    var inner := Build(nm, rest, l);
    var tail := Build(nm, inner.value.rest, After(inner.value.loc, o));
    GroupEnd(nm, o, rest, l);
    if tail.Ok? {
      var b, c := inner.value.rest, tail.value.rest;
      SuffixOfSuffix(rest, b, c);
      var r := BuildGroup(nm, o, rest, l);
      assert r.value.rest == c && r.value.closed == tail.value.closed;
      if tail.value.closed {
        assert IsCloser(b[|b| - |c| - 1]);
      }
    }
  }

  /** A closed group ends the way the level after its closing bracket does. */
  lemma GroupEnd(nm: Numerals, o: string, rest: seq<string>, l: Loc)
    requires IsOpener(o)
    ensures var inner := Build(nm, rest, l);
      inner.Ok? && inner.value.closed ==>
        SameEnd(BuildGroup(nm, o, rest, l), Build(nm, inner.value.rest, After(inner.value.loc, o)))
  {
  }

  /**
   * A level of `build_ast` without empty tokens ends at the first closer
   * that takes the depth below zero; it consumes all tokens when they
   * balance, and fails with an unclosed bracket when they end deeper.
   */
  lemma {:induction false} BuildShape(nm: Numerals, ts: seq<string>, l: Loc)
    requires NoEmptyToken(ts)
    ensures LevelShape(ts, Build(nm, ts, l))
    decreases |ts|, 1
  {
    if ts == [] {
      assert ts[..0] == [];
    } else {
      var t, rest := ts[0], ts[1..];
      assert ts == [t] + rest;
      NoEmptyTail(ts, 1);
      if IsCloser(t) {
        assert ts[..1] == [t] && ts[..0] == [];
        assert [t][1..] == [];
      } else if IsOpener(t) {
        BuildOpenerShape(nm, t, rest, l);
      } else {
        BuildShape(nm, rest, Next(t, l));
        Flat(t);
        FlatStep(nm, t, rest, l);
        ShapeShift([t], rest, Build(nm, rest, Next(t, l)), Build(nm, ts, l));
      }
    }
  }

  /** How the level below an opener ends fixes the depth of the opener and what follows it. */
  lemma OpenerDepths(o: string, rest: seq<string>, inner: Parsed<Built>)
    requires IsOpener(o) && LevelShape(rest, inner)
    ensures !(inner.Ok? && inner.value.closed) ==> NeverBelow([o] + rest) && Depth([o] + rest) > 0
    ensures inner.Ok? && inner.value.closed ==>
      var a := ([o] + rest)[..|rest| - |inner.value.rest| + 1];
      NeverBelow(a) && Depth(a) == 0
  {
    if !(inner.Ok? && inner.value.closed) {
      RaiseLevel(o, rest);
    } else {
      var n := |rest| - |inner.value.rest|;
      var b := rest[..n];
      forall i | 0 <= i < |b| ensures Depth(b[..i]) >= 0 {
        assert b[..i] == rest[..i];
      }
      RaiseLevel(o, b);
      assert ([o] + rest)[..n + 1] == [o] + b;
    }
  }

  /**
   * How a level that starts with an opener ends, given how the level below
   * it ends: when a closer ended the nested level, its nodes become one
   * group node, located where the nested level left the location, placed
   * first, and the level resumes after that closer.
   */
  lemma OpenerStep(nm: Numerals, o: string, rest: seq<string>, l: Loc)
    requires IsOpener(o)
    ensures var inner := Build(nm, rest, l);
      && (inner.Err? ==> Build(nm, [o] + rest, l) == inner)
      && (inner.Ok? && !inner.value.closed ==> Build(nm, [o] + rest, l) == Err(UnclosedBracket))
      && (inner.Ok? && inner.value.closed ==>
            var tail := Build(nm, inner.value.rest, After(inner.value.loc, o));
            && Build(nm, [o] + rest, l) == Cons(Group(o, inner.value.nodes, inner.value.loc), tail)
            && SameEnd(Build(nm, [o] + rest, l), tail))
  {
    OpenerUnfold(nm, o, rest, l);
  }

  lemma OpenerUnfold(nm: Numerals, o: string, rest: seq<string>, l: Loc)
    requires IsOpener(o)
    ensures Build(nm, [o] + rest, l) == BuildGroup(nm, o, rest, l)
  {
    assert ([o] + rest)[0] == o && ([o] + rest)[1..] == rest;
  }

  lemma {:induction false} BuildOpenerShape(nm: Numerals, o: string, rest: seq<string>, l: Loc)
    requires IsOpener(o) && NoEmptyToken(rest)
    ensures LevelShape([o] + rest, Build(nm, [o] + rest, l))
    decreases |rest| + 1, 0
  {
    var inner := Build(nm, rest, l);
    BuildShape(nm, rest, l);
    if inner.Ok? && inner.value.closed {
      BuildRest(nm, rest, l);
      NoEmptyTail(rest, |rest| - |inner.value.rest|);
      BuildShape(nm, inner.value.rest, After(inner.value.loc, o));
      OpenerClosedShape(nm, o, rest, l);
    } else {
      OpenerOpenShape(nm, o, rest, l);
    }
  }

  /** The shape of an opener's level when the nested level is not closed. */
  lemma OpenerOpenShape(nm: Numerals, o: string, rest: seq<string>, l: Loc)
    requires IsOpener(o) && LevelShape(rest, Build(nm, rest, l))
    requires !(Build(nm, rest, l).Ok? && Build(nm, rest, l).value.closed)
    ensures LevelShape([o] + rest, Build(nm, [o] + rest, l))
  {
    OpenerDepths(o, rest, Build(nm, rest, l));
    OpenerStep(nm, o, rest, l);
  }

  /** The shape of an opener's level once the nested level is closed and the level after it has its shape. */
  lemma OpenerClosedShape(nm: Numerals, o: string, rest: seq<string>, l: Loc)
    requires IsOpener(o)
    requires var inner := Build(nm, rest, l);
      && inner.Ok? && inner.value.closed
      && LevelShape(rest, inner) && LeftSuffix(rest, inner)
      && LevelShape(inner.value.rest, Build(nm, inner.value.rest, After(inner.value.loc, o)))
    ensures LevelShape([o] + rest, Build(nm, [o] + rest, l))
  {
    var ts := [o] + rest;
    var inner := Build(nm, rest, l);
    OpenerDepths(o, rest, inner);
    OpenerStep(nm, o, rest, l);
    var n := |rest| - |inner.value.rest|;
    var a := ts[..n + 1];
    assert ts == a + inner.value.rest;
    ShapeShift(a, inner.value.rest, Build(nm, inner.value.rest, After(inner.value.loc, o)), Build(nm, ts, l));
  }

  /** A level that ends at a closer has a prefix below depth zero. */
  lemma ClosedNotBelow(ts: seq<string>, n: nat)
    requires ClosesAt(ts, n)
    ensures !NeverBelow(ts)
  {
  }

  /**
   * For tokens without the empty one, `parse` succeeds exactly when the
   * brackets balance, reports a stray closer exactly when some prefix
   * closes more than it opens, and an unclosed bracket exactly when the
   * tokens never go below depth zero but end above it.
   */
  lemma ParseBrackets(nm: Numerals, s: string)
    requires NoEmptyToken(Tokenize(s))
    ensures Parse(nm, s).Ok? <==> Balanced(Tokenize(s))
    ensures Parse(nm, s) == Err(StrayCloser) <==> !NeverBelow(Tokenize(s))
    ensures Parse(nm, s) == Err(UnclosedBracket) <==> NeverBelow(Tokenize(s)) && Depth(Tokenize(s)) > 0
  {
    var ts := Tokenize(s);
    var b := Build(nm, ts, Loc(1, 0));
    BuildShape(nm, ts, Loc(1, 0));
    if b.Ok? && b.value.closed {
      ClosedNotBelow(ts, |ts| - |b.value.rest|);
    }
  }

  // ---------------------------------------------------------------------
  // Layout tokens

  predicate IsLayout(t: string) {
    t == Newline || t == Space || t == ","
  }

  /**
   * `NEWLINE`, `SPACE` and `,` tokens produce no node: a run of them only
   * moves the location, one line down per `NEWLINE` and one column right
   * per token while no `NEWLINE` has been met.
   */
  lemma {:induction false} LayoutOnly(nm: Numerals, ts: seq<string>, l: Loc)
    requires forall k :: 0 <= k < |ts| ==> IsLayout(ts[k])
    ensures var r := Build(nm, ts, l);
      && r.Ok? && r.value.nodes == [] && r.value.rest == [] && !r.value.closed
      && r.value.loc.line == l.line + multiset(ts)[Newline]
      && (Newline !in ts ==> r.value.loc.column == l.column + |ts|)
    decreases |ts|
  {
    if ts != [] {
      var t, rest := ts[0], ts[1..];
      assert ts == [t] + rest;
      assert IsLayout(t);
      assert forall k :: 0 <= k < |rest| ==> IsLayout(rest[k]) by {
        forall k | 0 <= k < |rest| ensures IsLayout(rest[k]) {
          assert rest[k] == ts[k + 1];
        }
      }
      assert multiset(ts) == multiset([t]) + multiset(rest);
      assert (Newline !in ts) == (t != Newline && Newline !in rest);
      LayoutOnly(nm, rest, Next(t, l));
      LayoutStep(nm, t, rest, l);
    }
  }

  lemma LayoutStep(nm: Numerals, t: string, rest: seq<string>, l: Loc)
    requires IsLayout(t)
    ensures Build(nm, [t] + rest, l) == Build(nm, rest, Next(t, l))
  {
    assert ([t] + rest)[0] == t && ([t] + rest)[1..] == rest;
    assert Newline[0] == '_' && Space[0] == '_';
  }

  // ---------------------------------------------------------------------
  // Locations

  /** Every node of the tree has its line between `lo` and `hi`. */
  ghost predicate LinesWithin(n: Node, lo: int, hi: int)
    decreases n
  {
    && lo <= n.loc.line <= hi
    && (Children(n).Some? ==> forall c :: c in n.items ==> LinesWithin(c, lo, hi))
  }

  lemma {:induction false} LinesWiden(n: Node, lo: int, hi: int, lo2: int, hi2: int)
    requires LinesWithin(n, lo, hi) && lo2 <= lo && hi <= hi2
    ensures LinesWithin(n, lo2, hi2)
    decreases n
  {
    if Children(n).Some? {
      forall c | c in n.items ensures LinesWithin(c, lo2, hi2) {
        LinesWiden(c, lo, hi, lo2, hi2);
      }
    }
  }

  lemma LinesLower(r: Parsed<Built>, lo: int, lo2: int)
    requires lo2 <= lo
    requires r.Ok? ==> forall k :: 0 <= k < |r.value.nodes| ==> LinesWithin(r.value.nodes[k], lo, r.value.loc.line)
    ensures r.Ok? ==> forall k :: 0 <= k < |r.value.nodes| ==> LinesWithin(r.value.nodes[k], lo2, r.value.loc.line)
  {
    if r.Ok? {
      forall k | 0 <= k < |r.value.nodes| ensures LinesWithin(r.value.nodes[k], lo2, r.value.loc.line) {
        LinesWiden(r.value.nodes[k], lo, r.value.loc.line, lo2, r.value.loc.line);
      }
    }
  }

  lemma LinesOfGroup(node: Node, children: seq<Node>, lo: int, hi: int)
    requires Children(node) == Some(children) && node.loc.line == hi && lo <= hi
    requires forall k :: 0 <= k < |children| ==> LinesWithin(children[k], lo, hi)
    ensures LinesWithin(node, lo, hi)
  {
    assert node.items == children;
    forall c | c in node.items ensures LinesWithin(c, lo, hi) {
      var k :| 0 <= k < |children| && children[k] == c;
    }
  }

  lemma LinesOfCons(node: Node, tail: Parsed<Built>, lo: int)
    requires LinesWithin(node, lo, node.loc.line)
    requires tail.Ok? ==> node.loc.line <= tail.value.loc.line
    requires tail.Ok? ==> forall k :: 0 <= k < |tail.value.nodes| ==> LinesWithin(tail.value.nodes[k], node.loc.line, tail.value.loc.line)
    requires tail.Ok? ==> forall i, j :: 0 <= i < j < |tail.value.nodes| ==> tail.value.nodes[i].loc.line <= tail.value.nodes[j].loc.line
    ensures var r := Cons(node, tail);
      && (r.Ok? ==> forall k :: 0 <= k < |r.value.nodes| ==> LinesWithin(r.value.nodes[k], lo, r.value.loc.line))
      && (r.Ok? ==> forall i, j :: 0 <= i < j < |r.value.nodes| ==> r.value.nodes[i].loc.line <= r.value.nodes[j].loc.line)
  {
    if tail.Ok? {
      var ns := [node] + tail.value.nodes;
      var hi := tail.value.loc.line;
      forall k | 0 <= k < |ns| ensures LinesWithin(ns[k], lo, hi) {
        if k == 0 {
          LinesWiden(node, lo, node.loc.line, lo, hi);
        } else {
          assert ns[k] == tail.value.nodes[k - 1];
          LinesWiden(ns[k], node.loc.line, hi, lo, hi);
        }
      }
      forall i, j | 0 <= i < j < |ns| ensures ns[i].loc.line <= ns[j].loc.line {
        assert ns[j] == tail.value.nodes[j - 1];
        if i > 0 {
          assert ns[i] == tail.value.nodes[i - 1];
        } else {
          assert LinesWithin(ns[j], node.loc.line, hi);
        }
      }
    }
  }

  /** Every node of a level, nested ones too, lies between the start line and the end line, in line order. */
  ghost predicate LevelLines(r: Parsed<Built>, lo: int) {
    r.Ok? ==>
      && lo <= r.value.loc.line
      && (forall k :: 0 <= k < |r.value.nodes| ==> LinesWithin(r.value.nodes[k], lo, r.value.loc.line))
      && (forall i, j :: 0 <= i < j < |r.value.nodes| ==> r.value.nodes[i].loc.line <= r.value.nodes[j].loc.line)
  }

  /**
   * The location only moves forward in lines: a level never ends on an
   * earlier line than it started, and every node it builds, nested ones
   * too, is located between those two lines, the nodes of the level in
   * line order.
   */
  lemma {:induction false} BuildLines(nm: Numerals, tokens: seq<string>, l: Loc)
    ensures LevelLines(Build(nm, tokens, l), l.line)
    decreases |tokens|, 1
  {
    if tokens != [] {
      var t, rest := tokens[0], tokens[1..];
      assert tokens == [t] + rest;
      if IsCloser(t) {
      } else if IsLayout(t) {
        LayoutStep(nm, t, rest, l);
        BuildLines(nm, rest, Next(t, l));
        LinesLower(Build(nm, rest, Next(t, l)), Next(t, l).line, l.line);
      } else if IsOpener(t) {
        OpenerUnfold(nm, t, rest, l);
        BuildGroupLines(nm, t, rest, l);
      } else if t != "" {
        BuildLeaf(nm, t, rest, l);
        var node := Classify(nm, t, l);
        var tail := Build(nm, rest, After(l, t));
        BuildLines(nm, rest, After(l, t));
        LinesLower(tail, After(l, t).line, l.line);
        LinesOfCons(node, tail, l.line);
      }
    }
  }

  lemma {:induction false} BuildGroupLines(nm: Numerals, opener: string, rest: seq<string>, l: Loc)
    requires IsOpener(opener)
    ensures LevelLines(BuildGroup(nm, opener, rest, l), l.line)
    decreases |rest| + 1, 0
  {
    var inner := Build(nm, rest, l);
    BuildLines(nm, rest, l);
    if inner.Ok? && inner.value.closed {
      var node := Group(opener, inner.value.nodes, inner.value.loc);
      LinesOfGroup(node, inner.value.nodes, l.line, inner.value.loc.line);
      var after := After(inner.value.loc, opener);
      var tail := Build(nm, inner.value.rest, after);
      BuildLines(nm, inner.value.rest, after);
      LinesLower(tail, after.line, inner.value.loc.line);
      LinesOfCons(node, tail, l.line);
    }
  }

  /** Every node `parse` builds is on line 1 or later, the top-level nodes in line order. */
  lemma ParseLines(nm: Numerals, s: string)
    ensures var r := Parse(nm, s);
      && (r.Ok? ==> forall k :: 0 <= k < |r.value| ==> 1 <= r.value[k].loc.line)
      && (r.Ok? ==> forall i, j :: 0 <= i < j < |r.value| ==> r.value[i].loc.line <= r.value[j].loc.line)
  {
    var b := Build(nm, Tokenize(s), Loc(1, 0));
    BuildLines(nm, Tokenize(s), Loc(1, 0));
    if b.Ok? {
      forall k | 0 <= k < |b.value.nodes| ensures 1 <= b.value.nodes[k].loc.line {
        assert LinesWithin(b.value.nodes[k], 1, b.value.loc.line);
      }
    }
  }

  // ---------------------------------------------------------------------
  // Whole texts

  /**
   * A literal or identifier token becomes the next node of its level,
   * located where the level had got to; the level goes on after it.
   */
  lemma BuildLeaf(nm: Numerals, t: string, rest: seq<string>, l: Loc)
    requires !IsStructural(t) && t != ""
    ensures Build(nm, [t] + rest, l) == Cons(Classify(nm, t, l), Build(nm, rest, After(l, t)))
  {
    assert ([t] + rest)[0] == t && ([t] + rest)[1..] == rest;
  }

  /**
   * A clean text (no backslash, no `__`) either tokenizes to the
   * one empty token, when it has no words, and then `parse` fails on it
   * (the source indexes into that token), or to tokens none of which is
   * empty, so that `ParseBrackets` decides its fate.
   */
  lemma ParseClean(nm: Numerals, s: string)
    requires Clean(s)
    ensures Words(Expand(s, false)) == [] ==> Parse(nm, s) == Err(EmptyToken)
    ensures Words(Expand(s, false)) != [] ==> NoEmptyToken(Tokenize(s))
  {
    TokenizeClean(s);
    if Words(Expand(s, false)) == [] {
      assert Tokenize(s) == [""];
      assert Tokenize(s)[1..] == [];
    }
  }

  /** The empty text is the blank text. */
  lemma ParseEmpty(nm: Numerals)
    ensures Parse(nm, "") == Err(EmptyToken)
  {
    assert Expand("", false) == [];
    ParseClean(nm, "");
  }

  /**
   * The tokens of a text that is one string literal, written with its
   * quotes escaped: the one token holding the value with its spaces and
   * newlines protected.
   */
  lemma TokenizeLoneString(b: string)
    requires NoDoubleUnderscore(b) && ProtectedSpacing(b)
    requires b == [] || b[|b| - 1] != '\\'
    ensures Tokenize("\"" + Escape(b) + "\"") == ["\"" + Pieces(b, true) + "\""]
  {
    var x := "\"" + Escape(b) + "\"";
    var tok := "\"" + Pieces(b, true) + "\"";
    LoneStringNoDouble(b);
    LoneStringReads(b);
    LoneTokenWords(b);
    TokenizeEscaped(x);
  }

  lemma LoneStringNoDouble(b: string)
    requires NoDoubleUnderscore(b)
    ensures NoDoubleUnderscore("\"" + Escape(b) + "\"")
  {
    var q := "\"";
    var e: string := [];
    EscapeNoDouble(b);
    NoDoubleAround(e, '"', Escape(b));
    assert e + [q[0]] + Escape(b) == q + Escape(b);
    NoDoubleAround(q + Escape(b), '"', e);
    assert q + Escape(b) + [q[0]] + e == q + Escape(b) + q;
  }

  lemma LoneStringReads(b: string)
    requires b == [] || b[|b| - 1] != '\\'
    ensures Read("\"" + Escape(b) + "\"", false) == "\"" + Pieces(b, true) + "\""
  {
    LoneStringInside(b);
    Assoc("\"", Escape(b), "\"");
    Assoc("\"", Pieces(b, true), "\"");
  }

  lemma LoneStringInside(b: string)
    requires b == [] || b[|b| - 1] != '\\'
    ensures Read("\"" + (Escape(b) + "\""), false) == "\"" + (Pieces(b, true) + "\"")
  {
    ReadOpening(Escape(b) + "\"", false);
    ReadEscape(b, "\"", true);
    ClosingQuote();
  }

  lemma ClosingQuote()
    ensures Read("\"", true) == "\""
  {
    ReadOpening([], true);
    assert "\"" + [] == "\"";
  }

  lemma LoneTokenWords(b: string)
    requires ProtectedSpacing(b)
    ensures var tok := "\"" + Pieces(b, true) + "\""; Words(tok) == [tok]
  {
    var tok := "\"" + Pieces(b, true) + "\"";
    PiecesNoSpace(b);
    QuotedNoSpace(Pieces(b, true));
    WordsOfWord(tok, []);
    assert [] + tok == tok;
  }

  /** A level of one token that opens with a quote: one string node, and all tokens consumed. */
  lemma BuildLoneString(nm: Numerals, tok: string, l: Loc)
    requires |tok| >= 2 && tok[0] == '"'
    ensures Build(nm, [tok], l) == Ok(Built([StrLit(Restore(Inner(tok)), l)], [], false, After(l, tok)))
  {
    assert Newline[0] == '_' && Space[0] == '_';
    assert [tok] + [] == [tok];
    BuildLeaf(nm, tok, [], l);
    var node := Classify(nm, tok, l);
    assert node == StrLit(Restore(Inner(tok)), l);
    assert [node] + [] == [node];
  }

  /**
   * A string value with no `__`, no whitespace but spaces and newlines and
   * no backslash at its end, written as a literal with its quotes escaped,
   * parses to the one string node holding exactly that value, at line 1,
   * column 0. (A value without quotes is written as it is: `EscapeWithoutQuote`.)
   */
  lemma ParseStringLiteral(nm: Numerals, b: string)
    requires NoDoubleUnderscore(b) && ProtectedSpacing(b)
    requires b == [] || b[|b| - 1] != '\\'
    ensures Parse(nm, "\"" + Escape(b) + "\"") == Ok([StrLit(b, Loc(1, 0))])
  {
    var tok := "\"" + Pieces(b, true) + "\"";
    TokenizeLoneString(b);
    LoneStringNode(nm, b);
    ParseOneToken(nm, "\"" + Escape(b) + "\"", tok, StrLit(b, Loc(1, 0)));
  }

  /** The protected value between quotes builds the one string node holding the value. */
  lemma LoneStringNode(nm: Numerals, b: string)
    requires NoDoubleUnderscore(b)
    ensures var tok := "\"" + Pieces(b, true) + "\"";
      Build(nm, [tok], Loc(1, 0)) == Ok(Built([StrLit(b, Loc(1, 0))], [], false, After(Loc(1, 0), tok)))
  {
    var tok := "\"" + Pieces(b, true) + "\"";
    InnerOfQuoted(Pieces(b, true));
    RestoreInside(b);
    BuildLoneString(nm, tok, Loc(1, 0));
  }

  /** A text of one token that builds one node without a closer parses to that node. */
  lemma ParseOneToken(nm: Numerals, s: string, tok: string, node: Node)
    requires Tokenize(s) == [tok]
    requires Build(nm, [tok], Loc(1, 0)).Ok? && Build(nm, [tok], Loc(1, 0)).value.nodes == [node]
    requires !Build(nm, [tok], Loc(1, 0)).value.closed
    ensures Parse(nm, s) == Ok([node])
  {
  }

  lemma InnerOfQuoted(w: string)
    ensures Inner("\"" + w + "\"") == w
  {
    var tok := "\"" + w + "\"";
    assert tok[1..|tok| - 1] == w;
  }
}

/**
 * The AST builder of parse.py. `build_ast` pops tokens one at a time,
 * appends a node for each literal or identifier, descends into a nested
 * call for each opening bracket, and returns at a closing one. A single
 * `location` record, shared by all levels of the descent, is advanced in
 * place as tokens are consumed; each node stores a copy of it.
 */
module Parser {
  import opened Syntax
  import opened Tokenizer

  /**
   * Python's `int()` and `float()` applied to a token: the integer `int()`
   * gives, if it accepts the text, and whether `float()` accepts it.
   */
  datatype Numerals = Numerals(toInt: string -> Option<int>, isFloat: string -> bool)

  /**
   * How the builder's input can be malformed: a bracket that is never
   * closed, a closing bracket at the top level, and the one empty token
   * that `tokenize` returns for a text of whitespace only.
   */
  datatype ParseError = UnclosedBracket | StrayCloser | EmptyToken

  datatype Parsed<+T> = Ok(value: T) | Err(error: ParseError)

  /**
   * The outcome of one level of `build_ast`: the nodes built, the tokens
   * left, whether a closing bracket ended the level, and the location it
   * left behind.
   */
  datatype Built = Built(nodes: seq<Node>, rest: seq<string>, closed: bool, loc: Loc)

  predicate IsOpener(t: string) {
    t == "(" || t == "[" || t == "{"
  }

  predicate IsCloser(t: string) {
    t == ")" || t == "]" || t == "}"
  }

  /** The tokens that produce no node of their own. */
  predicate IsStructural(t: string) {
    IsOpener(t) || IsCloser(t) || t == Newline || t == Space || t == ","
  }

  /** Which branch of `build_ast` a token takes. */
  datatype TokenKind = Close | LineBreak | Gap | Open | Blank | Leaf

  /** The tests of `build_ast`, in its order; no token passes two of them. */
  function KindOf(t: string): (k: TokenKind)
    ensures k == Close <==> IsCloser(t)
    ensures k == LineBreak <==> t == Newline
    ensures k == Gap <==> t == Space || t == ","
    ensures k == Open <==> IsOpener(t)
    ensures k == Blank <==> t == ""
    ensures k == Leaf <==> !IsStructural(t) && t != ""
  {
    assert Newline[0] == '_' && Space[0] == '_' && Newline[9] != Space[9];
    if IsCloser(t) then Close
    else if t == Newline then LineBreak
    else if t == Space || t == "," then Gap
    else if IsOpener(t) then Open
    else if t == "" then Blank
    else Leaf
  }

  function NewlineCount(t: string): nat {
    if t == [] then 0 else (if t[0] == '\n' then 1 else 0) + NewlineCount(t[1..])
  }

  /** A token has newlines exactly when it holds a `\n`, and never more than its length. */
  lemma {:induction false} NewlineCountZero(t: string)
    ensures NewlineCount(t) == 0 <==> '\n' !in t
    ensures NewlineCount(t) <= |t|
  {
    if t != [] {
      NewlineCountZero(t[1..]);
      assert t == [t[0]] + t[1..];
    }
  }

  /**
   * Where `add_node` moves the location after a node for `token`: a token
   * without a newline moves the column by its length on the same line; one
   * with newlines moves down at most one line per character, to column 0.
   */
  function After(l: Loc, token: string): (r: Loc)
    ensures '\n' !in token ==> r == Loc(l.line, l.column + |token|)
    ensures '\n' in token ==> l.line < r.line <= l.line + |token| && r.column == 0
  {
    NewlineCountZero(token);
    var n := NewlineCount(token);
    Loc(l.line + n, if n > 0 then 0 else l.column + |token|)
  }

  /** `(` builds a call, `[` a vec and `{` a map. */
  function Group(opener: string, children: seq<Node>, l: Loc): (n: Node)
    requires IsOpener(opener)
    ensures opener == "(" <==> n.Call?
    ensures opener == "[" <==> n.Vec?
    ensures opener == "{" <==> n.MapNode?
    ensures Children(n) == Some(children) && n.loc == l
  {
    if opener == "(" then Call(children, l) else if opener == "[" then Vec(children, l) else MapNode(children, l)
  }

  /** `token[1:-1]`: the token without its first and last character, nothing when it is shorter than two. */
  function Inner(t: string): (r: string)
    ensures |t| >= 2 ==> t == [t[0]] + r + [t[|t| - 1]]
    ensures |r| == if |t| >= 2 then |t| - 2 else 0
  {
    if |t| >= 2 then t[1..|t| - 1] else []
  }

  /** The node for a literal or identifier token. */
  function Classify(nm: Numerals, t: string, l: Loc): (n: Node)
    requires t != []
    ensures n.loc == l
    ensures n.StrLit? <==> t[0] == '"'
    ensures n.StrLit? ==> n.s == Restore(Inner(t))
    ensures n.IntLit? <==> t[0] != '"' && nm.toInt(t).Some?
    ensures n.IntLit? ==> n.i == nm.toInt(t).value
    ensures n.FloatLit? <==> t[0] != '"' && nm.toInt(t).None? && nm.isFloat(t)
    ensures n.FloatLit? ==> n.text == t
    ensures n.Ident? <==> t[0] != '"' && nm.toInt(t).None? && !nm.isFloat(t)
    ensures n.Ident? ==> n.name == t
  {
    if t[0] == '"' then StrLit(Restore(Inner(t)), l)
    else if nm.toInt(t).Some? then IntLit(nm.toInt(t).value, l)
    else if nm.isFloat(t) then FloatLit(t, l)
    else Ident(t, l)
  }

  /** Puts `n` in front of the nodes of a level. */
  function Cons(n: Node, r: Parsed<Built>): (r2: Parsed<Built>)
    ensures r2.Ok? == r.Ok? && (r.Err? ==> r2 == r)
    ensures r.Ok? ==> r2.value == r.value.(nodes := [n] + r.value.nodes)
  {
    if r.Ok? then Ok(r.value.(nodes := [n] + r.value.nodes)) else r
  }

  /**
   * One level of `build_ast` starting at location `l`: the nodes up to
   * the closing bracket that ends the level, or up to the end of the
   * tokens, and what is left after that bracket.
   */
  function Build(nm: Numerals, tokens: seq<string>, l: Loc): (r: Parsed<Built>)
    decreases |tokens|, 1
    ensures r.Ok? ==> |r.value.rest| <= |tokens|
    ensures r.Ok? && !r.value.closed ==> r.value.rest == []
  {
    if tokens == [] then Ok(Built([], [], false, l))
    else
      var t, rest := tokens[0], tokens[1..];
      match KindOf(t)
      case Close => Ok(Built([], rest, true, l))
      case LineBreak => Build(nm, rest, Loc(l.line + 1, 0))
      case Gap => Build(nm, rest, Loc(l.line, l.column + 1))
      case Open => BuildGroup(nm, t, rest, l)
      case Blank => Err(EmptyToken)
      case Leaf => Cons(Classify(nm, t, l), Build(nm, rest, After(l, t)))
  }

  /**
   * An opening bracket followed by `rest`: the nested level up to its
   * closing bracket becomes one node, located where the nested level
   * left the location, and this level goes on after the closing bracket.
   */
  function BuildGroup(nm: Numerals, opener: string, rest: seq<string>, l: Loc): (r: Parsed<Built>)
    requires IsOpener(opener)
    decreases |rest| + 1, 0
    ensures r.Ok? ==> |r.value.rest| <= |rest|
    ensures r.Ok? && !r.value.closed ==> r.value.rest == []
  {
    var inner := Build(nm, rest, l);
    if inner.Err? then inner
    else if !inner.value.closed then Err(UnclosedBracket)
    else
      var node := Group(opener, inner.value.nodes, inner.value.loc);
      var tail := Build(nm, inner.value.rest, After(inner.value.loc, opener));
      Cons(node, tail)
  }

  /** `parse(s)`: the top level of the tokens of `s`, starting at line 1, column 0. */
  function Parse(nm: Numerals, s: string): Parsed<seq<Node>> {
    var b := Build(nm, Tokenize(s), Loc(1, 0));
    if b.Err? then Err(b.error)
    else if b.value.closed then Err(StrayCloser)
    else Ok(b.value.nodes)
  }

  /** The `location` record `build_ast` shares with every nested call. */
  class Location {
    var line: int
    var column: int

    constructor (line: int, column: int)
      ensures this.line == line && this.column == column
    {
      this.line := line;
      this.column := column;
    }

    /** `location.copy()`. */
    function Get(): (l: Loc)
      reads this
      ensures l.line == line && l.column == column
    {
      Loc(line, column)
    }

    /** The update `add_node` makes after appending a node for `token`. */
    method Advance(token: string)
      modifies this
      ensures Get() == After(old(Get()), token)
    {
      var n := 0;
      var i := 0;
      while i < |token|
        invariant 0 <= i <= |token|
        invariant n + NewlineCount(token[i..]) == NewlineCount(token)
      {
        assert token[i..][1..] == token[i + 1..];
        if token[i] == '\n' {
          n := n + 1;
        }
        i := i + 1;
      }
      line := line + n;
      column := if n > 0 then 0 else column + |token|;
    }
  }

  /** Prepends the nodes already built at this level. */
  function Prepend(ast: seq<Node>, r: Parsed<Built>): Parsed<Built> {
    if r.Ok? then Ok(r.value.(nodes := ast + r.value.nodes)) else r
  }

  /** Appending a node to the level built so far is consing it onto the rest. */
  lemma PrependCons(ast: seq<Node>, n: Node, r: Parsed<Built>)
    ensures Prepend(ast, Cons(n, r)) == Prepend(ast + [n], r)
  {
    if r.Ok? {
      assert ast + ([n] + r.value.nodes) == ast + [n] + r.value.nodes;
    }
  }

  /** `build_ast(tokens, location)`, proved to compute `Build` and to leave `location` where `Build` says. */
  method BuildAst(nm: Numerals, tokens: seq<string>, location: Location) returns (r: Parsed<Built>)
    modifies location
    decreases |tokens|
    ensures r == Build(nm, tokens, old(location.Get()))
    ensures r.Ok? ==> location.Get() == r.value.loc
  {
    ghost var start := location.Get();
    var ast: seq<Node> := [];
    var toks := tokens;
    assert Prepend(ast, Build(nm, toks, location.Get())) == Build(nm, toks, location.Get()) by {
      var b := Build(nm, toks, location.Get());
      if b.Ok? {
        assert [] + b.value.nodes == b.value.nodes;
      }
    }
    while toks != []
      invariant |toks| <= |tokens|
      invariant Build(nm, tokens, start) == Prepend(ast, Build(nm, toks, location.Get()))
      decreases |toks|
    {
      ghost var here := location.Get();
      var token := toks[0];
      ghost var before := toks;
      toks := toks[1..];
      assert before == [token] + toks;
      if IsCloser(token) {
        assert Build(nm, before, here) == Ok(Built([], toks, true, here));
        assert ast + [] == ast;
        return Ok(Built(ast, toks, true, location.Get()));
      }
      if token == Newline {
        assert Build(nm, before, here) == Build(nm, toks, Loc(here.line + 1, 0));
        location.line := location.line + 1;
        location.column := 0;
      } else if token == Space || token == "," {
        assert Build(nm, before, here) == Build(nm, toks, Loc(here.line, here.column + 1));
        location.column := location.column + 1;
      } else if IsOpener(token) {
        var inner := BuildAst(nm, toks, location);
        if inner.Err? {
          return inner;
        }
        if !inner.value.closed {
          return Err(UnclosedBracket);
        }
        var node := Group(token, inner.value.nodes, location.Get());
        assert Build(nm, before, here) == BuildGroup(nm, token, toks, here)
            == Cons(node, Build(nm, inner.value.rest, After(location.Get(), token)));
        PrependCons(ast, node, Build(nm, inner.value.rest, After(location.Get(), token)));
        ast := ast + [node];
        location.Advance(token);
        toks := inner.value.rest;
      } else if token == "" {
        return Err(EmptyToken);
      } else {
        var node := Classify(nm, token, location.Get());
        assert Build(nm, before, here) == Cons(node, Build(nm, toks, After(here, token)));
        PrependCons(ast, node, Build(nm, toks, After(here, token)));
        ast := ast + [node];
        location.Advance(token);
      }
    }
    assert ast + [] == ast;
    return Ok(Built(ast, [], false, location.Get()));
  }

  /** `parse(s)`, proved to compute `Parse`. */
  method ParseText(nm: Numerals, s: string) returns (r: Parsed<seq<Node>>)
    ensures r == Parse(nm, s)
  {
    var location := new Location(1, 0);
    var b := BuildAst(nm, Tokenize(s), location);
    if b.Err? {
      return Err(b.error);
    }
    if b.value.closed {
      return Err(StrayCloser);
    }
    return Ok(b.value.nodes);
  }
}

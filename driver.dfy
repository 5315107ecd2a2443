/**
 * The entry point of interpret.py: `interpret(ast, **kw)` runs the
 * top-level statements in order, all in the one frame holding the
 * builtins and the keyword arguments, and answers the value of the last
 * statement, or the value an `exit` unwound with.
 */
module Driver {
  import opened Syntax
  import opened Values
  import opened Evaluator
  import opened EvalProperties
  import opened FormProperties

  /**
   * The heap `interpret` starts from: frame 0 is the copy of the builtin
   * table updated with the keyword arguments.
   */
  function InitialHeap(kw: map<string, Value>): Heap {
    Heap([Frame(Builtins() + kw, None)], 0)
  }

  /** A keyword argument shadows the builtin of the same name. */
  lemma InitialBindings(kw: map<string, Value>, x: string)
    ensures WfHeap(InitialHeap(kw))
    ensures Lookup(InitialHeap(kw), 0, x) ==
      if x in kw then Some(kw[x]) else if x in BuiltinNames then Some(VNative(x)) else None
  {
  }

  /**
   * Runs the statements in order in frame 0. `last` is the value of the
   * statement run last, if any; the outcome is `Normal(last)` once all
   * have run, or the `exit` or failure that stopped the run.
   */
  function Exec(fuel: nat, ast: seq<Node>, h: Heap, last: Option<Value>): (r: Res<Option<Value>>)
    decreases |ast|
    ensures Grows(h, r.heap)
    ensures ast == [] ==> r == Res(Normal(last), h)
  {
    if ast == [] then Res(Normal(last), h)
    else
      var s := Eval(fuel, ast[0], 0, h);
      if s.out.Normal? then Exec(fuel, ast[1..], s.heap, Some(s.out.value))
      else Res(Abrupt(s.out), s.heap)
  }

  /**
   * What `interpret` returns: the value an `exit` carried, or that of the
   * last statement. An empty program reads the never-assigned `result`.
   */
  function Finish(o: Outcome<Option<Value>>): (r: Outcome<Value>)
    ensures !r.Exit?
    ensures o.Exit? ==> r == Normal(o.result)
    ensures o.Fail? ==> r == Fail(o.error)
    ensures o.Normal? && o.value.Some? ==> r == Normal(o.value.value)
    ensures o == Normal(None) ==> r.Fail? && r.error.kind == UnboundLocal
  {
    match o
    case Normal(last) => if last.Some? then Normal(last.value) else Fail(Error(UnboundLocal, Loc(1, 0)))
    case Exit(v) => Normal(v)
    case Fail(e) => Fail(e)
  }

  /** `interpret(ast, **kw)` as a function of its inputs. */
  function Interpret(fuel: nat, ast: seq<Node>, kw: map<string, Value>): Outcome<Value> {
    Finish(Exec(fuel, ast, InitialHeap(kw), None).out)
  }

  /** The loop of `interpret`, proved to compute `Interpret`. */
  method RunProgram(fuel: nat, ast: seq<Node>, kw: map<string, Value>) returns (r: Outcome<Value>)
    ensures r == Interpret(fuel, ast, kw)
    ensures !r.Exit?
  {
    var h := InitialHeap(kw);
    var result: Option<Value> := None;
    var i := 0;
    while i < |ast|
      invariant 0 <= i <= |ast|
      invariant Exec(fuel, ast, InitialHeap(kw), None) == Exec(fuel, ast[i..], h, result)
    {
      var s := Eval(fuel, ast[i], 0, h);
      assert ast[i..][1..] == ast[i + 1..];
      if s.out.Exit? {
        return Normal(s.out.result);
      } else if s.out.Fail? {
        return Fail(s.out.error);
      }
      h := s.heap;
      result := Some(s.out.value);
      i := i + 1;
    }
    if result.None? {
      return Fail(Error(UnboundLocal, Loc(1, 0)));
    }
    return Normal(result.value);
  }

  /**
   * Running two programs one after the other: the second starts from the
   * heap and the last value the first left, unless the first stopped.
   */
  lemma {:induction false} ExecAppend(fuel: nat, a: seq<Node>, b: seq<Node>, h: Heap, last: Option<Value>)
    ensures var e := Exec(fuel, a, h, last);
      Exec(fuel, a + b, h, last) == if e.out.Normal? then Exec(fuel, b, e.heap, e.out.value) else e
  {
    if a != [] {
      assert (a + b)[0] == a[0] && (a + b)[1..] == a[1..] + b;
      var s := Eval(fuel, a[0], 0, h);
      if s.out.Normal? {
        ExecAppend(fuel, a[1..], b, s.heap, Some(s.out.value));
      }
    } else {
      assert a + b == b;
    }
  }

  /** Statements after one that exits or fails are never run. */
  lemma StopSkipsRest(fuel: nat, a: seq<Node>, rest: seq<Node>, h: Heap, last: Option<Value>)
    requires !Exec(fuel, a, h, last).out.Normal?
    ensures Exec(fuel, a + rest, h, last) == Exec(fuel, a, h, last)
  {
    ExecAppend(fuel, a, rest, h, last);
  }

  /** A program that runs through answers the value of its last statement. */
  lemma LastStatementValue(fuel: nat, a: seq<Node>, s: Node, kw: map<string, Value>)
    requires Exec(fuel, a, InitialHeap(kw), None).out.Normal?
    requires Eval(fuel, s, 0, Exec(fuel, a, InitialHeap(kw), None).heap).out.Normal?
    ensures Interpret(fuel, a + [s], kw) ==
      Normal(Eval(fuel, s, 0, Exec(fuel, a, InitialHeap(kw), None).heap).out.value)
  {
    var e := Exec(fuel, a, InitialHeap(kw), None);
    ExecAppend(fuel, a, [s], InitialHeap(kw), None);
    assert [s][1..] == [];
  }

  /**
   * `(exit e)`, where `exit` is the builtin, evaluates `e` in the current
   * frame and unwinds with its value; an unwinding or failure of `e`
   * itself is passed on.
   */
  lemma ExitStatement(fuel: nat, el: Loc, e: Node, loc: Loc, env: nat, h: Heap)
    requires fuel > 1
    requires Lookup(h, env, "exit") == Some(VNative("exit"))
    ensures var v := Eval(fuel - 1, e, env, h);
      Eval(fuel, Call([Ident("exit", el), e], loc), env, h)
      == Res(if v.out.Normal? then Exit(v.out.value) else v.out, v.heap)
  {
    var items := [Ident("exit", el), e];
    EvalIdent(fuel - 1, "exit", el, env, h);
    CallUnfold(fuel, items, loc, env, h);
    assert items[1..] == [e];
    assert Apply(fuel - 1, VNative("exit"), items[1..], loc, env, h)
        == ApplyNative(fuel - 1, "exit", items[1..], loc, env, h)
        == ExitForm(fuel - 1, items[1..], loc, env, h);
  }

  /**
   * A top-level `(exit e)` ends the program with the value of `e`,
   * evaluated in the heap the statements before it left, whatever
   * statements follow it, provided those before it left `exit` bound to
   * the builtin. When `e` itself exits or fails, that outcome is the
   * answer instead.
   */
  lemma ExitEndsProgram(fuel: nat, a: seq<Node>, el: Loc, e: Node, loc: Loc, rest: seq<Node>, kw: map<string, Value>)
    requires fuel > 1
    requires Exec(fuel, a, InitialHeap(kw), None).out.Normal?
    requires Lookup(Exec(fuel, a, InitialHeap(kw), None).heap, 0, "exit") == Some(VNative("exit"))
    ensures var v := Eval(fuel - 1, e, 0, Exec(fuel, a, InitialHeap(kw), None).heap);
      var r := Interpret(fuel, a + [Call([Ident("exit", el), e], loc)] + rest, kw);
      && (v.out.Normal? ==> r == Normal(v.out.value))
      && (v.out.Exit? ==> r == Normal(v.out.result))
      && (v.out.Fail? ==> r == Fail(v.out.error))
  {
    var h0 := InitialHeap(kw);
    var x := Call([Ident("exit", el), e], loc);
    var p := Exec(fuel, a, h0, None);
    var v := Eval(fuel - 1, e, 0, p.heap);
    ExitStatement(fuel, el, e, loc, 0, p.heap);
    ExecAppend(fuel, a, [x], h0, None);
    assert [x][0] == x;
    assert !Exec(fuel, [x], p.heap, p.out.value).out.Normal?;
    assert Exec(fuel, a + [x], h0, None) == Exec(fuel, [x], p.heap, p.out.value);
    StopSkipsRest(fuel, a + [x], rest, h0, None);
  }

  /**
   * A top-level `defn` writes into frame 0, the frame that every later
   * statement is evaluated in, so the function it defines is visible to
   * them; the statement's own value is `None`.
   */
  lemma TopLevelDefnVisible(fuel: nat, a: seq<Node>, dl: Loc, x: string, xl: Loc, params: Node, body: Node, loc: Loc, kw: map<string, Value>)
    requires fuel > 1 && ParamNames(params).Normal?
    requires Exec(fuel, a, InitialHeap(kw), None).out.Normal?
    requires Lookup(Exec(fuel, a, InitialHeap(kw), None).heap, 0, "defn") == Some(VNative("defn"))
    ensures var p := Exec(fuel, a, InitialHeap(kw), None);
      var q := Exec(fuel, a + [Call([Ident("defn", dl), Ident(x, xl), params, body], loc)], InitialHeap(kw), None);
      && q.out == Normal(Some(VNone))
      && Lookup(q.heap, 0, x) == Some(VClosure(p.heap.nextId, ParamNames(params).value, body, 0))
  {
    var h0 := InitialHeap(kw);
    var d := Call([Ident("defn", dl), Ident(x, xl), params, body], loc);
    var p := Exec(fuel, a, h0, None);
    DefnStatement(fuel, dl, x, xl, params, body, loc, 0, p.heap);
    ExecAppend(fuel, a, [d], h0, None);
    assert [d][1..] == [];
  }
}

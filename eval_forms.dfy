/**
 * Properties of the binding and branching builtins: `defn` writes the
 * current frame in place, closures see their defining frame, `let` binds
 * in one child frame from expressions evaluated outside it, and `case`
 * stops at the first matching key.
 */
module FormProperties {
  import opened Syntax
  import opened Values
  import opened Primitives
  import opened Evaluator
  import opened EvalProperties

  // ---------------------------------------------------------------------
  // defn

  /**
   * `defn` returns None and writes a closure over the current frame into
   * that same frame under its name; every other frame is left as it was.
   */
  lemma DefnWritesCurrentFrame(fuel: nat, x: string, xl: Loc, params: Node, body: Node, loc: Loc, env: nat, h: Heap)
    requires env < |h.frames| && ParamNames(params).Normal?
    ensures var r := Defn(fuel, [Ident(x, xl), params, body], loc, env, h);
      var c := VClosure(h.nextId, ParamNames(params).value, body, env);
      && r.out == Normal(VNone)
      && |r.heap.frames| == |h.frames| && r.heap.nextId == h.nextId + 1
      && r.heap.frames[env] == Frame(h.frames[env].bindings[x := c], h.frames[env].parent)
      && (forall i :: 0 <= i < |h.frames| && i != env ==> r.heap.frames[i] == h.frames[i])
      && Lookup(r.heap, env, x) == Some(c)
  {
  }

  /** The statement `(defn x params body)` at a frame where `defn` is the builtin. */
  lemma DefnStatement(fuel: nat, dl: Loc, x: string, xl: Loc, params: Node, body: Node, loc: Loc, env: nat, h: Heap)
    requires fuel > 1 && env < |h.frames| && ParamNames(params).Normal?
    requires Lookup(h, env, "defn") == Some(VNative("defn"))
    ensures var r := Eval(fuel, Call([Ident("defn", dl), Ident(x, xl), params, body], loc), env, h);
      var c := VClosure(h.nextId, ParamNames(params).value, body, env);
      && r.out == Normal(VNone)
      && |r.heap.frames| == |h.frames|
      && r.heap.frames[env] == Frame(h.frames[env].bindings[x := c], h.frames[env].parent)
      && (forall i :: 0 <= i < |h.frames| && i != env ==> r.heap.frames[i] == h.frames[i])
      && Lookup(r.heap, env, x) == Some(c)
  {
    var items := [Ident("defn", dl), Ident(x, xl), params, body];
    assert Eval(fuel, Call(items, loc), env, h) == EvalCall(fuel - 1, items, loc, env, h);
    assert Eval(fuel - 1, items[0], env, h) == Res(Normal(VNative("defn")), h);
    assert items[1..] == [Ident(x, xl), params, body];
    assert EvalCall(fuel - 1, items, loc, env, h) == Apply(fuel - 1, VNative("defn"), items[1..], loc, env, h);
    assert Apply(fuel - 1, VNative("defn"), items[1..], loc, env, h)
        == ApplyNative(fuel - 1, "defn", items[1..], loc, env, h)
        == Defn(fuel - 1, items[1..], loc, env, h);
    DefnWritesCurrentFrame(fuel - 1, x, xl, params, body, loc, env, h);
  }

  // ---------------------------------------------------------------------
  // fn and partial

  /**
   * `(fn params body)` with exactly those two arguments and a valid
   * parameter list makes a new closure over the frame it is evaluated in;
   * fewer arguments fail the arity check and more fail the unpacking.
   */
  lemma FnBuildsClosure(fuel: nat, args: seq<Node>, loc: Loc, env: nat, h: Heap)
    ensures |args| < 2 ==> Fn(fuel, args, loc, env, h) == Res(Fail(Error(ArityError, loc)), h)
    ensures |args| > 2 ==> Fn(fuel, args, loc, env, h) == Res(Fail(Error(UnpackError, loc)), h)
    ensures |args| == 2 && ParamNames(args[0]).Normal? ==>
      Fn(fuel, args, loc, env, h)
      == Res(Normal(VClosure(h.nextId, ParamNames(args[0]).value, args[1], env)), h.(nextId := h.nextId + 1))
  {
  }

  /**
   * `(partial f a ...)` remembers the function node, the fixed argument
   * nodes, its own call node's location and the frame it is evaluated in.
   */
  lemma PartialBuildsValue(fuel: nat, args: seq<Node>, loc: Loc, env: nat, h: Heap)
    ensures |args| < 2 ==> Partial(fuel, args, loc, env, h) == Res(Fail(Error(ArityError, loc)), h)
    ensures |args| >= 2 ==>
      Partial(fuel, args, loc, env, h)
      == Res(Normal(VPartial(h.nextId, args[0], args[1..], loc, env)), h.(nextId := h.nextId + 1))
  {
  }

  /** A one-parameter list `[x]` names the parameter `x`. */
  lemma OneParam(x: string, xl: Loc, pl: Loc)
    ensures ParamNames(Vec([Ident(x, xl)], pl)) == Normal([x])
  {
    var ns := [Ident(x, xl)];
    assert ns[1..] == [] && ns[0].Ident? && ns[0].name == x;
    assert IdentNames(ns[1..]) == Normal([]);
    assert [x] + [] == [x];
  }

  /** The unfolding of a call whose callee evaluates to `f`. */
  lemma CallUnfold(fuel: nat, items: seq<Node>, loc: Loc, env: nat, h: Heap)
    requires fuel > 1 && items != [] && Eval(fuel - 1, items[0], env, h).out.Normal?
    ensures var c := Eval(fuel - 1, items[0], env, h);
      Eval(fuel, Call(items, loc), env, h) == Apply(fuel - 1, c.out.value, items[1..], loc, env, c.heap)
  {
    assert Eval(fuel, Call(items, loc), env, h) == EvalCall(fuel - 1, items, loc, env, h);
  }

  /**
   * Lexical scope: `((fn [x] body) arg)` evaluates `arg` in the calling
   * frame and runs `body` in a new frame that binds only `x`, whose parent
   * is the frame the `fn` form was evaluated in.
   */
  lemma FnCallFrame(fuel: nat, fl: Loc, x: string, xl: Loc, pl: Loc, body: Node, fnLoc: Loc, arg: Node, loc: Loc, env: nat, h: Heap)
    requires fuel > 2 && env < |h.frames| && Lookup(h, env, "fn") == Some(VNative("fn"))
    requires Eval(fuel - 1, arg, env, h.(nextId := h.nextId + 1)).out.Normal?
    ensures var a := Eval(fuel - 1, arg, env, h.(nextId := h.nextId + 1));
      var h2 := NewFrame(a.heap, map[x := a.out.value], env);
      && Eval(fuel, Call([Call([Ident("fn", fl), Vec([Ident(x, xl)], pl), body], fnLoc), arg], loc), env, h)
         == Eval(fuel - 1, body, |a.heap.frames|, h2)
      && h2.frames[|a.heap.frames|] == Frame(map[x := a.out.value], Some(env))
  {
    var h1 := h.(nextId := h.nextId + 1);
    var inner := [Ident("fn", fl), Vec([Ident(x, xl)], pl), body];
    var outer := [Call(inner, fnLoc), arg];
    var c := VClosure(h.nextId, [x], body, env);
    FnForm(fuel - 1, fl, x, xl, pl, body, fnLoc, env, h);
    assert outer[0] == Call(inner, fnLoc) && outer[1..] == [arg];
    CallUnfold(fuel, outer, loc, env, h);
    assert Apply(fuel - 1, c, [arg], loc, env, h1) == CallClosure(fuel - 1, c, [arg], loc, env, h1);
    ClosureOneArg(fuel - 1, c, arg, loc, env, h1);
  }

  /** The form `(fn [x] body)` evaluates to a closure over its frame. */
  lemma FnForm(fuel: nat, fl: Loc, x: string, xl: Loc, pl: Loc, body: Node, fnLoc: Loc, env: nat, h: Heap)
    requires fuel > 1 && Lookup(h, env, "fn") == Some(VNative("fn"))
    ensures Eval(fuel, Call([Ident("fn", fl), Vec([Ident(x, xl)], pl), body], fnLoc), env, h)
         == Res(Normal(VClosure(h.nextId, [x], body, env)), h.(nextId := h.nextId + 1))
  {
    var inner := [Ident("fn", fl), Vec([Ident(x, xl)], pl), body];
    OneParam(x, xl, pl);
    EvalIdent(fuel - 1, "fn", fl, env, h);
    CallUnfold(fuel, inner, fnLoc, env, h);
    assert inner[1..] == [Vec([Ident(x, xl)], pl), body];
    assert Apply(fuel - 1, VNative("fn"), inner[1..], fnLoc, env, h)
        == ApplyNative(fuel - 1, "fn", inner[1..], fnLoc, env, h)
        == Fn(fuel - 1, inner[1..], fnLoc, env, h);
    FnBuildsClosure(fuel - 1, inner[1..], fnLoc, env, h);
  }

  /** A one-parameter closure binds its parameter to the one argument, evaluated in the caller's frame. */
  lemma ClosureOneArg(fuel: nat, c: Value, arg: Node, loc: Loc, env: nat, h: Heap)
    requires c.VClosure? && |c.params| == 1 && Eval(fuel, arg, env, h).out.Normal?
    ensures var a := Eval(fuel, arg, env, h);
      CallClosure(fuel, c, [arg], loc, env, h)
      == Eval(fuel, c.body, |a.heap.frames|, NewFrame(a.heap, map[c.params[0] := a.out.value], c.env))
  {
    var a := Eval(fuel, arg, env, h);
    assert [arg][..1] == [arg] && [arg][1..] == [] && [arg][0] == arg;
    assert EvalList(fuel, [], env, a.heap) == Res(Normal([]), a.heap);
    assert [a.out.value] + [] == [a.out.value];
    assert EvalList(fuel, [arg], env, h) == Res(Normal([a.out.value]), a.heap);
    var x := c.params[0];
    assert Zip(c.params, [a.out.value]) == [(x, a.out.value)];
    assert [(x, a.out.value)][..0] == [];
    assert MapOf([(x, a.out.value)]) == map[x := a.out.value];
  }

  /**
   * `((partial f a ...) b ...)` is the call `(f a ... b ...)` at the
   * `partial` form's location, evaluated in the frame where `partial` was
   * evaluated; the caller's arguments are appended unevaluated.
   */
  lemma PartialCall(fuel: nat, pl: Loc, f: Node, fixed: seq<Node>, pLoc: Loc, args: seq<Node>, loc: Loc, env: nat, h: Heap)
    requires fuel > 2 && fixed != [] && Lookup(h, env, "partial") == Some(VNative("partial"))
    ensures Eval(fuel, Call([Call([Ident("partial", pl), f] + fixed, pLoc)] + args, loc), env, h)
         == Eval(fuel - 1, Call([f] + fixed + args, pLoc), env, h.(nextId := h.nextId + 1))
  {
    var inner := [Ident("partial", pl), f] + fixed;
    var outer := [Call(inner, pLoc)] + args;
    EvalIdent(fuel - 2, "partial", pl, env, h);
    assert inner[0] == Ident("partial", pl);
    CallUnfold(fuel - 1, inner, pLoc, env, h);
    assert inner[1..] == [f] + fixed;
    PartialBuildsValue(fuel - 2, inner[1..], pLoc, env, h);
    assert ([f] + fixed)[0] == f && ([f] + fixed)[1..] == fixed;
    assert outer[0] == Call(inner, pLoc) && outer[1..] == args;
    CallUnfold(fuel, outer, loc, env, h);
  }

  /** Appending a frame changes no lookup from an existing frame. */
  lemma {:induction false} LookupUnderNewFrame(h: Heap, b: map<string, Value>, p: nat, env: nat, x: string)
    requires env < |h.frames|
    ensures Lookup(NewFrame(h, b, p), env, x) == Lookup(h, env, x)
    decreases env
  {
    var h2 := NewFrame(h, b, p);
    assert h2.frames[env] == h.frames[env];
    match h.frames[env].parent
    case Some(q) => if q < env { LookupUnderNewFrame(h, b, p, q, x); }
    case None =>
  }

  /**
   * Inside a closure's body, a name that is not a parameter resolves as it
   * does in the defining frame. With `defn` this is what lets the body's
   * own recursive calls find the function.
   */
  lemma BodySeesDefiningFrame(fuel: nat, c: Value, args: seq<Node>, loc: Loc, env: nat, h: Heap, x: string)
    requires c.VClosure? && |c.params| <= |args| && c.env < |h.frames| && x !in c.params
    requires EvalList(fuel, args[..|c.params|], env, h).out.Normal?
    ensures var a := EvalList(fuel, args[..|c.params|], env, h);
      var f := |a.heap.frames|;
      var h2 := NewFrame(a.heap, MapOf(Zip(c.params, a.out.value)), c.env);
      && CallClosure(fuel, c, args, loc, env, h) == Eval(fuel, c.body, f, h2)
      && Lookup(h2, f, x) == Lookup(a.heap, c.env, x)
  {
    var a := EvalList(fuel, args[..|c.params|], env, h);
    var zs := Zip(c.params, a.out.value);
    MapOfLastWins(zs, x);
    var f := |a.heap.frames|;
    var h2 := NewFrame(a.heap, MapOf(zs), c.env);
    assert x !in h2.frames[f].bindings;
    LookupUnderNewFrame(a.heap, MapOf(zs), c.env, c.env, x);
  }

  // ---------------------------------------------------------------------
  // let

  /**
   * `let` evaluates its binding expressions in the current frame, then the
   * body in one fresh frame holding all bindings, whose parent is the
   * current frame.
   */
  lemma LetBodyFrame(fuel: nat, pairs: Node, body: Node, loc: Loc, env: nat, h: Heap)
    requires Children(pairs).Some? && env < |h.frames|
    requires LetPairs(fuel, pairs.items, loc, env, h).out.Normal?
    ensures var b := LetPairs(fuel, pairs.items, loc, env, h);
      var f := |b.heap.frames|;
      var h2 := NewFrame(b.heap, MapOf(b.out.value), env);
      && Let(fuel, [pairs, body], loc, env, h) == Eval(fuel, body, f, h2)
      && h2.frames[..f] == b.heap.frames
      && h2.frames[f] == Frame(MapOf(b.out.value), Some(env))
  {
  }

  /** The binding names of a `let` list: the nodes at even positions. */
  function KeyNodes(ns: seq<Node>): (r: seq<Node>)
    requires |ns| % 2 == 0
    ensures |r| == |ns| / 2
    decreases |ns|
  {
    if ns == [] then [] else [ns[0]] + KeyNodes(ns[2..])
  }

  /** The binding expressions of a `let` list: the nodes at odd positions. */
  function ValueNodes(ns: seq<Node>): (r: seq<Node>)
    requires |ns| % 2 == 0
    ensures |r| == |ns| / 2
    decreases |ns|
  {
    if ns == [] then [] else [ns[1]] + ValueNodes(ns[2..])
  }

  /** The k-th key of a `let` list is its node at position 2k. */
  lemma {:induction false} KeyNodesAt(ns: seq<Node>)
    requires |ns| % 2 == 0
    ensures forall k :: 0 <= k < |ns| / 2 ==> KeyNodes(ns)[k] == ns[2 * k]
    decreases |ns|
  {
    if ns != [] {
      var tail := ns[2..];
      assert |tail| == |ns| - 2;
      KeyNodesAt(tail);
      var r := KeyNodes(ns);
      assert r == [ns[0]] + KeyNodes(tail);
      forall k | 0 <= k < |ns| / 2 ensures r[k] == ns[2 * k] {
        if k > 0 {
          NodeShift(ns, k - 1);
          assert r[k] == KeyNodes(tail)[k - 1];
        }
      }
    }
  }

  /** The k-th binding expression of a `let` list is its node at position 2k + 1. */
  lemma {:induction false} ValueNodesAt(ns: seq<Node>)
    requires |ns| % 2 == 0
    ensures forall k :: 0 <= k < |ns| / 2 ==> ValueNodes(ns)[k] == ns[2 * k + 1]
    decreases |ns|
  {
    if ns != [] {
      var tail := ns[2..];
      assert |tail| == |ns| - 2;
      ValueNodesAt(tail);
      var r := ValueNodes(ns);
      assert r == [ns[1]] + ValueNodes(tail);
      forall k | 0 <= k < |ns| / 2 ensures r[k] == ns[2 * k + 1] {
        if k > 0 {
          NodeShift(ns, k - 1);
          assert r[k] == ValueNodes(tail)[k - 1];
        }
      }
    }
  }

  /** Pair k of the rest of a list is pair k + 1 of the list. */
  lemma NodeShift(ns: seq<Node>, k: nat)
    requires |ns| % 2 == 0 && 2 <= |ns| && k < |ns| / 2 - 1
    ensures k < |ns[2..]| / 2
    ensures ns[2..][2 * k] == ns[2 * (k + 1)] && ns[2..][2 * k + 1] == ns[2 * (k + 1) + 1]
  {
  }

  /**
   * The entries a scope dict built from these keys and values can be
   * looked up by: one for each identifier or string key, in order.
   */
  function NamedPairs(keys: seq<Node>, vals: seq<Value>): seq<(string, Value)>
    requires |keys| == |vals|
  {
    if keys == [] then []
    else
      var rest := NamedPairs(keys[1..], vals[1..]);
      match NodeKey(keys[0])
      case Named(x) => [(x, vals[0])] + rest
      case _ => rest
  }

  /** Every entry of the scope pairs the name of some key with the value at that key's position. */
  lemma {:induction false} NamedPairsFrom(keys: seq<Node>, vals: seq<Value>)
    requires |keys| == |vals|
    ensures forall p :: p in NamedPairs(keys, vals) ==>
      exists i :: 0 <= i < |keys| && NodeKey(keys[i]) == Named(p.0) && vals[i] == p.1
    decreases |keys|
  {
    if keys != [] {
      var rest := NamedPairs(keys[1..], vals[1..]);
      NamedPairsFrom(keys[1..], vals[1..]);
      forall p | p in rest ensures exists i :: 1 <= i < |keys| && NodeKey(keys[i]) == Named(p.0) && vals[i] == p.1 {
        var i :| 0 <= i < |keys| - 1 && NodeKey(keys[1..][i]) == Named(p.0) && vals[1..][i] == p.1;
        assert keys[1..][i] == keys[i + 1];
      }
      forall p | p in NamedPairs(keys, vals)
        ensures exists i :: 0 <= i < |keys| && NodeKey(keys[i]) == Named(p.0) && vals[i] == p.1
      {
        if p !in rest {
          assert NodeKey(keys[0]) == Named(p.0) && vals[0] == p.1;
        }
      }
    }
  }

  /**
   * The bindings of `let` are the binding expressions evaluated one after
   * the other in the current frame, as a list is, each paired with the
   * name of its key; no key is a list.
   */
  lemma LetPairsEvaluatesValues(fuel: nat, ns: seq<Node>, loc: Loc, env: nat, h: Heap)
    requires LetPairs(fuel, ns, loc, env, h).out.Normal?
    ensures |ns| % 2 == 0
    ensures forall k :: 0 <= k < |ns| / 2 ==> !NodeKey(KeyNodes(ns)[k]).Unhashable?
    ensures var vs := EvalList(fuel, ValueNodes(ns), env, h);
      && vs.out.Normal?
      && vs.heap == LetPairs(fuel, ns, loc, env, h).heap
      && LetPairs(fuel, ns, loc, env, h).out.value == NamedPairs(KeyNodes(ns), vs.out.value)
  {
    LetPairsKeys(fuel, ns, loc, env, h);
    LetPairsValues(fuel, ns, loc, env, h);
  }

  /** Successful bindings come in pairs, and no key is a list. */
  lemma LetPairsKeys(fuel: nat, ns: seq<Node>, loc: Loc, env: nat, h: Heap)
    requires LetPairs(fuel, ns, loc, env, h).out.Normal?
    ensures |ns| % 2 == 0
    ensures forall k :: 0 <= k < |ns| / 2 ==> !NodeKey(KeyNodes(ns)[k]).Unhashable?
  {
    LetPairsKeysOk(fuel, ns, loc, env, h);
    KeysOkMeans(ns);
  }

  /** The keys of a `let` list come in pairs and none is a list. */
  ghost predicate KeysOk(ns: seq<Node>)
    decreases |ns|
  {
    ns == [] || (|ns| >= 2 && !NodeKey(ns[0]).Unhashable? && KeysOk(ns[2..]))
  }

  lemma {:induction false} LetPairsKeysOk(fuel: nat, ns: seq<Node>, loc: Loc, env: nat, h: Heap)
    requires LetPairs(fuel, ns, loc, env, h).out.Normal?
    ensures KeysOk(ns)
    decreases |ns|
  {
    if ns != [] {
      LetPairsHead(fuel, ns, loc, env, h);
      LetPairsKeysOk(fuel, ns[2..], loc, env, Eval(fuel, ns[1], env, h).heap);
    }
  }

  lemma {:induction false} KeysOkMeans(ns: seq<Node>)
    requires KeysOk(ns)
    ensures |ns| % 2 == 0
    ensures forall k :: 0 <= k < |ns| / 2 ==> !NodeKey(KeyNodes(ns)[k]).Unhashable?
    decreases |ns|
  {
    if ns != [] {
      KeysOkMeans(ns[2..]);
      KeysStep(ns);
    }
  }

  /** Successful bindings pair each named key with its value, the values evaluated as a list is. */
  lemma LetPairsValues(fuel: nat, ns: seq<Node>, loc: Loc, env: nat, h: Heap)
    requires |ns| % 2 == 0 && LetPairs(fuel, ns, loc, env, h).out.Normal?
    ensures var vs := EvalList(fuel, ValueNodes(ns), env, h);
      && vs.out.Normal?
      && vs.heap == LetPairs(fuel, ns, loc, env, h).heap
      && LetPairs(fuel, ns, loc, env, h).out.value == NamedPairs(KeyNodes(ns), vs.out.value)
  {
    LetPairsKeysOk(fuel, ns, loc, env, h);
    LetValuesHeap(fuel, ns, loc, env, h);
    LetPairsNamed(fuel, ns, loc, env, h);
    LetValuesList(fuel, ns, loc, env, h);
  }

  /**
   * The binding expressions of a `let` list evaluated as `let` evaluates
   * them, failing where it fails, but keeping the values instead of pairs.
   */
  ghost function LetValues(fuel: nat, ns: seq<Node>, loc: Loc, env: nat, h: Heap): (r: Res<seq<Value>>)
    ensures r.out.Normal? ==> |ns| % 2 == 0 && |r.out.value| == |ns| / 2
    decreases |ns|
  {
    if ns == [] then Res(Normal([]), h)
    else if |ns| == 1 then Res(Fail(Error(IndexError, loc)), h)
    else
      var v := Eval(fuel, ns[1], env, h);
      if !v.out.Normal? then Res(Abrupt(v.out), v.heap)
      else if NodeKey(ns[0]).Unhashable? then Res(Fail(Error(TypeError, loc)), v.heap)
      else
        var r := LetValues(fuel, ns[2..], loc, env, v.heap);
        Res(if r.out.Normal? then Normal([v.out.value] + r.out.value) else r.out, r.heap)
  }

  /** `LetValues` ends where the bindings of `let` end, and succeeds exactly when they do. */
  lemma {:induction false} LetValuesHeap(fuel: nat, ns: seq<Node>, loc: Loc, env: nat, h: Heap)
    ensures LetValues(fuel, ns, loc, env, h).heap == LetPairs(fuel, ns, loc, env, h).heap
    ensures LetValues(fuel, ns, loc, env, h).out.Normal? <==> LetPairs(fuel, ns, loc, env, h).out.Normal?
    decreases |ns|
  {
    if |ns| >= 2 {
      LetValuesHeap(fuel, ns[2..], loc, env, Eval(fuel, ns[1], env, h).heap);
    }
  }

  lemma {:induction false} LetPairsNamed(fuel: nat, ns: seq<Node>, loc: Loc, env: nat, h: Heap)
    requires |ns| % 2 == 0 && LetPairs(fuel, ns, loc, env, h).out.Normal?
    requires LetValues(fuel, ns, loc, env, h).out.Normal?
    ensures LetPairs(fuel, ns, loc, env, h).out.value == NamedPairs(KeyNodes(ns), LetValues(fuel, ns, loc, env, h).out.value)
    decreases |ns|
  {
    if ns != [] {
      LetPairsHead(fuel, ns, loc, env, h);
      var v := Eval(fuel, ns[1], env, h);
      assert |ns[2..]| == |ns| - 2;
      LetPairsNamed(fuel, ns[2..], loc, env, v.heap);
      NamedStep(ns, v.out.value, LetValues(fuel, ns[2..], loc, env, v.heap).out.value);
    }
  }

  /** With every key hashable, `LetValues` is the list evaluation of the binding expressions. */
  lemma {:induction false} LetValuesList(fuel: nat, ns: seq<Node>, loc: Loc, env: nat, h: Heap)
    requires |ns| % 2 == 0 && KeysOk(ns)
    ensures LetValues(fuel, ns, loc, env, h) == EvalList(fuel, ValueNodes(ns), env, h)
    decreases |ns|
  {
    if ns != [] {
      var v := Eval(fuel, ns[1], env, h);
      assert |ns[2..]| == |ns| - 2;
      LetHead(ns);
      if v.out.Normal? {
        LetValuesList(fuel, ns[2..], loc, env, v.heap);
      }
    }
  }

  /** One step of the bindings of `let`: the first value, then the rest in the heap it leaves. */
  lemma LetPairsHead(fuel: nat, ns: seq<Node>, loc: Loc, env: nat, h: Heap)
    requires ns != [] && LetPairs(fuel, ns, loc, env, h).out.Normal?
    ensures |ns| >= 2
    ensures var v := Eval(fuel, ns[1], env, h);
      var t := LetPairs(fuel, ns[2..], loc, env, v.heap);
      && v.out.Normal? && !NodeKey(ns[0]).Unhashable? && t.out.Normal?
      && LetPairs(fuel, ns, loc, env, h).heap == t.heap
      && LetPairs(fuel, ns, loc, env, h).out.value == (if NodeKey(ns[0]).Named? then [(NodeKey(ns[0]).name, v.out.value)] + t.out.value else t.out.value)
  {
    var v := Eval(fuel, ns[1], env, h);
    var t := LetPairs(fuel, ns[2..], loc, env, v.heap);
  }

  /** No key of a `let` list is unhashable when neither its first key nor those of the rest are. */
  lemma KeysStep(ns: seq<Node>)
    requires |ns| >= 2 && |ns| % 2 == 0 && !NodeKey(ns[0]).Unhashable?
    requires forall k :: 0 <= k < |ns[2..]| / 2 ==> !NodeKey(KeyNodes(ns[2..])[k]).Unhashable?
    ensures forall k :: 0 <= k < |ns| / 2 ==> !NodeKey(KeyNodes(ns)[k]).Unhashable?
  {
    LetHead(ns);
    forall k | 0 <= k < |ns| / 2 ensures !NodeKey(KeyNodes(ns)[k]).Unhashable? {
      if k > 0 {
        assert KeyNodes(ns)[k] == KeyNodes(ns[2..])[k - 1];
      }
    }
  }

  /** Pairing the keys with the values takes the first pair, then the rest. */
  lemma NamedStep(ns: seq<Node>, v: Value, vt: seq<Value>)
    requires |ns| >= 2 && |ns| % 2 == 0 && |vt| == |ns| / 2 - 1
    ensures var rest := NamedPairs(KeyNodes(ns[2..]), vt);
      NamedPairs(KeyNodes(ns), [v] + vt) == if NodeKey(ns[0]).Named? then [(NodeKey(ns[0]).name, v)] + rest else rest
  {
    LetHead(ns);
    assert ([v] + vt)[0] == v && ([v] + vt)[1..] == vt;
  }

  /** The first key and value, and the rest of a `let` list. */
  lemma LetHead(ns: seq<Node>)
    requires |ns| % 2 == 0 && ns != []
    ensures KeyNodes(ns) == [ns[0]] + KeyNodes(ns[2..]) && ValueNodes(ns) == [ns[1]] + ValueNodes(ns[2..])
    ensures ValueNodes(ns)[0] == ns[1] && ValueNodes(ns)[1..] == ValueNodes(ns[2..])
    ensures KeyNodes(ns)[0] == ns[0] && KeyNodes(ns)[1..] == KeyNodes(ns[2..])
  {
  }

  /** A dict built from two lists of pairs is the first's dict updated with the second's. */
  lemma {:induction false} MapOfConcat<K, V>(a: seq<(K, V)>, b: seq<(K, V)>)
    ensures MapOf(a + b) == MapOf(a) + MapOf(b)
    decreases |b|
  {
    if b == [] {
      assert a + b == a;
    } else {
      var b0 := b[..|b| - 1];
      assert (a + b)[..|a + b| - 1] == a + b0;
      assert (a + b)[|a + b| - 1] == b[|b| - 1];
      MapOfConcat(a, b0);
    }
  }

  /**
   * In the dict of the named pairs, a name is bound to the value of the
   * last key with that name.
   */
  lemma {:induction false} NamedPairsLookup(keys: seq<Node>, vals: seq<Value>, i: nat, x: string)
    requires |keys| == |vals| && i < |keys| && NodeKey(keys[i]) == Named(x)
    requires forall j :: i < j < |keys| ==> NodeKey(keys[j]) != Named(x)
    ensures x in MapOf(NamedPairs(keys, vals)) && MapOf(NamedPairs(keys, vals))[x] == vals[i]
    decreases |keys|
  {
    var rest := NamedPairs(keys[1..], vals[1..]);
    if i == 0 {
      NamedPairsFrom(keys[1..], vals[1..]);
      forall p | p in rest ensures p.0 != x {
        var j :| 0 <= j < |keys| - 1 && NodeKey(keys[1..][j]) == Named(p.0) && vals[1..][j] == p.1;
        assert keys[1..][j] == keys[j + 1];
      }
      MapOfLastWins(rest, x);
      MapOfConcat([(x, vals[0])], rest);
      assert MapOf([(x, vals[0])]) == map[x := vals[0]] by {
        assert [(x, vals[0])][..0] == [];
      }
    } else {
      forall j | i - 1 < j < |keys| - 1 ensures NodeKey(keys[1..][j]) != Named(x) {
        assert keys[1..][j] == keys[j + 1];
      }
      assert keys[1..][i - 1] == keys[i] && vals[1..][i - 1] == vals[i];
      NamedPairsLookup(keys[1..], vals[1..], i - 1, x);
      match NodeKey(keys[0])
      case Named(y) =>
        MapOfConcat([(y, vals[0])], rest);
      case _ =>
    }
  }

  /**
   * Binding i of `let`: when its key is the name `x` and no later key has
   * that name, the new frame binds `x` to the value of the i-th binding
   * expression, evaluated in the current frame after the expressions
   * before it. No binding expression sees the frame being built.
   */
  lemma LetBinding(fuel: nat, ns: seq<Node>, loc: Loc, env: nat, h: Heap, i: nat, x: string)
    requires LetPairs(fuel, ns, loc, env, h).out.Normal?
    requires 2 * i + 1 < |ns| && NodeKey(ns[2 * i]) == Named(x)
    requires forall j :: i < j < |ns| / 2 ==> NodeKey(ns[2 * j]) != Named(x)
    ensures |ns| % 2 == 0
    ensures var m := MapOf(LetPairs(fuel, ns, loc, env, h).out.value);
      var vals := ValueNodes(ns);
      && x in m
      && Eval(fuel, ns[2 * i + 1], env, EvalList(fuel, vals[..i], env, h).heap).out == Normal(m[x])
  {
    LetPairsEvaluatesValues(fuel, ns, loc, env, h);
    var keys := KeyNodes(ns);
    var vals := ValueNodes(ns);
    var vs := EvalList(fuel, vals, env, h);
    KeyNodesAt(ns);
    ValueNodesAt(ns);
    forall j | i < j < |keys| ensures NodeKey(keys[j]) != Named(x) {
      assert keys[j] == ns[2 * j];
    }
    NamedPairsLookup(keys, vs.out.value, i, x);
    EvalListPrefix(fuel, vals, env, h, i);
  }

  // ---------------------------------------------------------------------
  // case

  /** Some key of `ps`, evaluated in order, equals the subject, all earlier keys evaluating normally. */
  ghost predicate MatchesWithin(fuel: nat, subject: Value, ps: seq<Node>, env: nat, h: Heap)
    decreases |ps|
  {
    |ps| >= 2 &&
    var key := Eval(fuel, ps[0], env, h);
    key.out.Normal? && (key.out.value == subject || MatchesWithin(fuel, subject, ps[2..], env, key.heap))
  }

  /**
   * Once a key matches, the keys and branches after it and the default are
   * never evaluated: replacing them does not change the result.
   */
  lemma {:induction false} CaseStopsAtFirstMatch(
    fuel: nat, subject: Value, ps: seq<Node>, rest1: seq<Node>, rest2: seq<Node>,
    d1: Option<Node>, d2: Option<Node>, loc: Loc, env: nat, h: Heap)
    requires |ps| % 2 == 0 && |rest1| % 2 == 0 && |rest2| % 2 == 0
    requires MatchesWithin(fuel, subject, ps, env, h)
    ensures CaseScan(fuel, subject, ps + rest1, d1, loc, env, h) == CaseScan(fuel, subject, ps + rest2, d2, loc, env, h)
    decreases |ps|
  {
    var key := Eval(fuel, ps[0], env, h);
    PairsHead(ps, rest1);
    PairsHead(ps, rest2);
    if key.out.value != subject {
      CaseStopsAtFirstMatch(fuel, subject, ps[2..], rest1, rest2, d1, d2, loc, env, key.heap);
    }
  }

  lemma PairsHead(ps: seq<Node>, rest: seq<Node>)
    requires |ps| >= 2
    ensures (ps + rest)[0] == ps[0] && (ps + rest)[1] == ps[1] && (ps + rest)[2..] == ps[2..] + rest
  {
  }

  /** Every key of `ps` evaluates normally and none equals the subject. */
  ghost predicate NoKeyMatches(fuel: nat, subject: Value, ps: seq<Node>, env: nat, h: Heap)
    decreases |ps|
  {
    |ps| % 2 == 0 &&
    (ps != [] ==>
      var key := Eval(fuel, ps[0], env, h);
      key.out.Normal? && key.out.value != subject && NoKeyMatches(fuel, subject, ps[2..], env, key.heap))
  }

  /** The heap after evaluating every key of `ps`. */
  ghost function KeysHeap(fuel: nat, ps: seq<Node>, env: nat, h: Heap): Heap
    requires |ps| % 2 == 0
    decreases |ps|
  {
    if ps == [] then h else KeysHeap(fuel, ps[2..], env, Eval(fuel, ps[0], env, h).heap)
  }

  /**
   * When no key matches, the default is evaluated after all keys; without
   * a default (an even number of arguments after the subject) the scan
   * ends with the UnboundLocal error.
   */
  lemma {:induction false} CaseWithoutMatch(fuel: nat, subject: Value, ps: seq<Node>, d: Option<Node>, loc: Loc, env: nat, h: Heap)
    requires NoKeyMatches(fuel, subject, ps, env, h)
    ensures CaseScan(fuel, subject, ps, d, loc, env, h)
         == match d
            case Some(dn) => Eval(fuel, dn, env, KeysHeap(fuel, ps, env, h))
            case None => Res(Fail(Error(UnboundLocal, loc)), KeysHeap(fuel, ps, env, h))
    decreases |ps|
  {
    if ps != [] {
      CaseWithoutMatch(fuel, subject, ps[2..], d, loc, env, Eval(fuel, ps[0], env, h).heap);
    }
  }

  /**
   * The first key equal to the subject selects its branch: when no key of
   * `ps` matches and `key`, evaluated after them, does, the scan is the
   * branch `b` evaluated after `key`.
   */
  lemma {:induction false} CaseSelects(
    fuel: nat, subject: Value, ps: seq<Node>, key: Node, b: Node, rest: seq<Node>,
    d: Option<Node>, loc: Loc, env: nat, h: Heap)
    requires NoKeyMatches(fuel, subject, ps, env, h) && |rest| % 2 == 0
    requires Eval(fuel, key, env, KeysHeap(fuel, ps, env, h)).out == Normal(subject)
    ensures CaseScan(fuel, subject, ps + [key, b] + rest, d, loc, env, h)
         == Eval(fuel, b, env, Eval(fuel, key, env, KeysHeap(fuel, ps, env, h)).heap)
    decreases |ps|
  {
    if ps == [] {
      assert ps + [key, b] + rest == [key, b] + rest;
      SelectsHere(fuel, subject, key, b, rest, d, loc, env, h);
    } else {
      var k0 := Eval(fuel, ps[0], env, h);
      TailShape(ps, key, b, rest);
      SkipKey(fuel, subject, ps + [key, b] + rest, d, loc, env, h);
      CaseSelects(fuel, subject, ps[2..], key, b, rest, d, loc, env, k0.heap);
    }
  }

  /** A key equal to the subject selects its own branch. */
  lemma SelectsHere(fuel: nat, subject: Value, key: Node, b: Node, rest: seq<Node>, d: Option<Node>, loc: Loc, env: nat, h: Heap)
    requires |rest| % 2 == 0 && Eval(fuel, key, env, h).out == Normal(subject)
    ensures CaseScan(fuel, subject, [key, b] + rest, d, loc, env, h) == Eval(fuel, b, env, Eval(fuel, key, env, h).heap)
  {
    var t := [key, b] + rest;
    assert t != [] && t[0] == key && t[1] == b;
  }

  /** A key that evaluates to something other than the subject is passed over. */
  lemma SkipKey(fuel: nat, subject: Value, pairs: seq<Node>, d: Option<Node>, loc: Loc, env: nat, h: Heap)
    requires |pairs| >= 2 && |pairs| % 2 == 0
    requires var k := Eval(fuel, pairs[0], env, h); k.out.Normal? && k.out.value != subject
    ensures CaseScan(fuel, subject, pairs, d, loc, env, h)
         == CaseScan(fuel, subject, pairs[2..], d, loc, env, Eval(fuel, pairs[0], env, h).heap)
  {
  }

  /** The first pair of `ps + [key, b] + rest` is that of `ps`. */
  lemma TailShape(ps: seq<Node>, key: Node, b: Node, rest: seq<Node>)
    requires |ps| >= 2 && |ps| % 2 == 0 && |rest| % 2 == 0
    ensures var all := ps + [key, b] + rest;
      && |all| >= 2 && |all| % 2 == 0 && all[0] == ps[0]
      && all[2..] == ps[2..] + [key, b] + rest
  {
    var all := ps + [key, b] + rest;
    assert |all| == |ps| + 2 + |rest|;
    assert all[2..] == ps[2..] + [key, b] + rest;
  }

  /** With an odd number of arguments after the subject, the last one is the default. */
  lemma CaseSplitOdd(fuel: nat, sn: Node, pairs: seq<Node>, d: Node, loc: Loc, env: nat, h: Heap)
    requires |pairs| % 2 == 0 && Eval(fuel, sn, env, h).out.Normal?
    ensures var sv := Eval(fuel, sn, env, h);
      Case(fuel, [sn] + pairs + [d], loc, env, h) == CaseScan(fuel, sv.out.value, pairs, Some(d), loc, env, sv.heap)
  {
    OddArgs(sn, pairs, d);
  }

  /** The shape of `[sn] + pairs + [d]` as `case` takes it apart. */
  lemma OddArgs(sn: Node, pairs: seq<Node>, d: Node)
    requires |pairs| % 2 == 0
    ensures var args := [sn] + pairs + [d];
      && |args| >= 2 && args[0] == sn && |args[1..]| % 2 == 1
      && args[1..][..|args[1..]| - 1] == pairs && args[1..][|args[1..]| - 1] == d
  {
    var args := [sn] + pairs + [d];
    assert args[1..] == pairs + [d];
    assert |args[1..]| == |pairs| + 1;
    assert (pairs + [d])[..|pairs|] == pairs;
  }

  /** With an even number of arguments after the subject, there is no default. */
  lemma CaseSplitEven(fuel: nat, sn: Node, pairs: seq<Node>, loc: Loc, env: nat, h: Heap)
    requires pairs != [] && |pairs| % 2 == 0 && Eval(fuel, sn, env, h).out.Normal?
    ensures var sv := Eval(fuel, sn, env, h);
      Case(fuel, [sn] + pairs, loc, env, h) == CaseScan(fuel, sv.out.value, pairs, None, loc, env, sv.heap)
  {
    var args := [sn] + pairs;
    assert args[0] == sn && args[1..] == pairs;
  }

  /**
   * `(case subject k1 b1 ... key b ...)`: the subject is evaluated once,
   * and the first key equal to it selects its branch, whatever follows.
   */
  lemma CaseFirstMatch(fuel: nat, sn: Node, ps: seq<Node>, key: Node, b: Node, rest: seq<Node>, loc: Loc, env: nat, h: Heap)
    requires var sv := Eval(fuel, sn, env, h);
      && sv.out.Normal?
      && NoKeyMatches(fuel, sv.out.value, ps, env, sv.heap)
      && Eval(fuel, key, env, KeysHeap(fuel, ps, env, sv.heap)).out == sv.out
    ensures var sv := Eval(fuel, sn, env, h);
      Case(fuel, [sn] + ps + [key, b] + rest, loc, env, h)
      == Eval(fuel, b, env, Eval(fuel, key, env, KeysHeap(fuel, ps, env, sv.heap)).heap)
  {
    if |rest| % 2 == 1 {
      var r0 := rest[..|rest| - 1];
      var dl := rest[|rest| - 1];
      SplitLastBranch(sn, ps, key, b, rest);
      MatchWithDefault(fuel, sn, ps, key, b, r0, dl, loc, env, h);
    } else {
      BranchAssoc(sn, ps, key, b, rest);
      MatchWithoutDefault(fuel, sn, ps, key, b, rest, loc, env, h);
    }
  }

  lemma BranchAssoc(sn: Node, ps: seq<Node>, key: Node, b: Node, rest: seq<Node>)
    ensures [sn] + ps + [key, b] + rest == [sn] + (ps + [key, b] + rest)
  {
  }

  /** An odd tail ends in the default, after an even run of arguments. */
  lemma SplitLastBranch(sn: Node, ps: seq<Node>, key: Node, b: Node, rest: seq<Node>)
    requires |rest| % 2 == 1
    ensures [sn] + ps + [key, b] + rest == [sn] + (ps + [key, b] + rest[..|rest| - 1]) + [rest[|rest| - 1]]
    ensures |rest[..|rest| - 1]| % 2 == 0
  {
    assert rest == rest[..|rest| - 1] + [rest[|rest| - 1]];
  }

  /** Appending a keyed branch and an even tail keeps the pair count whole. */
  lemma EvenPairs(ps: seq<Node>, key: Node, b: Node, rest: seq<Node>)
    requires |ps| % 2 == 0 && |rest| % 2 == 0
    ensures |ps + [key, b] + rest| % 2 == 0 && ps + [key, b] + rest != []
  {
    assert |ps + [key, b] + rest| == |ps| + 2 + |rest|;
  }

  lemma MatchWithDefault(fuel: nat, sn: Node, ps: seq<Node>, key: Node, b: Node, r0: seq<Node>, dl: Node, loc: Loc, env: nat, h: Heap)
    requires var sv := Eval(fuel, sn, env, h);
      && sv.out.Normal? && |r0| % 2 == 0
      && NoKeyMatches(fuel, sv.out.value, ps, env, sv.heap)
      && Eval(fuel, key, env, KeysHeap(fuel, ps, env, sv.heap)).out == sv.out
    ensures var sv := Eval(fuel, sn, env, h);
      Case(fuel, [sn] + (ps + [key, b] + r0) + [dl], loc, env, h)
      == Eval(fuel, b, env, Eval(fuel, key, env, KeysHeap(fuel, ps, env, sv.heap)).heap)
  {
    var sv := Eval(fuel, sn, env, h);
    var pairs := ps + [key, b] + r0;
    EvenPairs(ps, key, b, r0);
    calc {
      Case(fuel, [sn] + pairs + [dl], loc, env, h);
    == { CaseSplitOdd(fuel, sn, pairs, dl, loc, env, h); }
      CaseScan(fuel, sv.out.value, pairs, Some(dl), loc, env, sv.heap);
    == { CaseSelects(fuel, sv.out.value, ps, key, b, r0, Some(dl), loc, env, sv.heap); }
      Eval(fuel, b, env, Eval(fuel, key, env, KeysHeap(fuel, ps, env, sv.heap)).heap);
    }
  }

  lemma MatchWithoutDefault(fuel: nat, sn: Node, ps: seq<Node>, key: Node, b: Node, rest: seq<Node>, loc: Loc, env: nat, h: Heap)
    requires var sv := Eval(fuel, sn, env, h);
      && sv.out.Normal? && |rest| % 2 == 0
      && NoKeyMatches(fuel, sv.out.value, ps, env, sv.heap)
      && Eval(fuel, key, env, KeysHeap(fuel, ps, env, sv.heap)).out == sv.out
    ensures var sv := Eval(fuel, sn, env, h);
      Case(fuel, [sn] + (ps + [key, b] + rest), loc, env, h)
      == Eval(fuel, b, env, Eval(fuel, key, env, KeysHeap(fuel, ps, env, sv.heap)).heap)
  {
    var sv := Eval(fuel, sn, env, h);
    var pairs := ps + [key, b] + rest;
    EvenPairs(ps, key, b, rest);
    calc {
      Case(fuel, [sn] + pairs, loc, env, h);
    == { CaseSplitEven(fuel, sn, pairs, loc, env, h); }
      CaseScan(fuel, sv.out.value, pairs, None, loc, env, sv.heap);
    == { CaseSelects(fuel, sv.out.value, ps, key, b, rest, None, loc, env, sv.heap); }
      Eval(fuel, b, env, Eval(fuel, key, env, KeysHeap(fuel, ps, env, sv.heap)).heap);
    }
  }

  /**
   * `(case subject k1 b1 ... kn bn)` where no key matches: an odd trailing
   * argument `d` is the default, evaluated after all keys; without one the
   * unbound local `default` is read.
   */
  lemma CaseNoMatch(fuel: nat, sn: Node, ps: seq<Node>, tail: seq<Node>, loc: Loc, env: nat, h: Heap)
    requires |tail| <= 1 && ps + tail != []
    requires var sv := Eval(fuel, sn, env, h);
      sv.out.Normal? && NoKeyMatches(fuel, sv.out.value, ps, env, sv.heap)
    ensures var sv := Eval(fuel, sn, env, h);
      var kh := KeysHeap(fuel, ps, env, sv.heap);
      Case(fuel, [sn] + ps + tail, loc, env, h)
      == if tail == [] then Res(Fail(Error(UnboundLocal, loc)), kh) else Eval(fuel, tail[0], env, kh)
  {
    if tail == [] {
      assert [sn] + ps + tail == [sn] + ps;
      CaseNoDefault(fuel, sn, ps, loc, env, h);
    } else {
      assert tail == [tail[0]];
      CaseDefault(fuel, sn, ps, tail[0], loc, env, h);
    }
  }

  lemma CaseNoDefault(fuel: nat, sn: Node, ps: seq<Node>, loc: Loc, env: nat, h: Heap)
    requires ps != []
    requires var sv := Eval(fuel, sn, env, h);
      sv.out.Normal? && NoKeyMatches(fuel, sv.out.value, ps, env, sv.heap)
    ensures var sv := Eval(fuel, sn, env, h);
      Case(fuel, [sn] + ps, loc, env, h) == Res(Fail(Error(UnboundLocal, loc)), KeysHeap(fuel, ps, env, sv.heap))
  {
    var sv := Eval(fuel, sn, env, h);
    CaseSplitEven(fuel, sn, ps, loc, env, h);
    CaseWithoutMatch(fuel, sv.out.value, ps, None, loc, env, sv.heap);
  }

  lemma CaseDefault(fuel: nat, sn: Node, ps: seq<Node>, d: Node, loc: Loc, env: nat, h: Heap)
    requires var sv := Eval(fuel, sn, env, h);
      sv.out.Normal? && NoKeyMatches(fuel, sv.out.value, ps, env, sv.heap)
    ensures var sv := Eval(fuel, sn, env, h);
      Case(fuel, [sn] + ps + [d], loc, env, h) == Eval(fuel, d, env, KeysHeap(fuel, ps, env, sv.heap))
  {
    var sv := Eval(fuel, sn, env, h);
    CaseSplitOdd(fuel, sn, ps, d, loc, env, h);
    CaseWithoutMatch(fuel, sv.out.value, ps, Some(d), loc, env, sv.heap);
  }
}

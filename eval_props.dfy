/**
 * Properties of the evaluator: literals, name lookup, vectors and maps,
 * the call protocol, closures, `defn`, `let`, `partial`, `apply`, `map`
 * and `case`.
 */
module EvalProperties {
  import opened Syntax
  import opened Values
  import opened Primitives
  import opened Evaluator

  // ---------------------------------------------------------------------
  // Literals and names

  /** A literal node evaluates to its payload, in any frame, leaving the heap alone. */
  lemma EvalLiteral(fuel: nat, n: Node, env: nat, h: Heap)
    requires fuel > 0 && (n.IntLit? || n.FloatLit? || n.StrLit?)
    ensures Eval(fuel, n, env, h)
         == Res(Normal(if n.IntLit? then VInt(n.i) else if n.FloatLit? then VFloat(n.text) else VStr(n.s)), h)
  {
  }

  /** Whatever the fuel, a literal's evaluation does not depend on the frame. */
  lemma {:induction false} LiteralsIgnoreFrame(fuel: nat, ns: seq<Node>, e1: nat, e2: nat, h: Heap)
    requires forall k :: 0 <= k < |ns| ==> ns[k].IntLit? || ns[k].FloatLit? || ns[k].StrLit?
    ensures EvalList(fuel, ns, e1, h) == EvalList(fuel, ns, e2, h)
    ensures EvalList(fuel, ns, e1, h).heap == h
  {
    if ns != [] {
      LiteralsIgnoreFrame(fuel, ns[1..], e1, e2, h);
    }
  }

  /** Lookup finds the binding of the first frame of the chain that has the name. */
  lemma {:induction false} LookupFound(h: Heap, env: nat, x: string, k: nat)
    requires k < |Chain(h, env)| && x in h.frames[Chain(h, env)[k]].bindings
    requires forall j :: 0 <= j < k ==> x !in h.frames[Chain(h, env)[j]].bindings
    ensures Lookup(h, env, x) == Some(h.frames[Chain(h, env)[k]].bindings[x])
    decreases env
  {
    var c := Chain(h, env);
    if k > 0 {
      assert x !in h.frames[c[0]].bindings;
      var p := h.frames[env].parent.value;
      assert c == [env] + Chain(h, p);
      forall j | 0 <= j < k - 1 ensures x !in h.frames[Chain(h, p)[j]].bindings {
        assert Chain(h, p)[j] == c[j + 1];
      }
      LookupFound(h, p, x, k - 1);
    }
  }

  /** Lookup finds nothing when no frame of the chain has the name. */
  lemma {:induction false} LookupMissing(h: Heap, env: nat, x: string)
    requires forall k :: 0 <= k < |Chain(h, env)| ==> x !in h.frames[Chain(h, env)[k]].bindings
    ensures Lookup(h, env, x) == None
    decreases env
  {
    if env < |h.frames| {
      assert Chain(h, env)[0] == env;
      match h.frames[env].parent
      case Some(p) =>
        if p < env {
          var c := Chain(h, env);
          assert c == [env] + Chain(h, p);
          forall j | 0 <= j < |Chain(h, p)| ensures x !in h.frames[Chain(h, p)[j]].bindings {
            assert Chain(h, p)[j] == c[j + 1];
          }
          LookupMissing(h, p, x);
        }
      case None =>
    }
  }

  /**
   * An identifier evaluates to its innermost binding; when no frame of the
   * chain binds it, evaluation fails with UnresolvedName at the node.
   */
  lemma EvalIdentifier(fuel: nat, x: string, loc: Loc, env: nat, h: Heap, k: nat)
    requires fuel > 0
    ensures Eval(fuel, Ident(x, loc), env, h).heap == h
    ensures (forall j :: 0 <= j < |Chain(h, env)| ==> x !in h.frames[Chain(h, env)[j]].bindings)
            ==> Eval(fuel, Ident(x, loc), env, h).out == Fail(Error(UnresolvedName, loc))
    ensures k < |Chain(h, env)| && x in h.frames[Chain(h, env)[k]].bindings
            && (forall j :: 0 <= j < k ==> x !in h.frames[Chain(h, env)[j]].bindings)
            ==> Eval(fuel, Ident(x, loc), env, h).out == Normal(h.frames[Chain(h, env)[k]].bindings[x])
  {
    var c := Chain(h, env);
    EvalIdent(fuel, x, loc, env, h);
    if forall j :: 0 <= j < |c| ==> x !in h.frames[c[j]].bindings {
      LookupMissing(h, env, x);
    }
    if k < |c| && x in h.frames[c[k]].bindings && (forall j :: 0 <= j < k ==> x !in h.frames[c[j]].bindings) {
      LookupFound(h, env, x, k);
    }
  }

  lemma EvalIdent(fuel: nat, x: string, loc: Loc, env: nat, h: Heap)
    requires fuel > 0
    ensures var v := Lookup(h, env, x);
      Eval(fuel, Ident(x, loc), env, h) == Res(if v.Some? then Normal(v.value) else Fail(Error(UnresolvedName, loc)), h)
  {
  }

  // ---------------------------------------------------------------------
  // Vectors and maps

  /**
   * Evaluating a list means evaluating its first i nodes, then node i in
   * the heap they leave.
   */
  lemma {:induction false} EvalListPrefix(fuel: nat, ns: seq<Node>, env: nat, h: Heap, i: nat)
    requires EvalList(fuel, ns, env, h).out.Normal? && i < |ns|
    ensures EvalList(fuel, ns[..i], env, h).out == Normal(EvalList(fuel, ns, env, h).out.value[..i])
    ensures Eval(fuel, ns[i], env, EvalList(fuel, ns[..i], env, h).heap).out
         == Normal(EvalList(fuel, ns, env, h).out.value[i])
    decreases |ns|
  {
    var first := Eval(fuel, ns[0], env, h);
    if i > 0 {
      EvalListPrefix(fuel, ns[1..], env, first.heap, i - 1);
      var vs := EvalList(fuel, ns, env, h).out.value;
      PrefixParts(vs, i);
      PrefixParts(ns, i);
    }
  }

  /** A nonempty prefix is the first element followed by a prefix of the tail. */
  lemma PrefixParts<T>(s: seq<T>, i: nat)
    requires 0 < i <= |s|
    ensures s[..i] == [s[0]] + s[1..][..i - 1]
    ensures s[..i][0] == s[0] && s[..i][1..] == s[1..][..i - 1]
    ensures i < |s| ==> s[1..][i - 1] == s[i]
  {
  }

  /**
   * A vector evaluates to a list of the same length whose element i is
   * the value of child i, evaluated after children 0..i-1.
   */
  lemma VecElements(fuel: nat, items: seq<Node>, loc: Loc, env: nat, h: Heap, i: nat)
    requires fuel > 0 && Eval(fuel, Vec(items, loc), env, h).out.Normal? && i < |items|
    ensures Eval(fuel, Vec(items, loc), env, h).out.value.VList?
    ensures |Eval(fuel, Vec(items, loc), env, h).out.value.elems| == |items|
    ensures Eval(fuel - 1, items[i], env, EvalList(fuel - 1, items[..i], env, h).heap).out
         == Normal(Eval(fuel, Vec(items, loc), env, h).out.value.elems[i])
  {
    EvalListPrefix(fuel - 1, items, env, h, i);
  }

  /** A key is in the built dict exactly when some pair has it, and maps to its last pair's value. */
  lemma {:induction false} MapOfLastWins<K, V>(ps: seq<(K, V)>, key: K)
    ensures key in MapOf(ps) <==> exists j :: 0 <= j < |ps| && ps[j].0 == key
    ensures forall j :: 0 <= j < |ps| && ps[j].0 == key && (forall l :: j < l < |ps| ==> ps[l].0 != key)
                        ==> MapOf(ps)[key] == ps[j].1
    decreases |ps|
  {
    if ps != [] {
      var init := ps[..|ps| - 1];
      MapOfLastWins(init, key);
      assert forall j :: 0 <= j < |init| ==> init[j] == ps[j];
    }
  }

  /**
   * A map node evaluates its children pairwise into a dict whose keys are
   * hashable; for each key the value of its LAST pair wins.
   */
  lemma MapNodeLastWins(fuel: nat, items: seq<Node>, loc: Loc, env: nat, h: Heap, key: Value)
    requires fuel > 0 && Eval(fuel, MapNode(items, loc), env, h).out.Normal?
    ensures var ps := EvalPairs(fuel - 1, items, loc, env, h).out.value;
      && 2 * |ps| == |items|
      && Eval(fuel, MapNode(items, loc), env, h).out.value == VMap(MapOf(ps))
      && (forall j :: 0 <= j < |ps| ==> Hashable(ps[j].0))
      && (key in MapOf(ps) <==> exists j :: 0 <= j < |ps| && ps[j].0 == key)
      && (forall j :: 0 <= j < |ps| && ps[j].0 == key && (forall l :: j < l < |ps| ==> ps[l].0 != key)
                     ==> MapOf(ps)[key] == ps[j].1)
  {
    MapOfLastWins(EvalPairs(fuel - 1, items, loc, env, h).out.value, key);
  }

  // ---------------------------------------------------------------------
  // Calls

  /** A callee that is not a function fails the call before any argument is looked at. */
  lemma CallOfNonFunction(fuel: nat, items: seq<Node>, loc: Loc, env: nat, h: Heap)
    requires fuel > 1 && items != []
    requires Eval(fuel - 1, items[0], env, h).out.Normal? && !IsFunction(Eval(fuel - 1, items[0], env, h).out.value)
    ensures Eval(fuel, Call(items, loc), env, h) == Res(Fail(Error(NotCallable, loc)), Eval(fuel - 1, items[0], env, h).heap)
  {
    var c := Eval(fuel - 1, items[0], env, h);
    assert Eval(fuel, Call(items, loc), env, h) == EvalCall(fuel - 1, items, loc, env, h);
    assert EvalCall(fuel - 1, items, loc, env, h) == Apply(fuel - 1, c.out.value, items[1..], loc, env, c.heap);
  }

  /**
   * A closure with n parameters evaluates only its first n argument nodes:
   * calls that agree on those give the same result, whatever follows.
   */
  lemma ClosureIgnoresExtraArgs(fuel: nat, items1: seq<Node>, items2: seq<Node>, loc: Loc, env: nat, h: Heap)
    requires fuel > 1 && items1 != [] && items2 != [] && items1[0] == items2[0]
    requires Eval(fuel - 1, items1[0], env, h).out.Normal?
    requires Eval(fuel - 1, items1[0], env, h).out.value.VClosure?
    requires var n := |Eval(fuel - 1, items1[0], env, h).out.value.params|;
      n < |items1| && n < |items2| && items1[..n + 1] == items2[..n + 1]
    ensures Eval(fuel, Call(items1, loc), env, h) == Eval(fuel, Call(items2, loc), env, h)
  {
    var c := Eval(fuel - 1, items1[0], env, h);
    var n := |c.out.value.params|;
    assert items1[1..][..n] == items1[..n + 1][1..] == items2[..n + 1][1..] == items2[1..][..n];
    assert Eval(fuel, Call(items1, loc), env, h) == EvalCall(fuel - 1, items1, loc, env, h)
        == Apply(fuel - 1, c.out.value, items1[1..], loc, env, c.heap)
        == CallClosure(fuel - 1, c.out.value, items1[1..], loc, env, c.heap);
    assert Eval(fuel, Call(items2, loc), env, h) == EvalCall(fuel - 1, items2, loc, env, h)
        == Apply(fuel - 1, c.out.value, items2[1..], loc, env, c.heap)
        == CallClosure(fuel - 1, c.out.value, items2[1..], loc, env, c.heap);
  }

  /**
   * Calling a closure: the body runs in a fresh frame whose parent is the
   * frame the closure was made in, and parameter i is bound to caller
   * argument i evaluated in the caller's frame (when no later parameter
   * has the same name).
   */
  lemma ClosureCallFrame(fuel: nat, c: Value, args: seq<Node>, loc: Loc, env: nat, h: Heap, i: nat)
    requires c.VClosure? && |c.params| <= |args|
    requires EvalList(fuel, args[..|c.params|], env, h).out.Normal?
    requires i < |c.params| && forall l :: i < l < |c.params| ==> c.params[l] != c.params[i]
    ensures var a := EvalList(fuel, args[..|c.params|], env, h);
      var f := |a.heap.frames|;
      var h2 := NewFrame(a.heap, MapOf(Zip(c.params, a.out.value)), c.env);
      && CallClosure(fuel, c, args, loc, env, h) == Eval(fuel, c.body, f, h2)
      && h2.frames[..f] == a.heap.frames
      && h2.frames[f].parent == (if c.env < f then Some(c.env) else None)
      && c.params[i] in h2.frames[f].bindings
      && Eval(fuel, args[i], env, EvalList(fuel, args[..i], env, h).heap).out
         == Normal(h2.frames[f].bindings[c.params[i]])
  {
    ClosureArgBound(fuel, c.params, args, env, h, i);
    ClosureCallBody(fuel, c, args, loc, env, h);
  }

  /** Parameter i is bound to the value of argument i, evaluated after the arguments before it. */
  lemma ClosureArgBound(fuel: nat, params: seq<string>, args: seq<Node>, env: nat, h: Heap, i: nat)
    requires |params| <= |args|
    requires EvalList(fuel, args[..|params|], env, h).out.Normal?
    requires i < |params| && forall l :: i < l < |params| ==> params[l] != params[i]
    ensures var a := EvalList(fuel, args[..|params|], env, h);
      var m := MapOf(Zip(params, a.out.value));
      && params[i] in m
      && Eval(fuel, args[i], env, EvalList(fuel, args[..i], env, h).heap).out == Normal(m[params[i]])
  {
    var n := |params|;
    var a := EvalList(fuel, args[..n], env, h);
    ZipLookup(params, a.out.value, i);
    EvalListPrefix(fuel, args[..n], env, h, i);
    assert args[..n][..i] == args[..i] && args[..n][i] == args[i];
  }

  /** In the dict of names zipped with values, a name that no later position repeats holds its own value. */
  lemma ZipLookup(params: seq<string>, vals: seq<Value>, i: nat)
    requires |params| == |vals| && i < |params|
    requires forall l :: i < l < |params| ==> params[l] != params[i]
    ensures params[i] in MapOf(Zip(params, vals)) && MapOf(Zip(params, vals))[params[i]] == vals[i]
  {
    var zs := Zip(params, vals);
    var key := params[i];
    assert zs[i] == (key, vals[i]);
    forall l | i < l < |zs| ensures zs[l].0 != key {
      assert zs[l] == (params[l], vals[l]);
    }
    MapOfLastWins(zs, key);
  }

  /** The body of a closure called with enough arguments runs in a new frame after the caller's. */
  lemma ClosureCallBody(fuel: nat, c: Value, args: seq<Node>, loc: Loc, env: nat, h: Heap)
    requires c.VClosure? && |c.params| <= |args|
    requires EvalList(fuel, args[..|c.params|], env, h).out.Normal?
    ensures var a := EvalList(fuel, args[..|c.params|], env, h);
      var f := |a.heap.frames|;
      var h2 := NewFrame(a.heap, MapOf(Zip(c.params, a.out.value)), c.env);
      && CallClosure(fuel, c, args, loc, env, h) == Eval(fuel, c.body, f, h2)
      && h2.frames[..f] == a.heap.frames
      && h2.frames[f].parent == (if c.env < f then Some(c.env) else None)
  {
  }

  /** A closure called with literal arguments behaves the same from every calling frame. */
  lemma ClosureIgnoresCallerFrame(fuel: nat, c: Value, args: seq<Node>, loc: Loc, e1: nat, e2: nat, h: Heap)
    requires c.VClosure?
    requires forall k :: 0 <= k < |args| ==> args[k].IntLit? || args[k].FloatLit? || args[k].StrLit?
    ensures CallClosure(fuel, c, args, loc, e1, h) == CallClosure(fuel, c, args, loc, e2, h)
  {
    var n := |c.params|;
    LiteralsIgnoreFrame(fuel, if n <= |args| then args[..n] else args, e1, e2, h);
  }

  /**
   * A partial application runs in the frame where `partial` was evaluated:
   * the calling frame plays no part, and the call is the remembered
   * function node applied to the fixed nodes followed by the caller's.
   */
  lemma PartialIgnoresCallerFrame(fuel: nat, p: Value, args: seq<Node>, loc: Loc, e1: nat, e2: nat, h: Heap)
    requires p.VPartial?
    ensures Apply(fuel, p, args, loc, e1, h) == Apply(fuel, p, args, loc, e2, h)
    ensures Apply(fuel, p, args, loc, e1, h) == Eval(fuel, Call([p.callee] + p.fixed + args, p.site), p.env, h)
  {
  }

  /** `(apply f [a b c])` is the call `(f a b c)` at the same place. */
  lemma ApplySplicesChildren(fuel: nat, f: Node, seqNode: Node, loc: Loc, env: nat, h: Heap)
    requires Children(seqNode).Some?
    ensures ApplyForm(fuel, [f, seqNode], loc, env, h) == Eval(fuel, Call([f] + seqNode.items, loc), env, h)
  {
  }

  lemma {:induction false} MapCallsPrefix(fuel: nat, f: Node, ns: seq<Node>, loc: Loc, env: nat, h: Heap, i: nat)
    requires MapCalls(fuel, f, ns, loc, env, h).out.Normal? && i < |ns|
    ensures MapCalls(fuel, f, ns[..i], loc, env, h).out == Normal(MapCalls(fuel, f, ns, loc, env, h).out.value[..i])
    ensures Eval(fuel, Call([f, ns[i]], loc), env, MapCalls(fuel, f, ns[..i], loc, env, h).heap).out
         == Normal(MapCalls(fuel, f, ns, loc, env, h).out.value[i])
    decreases |ns|
  {
    var first := Eval(fuel, Call([f, ns[0]], loc), env, h);
    if i > 0 {
      MapCallsPrefix(fuel, f, ns[1..], loc, env, first.heap, i - 1);
      var vs := MapCalls(fuel, f, ns, loc, env, h).out.value;
      PrefixParts(vs, i);
      PrefixParts(ns, i);
    }
  }

  /**
   * `(map f [a b c])` gives a list as long as the raw children, element i
   * being the call of f on child i (the function node is re-evaluated in
   * every call).
   */
  lemma MapFormElements(fuel: nat, f: Node, seqNode: Node, loc: Loc, env: nat, h: Heap, i: nat)
    requires Children(seqNode).Some? && MapForm(fuel, [f, seqNode], loc, env, h).out.Normal?
    requires i < |seqNode.items|
    ensures MapForm(fuel, [f, seqNode], loc, env, h).out.value.VList?
    ensures |MapForm(fuel, [f, seqNode], loc, env, h).out.value.elems| == |seqNode.items|
    ensures Eval(fuel, Call([f, seqNode.items[i]], loc), env, MapCalls(fuel, f, seqNode.items[..i], loc, env, h).heap).out
         == Normal(MapForm(fuel, [f, seqNode], loc, env, h).out.value.elems[i])
  {
    MapCallsPrefix(fuel, f, seqNode.items, loc, env, h, i);
  }
}

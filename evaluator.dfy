/**
 * The tree-walking evaluator of interpret.py: `evaluate` and its node
 * handlers, the call protocol, and every builtin of the `_builtins` table.
 *
 * Each function takes a recursion-depth bound `fuel`, the node(s) to
 * evaluate, the index `env` of the current frame and the heap, and returns
 * an outcome together with the heap after the step. Callables receive their
 * argument nodes unevaluated and decide themselves what to evaluate, and in
 * which frame.
 */
module Evaluator {
  import opened Syntax
  import opened Values
  import opened Primitives

  /** The keys `define_key` registers in `_builtins`. */
  const BuiltinNames: seq<string> :=
    ["defn", "fn", "partial", "apply", "map", "let", "case", "exit", "join", "inc", "dec", "+", "-", "*", "/"]

  /**
   * The `_builtins` table: each name bound to its native function. Every
   * entry passes the function test of `handle_call`, and no two names
   * share a function, so `==` tells builtins apart.
   */
  function Builtins(): (m: map<string, Value>)
    ensures forall x :: x in m <==> x in BuiltinNames
    ensures forall x :: x in m ==> IsFunction(m[x])
    ensures forall x, y :: x in m && y in m && m[x] == m[y] ==> x == y
  {
    map x | x in BuiltinNames :: VNative(x)
  }

  /**
   * Python's dict built pair by pair: each pair overwrites any earlier
   * binding of its key.
   */
  function MapOf<K, V>(ps: seq<(K, V)>): map<K, V> {
    if ps == [] then map[] else MapOf(ps[..|ps| - 1])[ps[|ps| - 1].0 := ps[|ps| - 1].1]
  }

  /** How a node's `value` behaves as a key of a scope dict. */
  datatype Key = Named(name: string) | Hidden | Unhashable

  /**
   * Identifier and string nodes give their text, number nodes a number key
   * that no identifier lookup can ever find, and bracketed nodes a list,
   * which Python cannot hash.
   */
  function NodeKey(n: Node): (k: Key)
    ensures k.Named? <==> (n.Ident? || n.StrLit?)
    ensures k.Unhashable? <==> Children(n).Some?
  {
    match n
    case Ident(x, _) => Named(x)
    case StrLit(s, _) => Named(s)
    case IntLit(_, _) => Hidden
    case FloatLit(_, _) => Hidden
    case _ => Unhashable
  }

  /**
   * The parameter check of `fn`/`defn`: `params['value']` must be a list of
   * identifier nodes. A string or identifier payload is iterated character
   * by character, which only an empty one survives; a number is not
   * iterable.
   */
  function ParamNames(params: Node): (r: Outcome<seq<string>>)
    ensures !r.Exit?
    ensures r.Normal? && Children(params).Some? ==>
      |r.value| == |params.items|
      && forall k :: 0 <= k < |params.items| ==> params.items[k] == Ident(r.value[k], params.items[k].loc)
    ensures Children(params).Some? && (forall k :: 0 <= k < |params.items| ==> params.items[k].Ident?) ==> r.Normal?
    ensures r.Fail? && r.error.kind == InvalidParameter ==>
      Children(params).Some? && exists k :: 0 <= k < |params.items| && !params.items[k].Ident?
  {
    match params
    case Ident(x, loc) => if x == "" then Normal([]) else Fail(Error(TypeError, loc))
    case StrLit(s, loc) => if s == "" then Normal([]) else Fail(Error(TypeError, loc))
    case IntLit(_, loc) => Fail(Error(TypeError, loc))
    case FloatLit(_, loc) => Fail(Error(TypeError, loc))
    case _ => IdentNames(params.items)
  }

  function IdentNames(ns: seq<Node>): (r: Outcome<seq<string>>)
    ensures !r.Exit?
    ensures r.Normal? <==> forall k :: 0 <= k < |ns| ==> ns[k].Ident?
    ensures r.Normal? ==> |r.value| == |ns| && forall k :: 0 <= k < |ns| ==> ns[k] == Ident(r.value[k], ns[k].loc)
    ensures r.Fail? ==> r.error.kind == InvalidParameter
  {
    if ns == [] then Normal([])
    else if !ns[0].Ident? then Fail(Error(InvalidParameter, ns[0].loc))
    else
      var rest := IdentNames(ns[1..]);
      if rest.Normal? then Normal([ns[0].name] + rest.value) else rest
  }

  /** Pairs names with values, position by position. */
  function Zip<K, V>(ks: seq<K>, vs: seq<V>): (r: seq<(K, V)>)
    requires |ks| == |vs|
    ensures |r| == |ks| && forall k :: 0 <= k < |ks| ==> r[k] == (ks[k], vs[k])
  {
    if ks == [] then [] else [(ks[0], vs[0])] + Zip(ks[1..], vs[1..])
  }

  // ---------------------------------------------------------------------
  // evaluate and the node handlers

  /** `evaluate(node, context)`: dispatch on the node kind. */
  function Eval(fuel: nat, n: Node, env: nat, h: Heap): (r: Res<Value>)
    decreases fuel, 0, 0
    ensures Grows(h, r.heap)
  {
    if fuel == 0 then Res(Fail(Error(OutOfFuel, n.loc)), h)
    else match n
      case IntLit(i, _) => Res(Normal(VInt(i)), h)
      case FloatLit(t, _) => Res(Normal(VFloat(t)), h)
      case StrLit(s, _) => Res(Normal(VStr(s)), h)
      case Ident(x, loc) =>
        (match Lookup(h, env, x)
         case Some(v) => Res(Normal(v), h)
         case None => Res(Fail(Error(UnresolvedName, loc)), h))
      case Vec(items, _) =>
        var r := EvalList(fuel - 1, items, env, h);
        Res(if r.out.Normal? then Normal(VList(r.out.value)) else Abrupt(r.out), r.heap)
      case MapNode(items, loc) =>
        var r := EvalPairs(fuel - 1, items, loc, env, h);
        Res(if r.out.Normal? then Normal(VMap(MapOf(r.out.value))) else Abrupt(r.out), r.heap)
      case Call(items, loc) => EvalCall(fuel - 1, items, loc, env, h)
  }

  /** Evaluates nodes left to right, each fully before the next. */
  function EvalList(fuel: nat, ns: seq<Node>, env: nat, h: Heap): (r: Res<seq<Value>>)
    decreases fuel, 1, |ns|
    ensures Grows(h, r.heap)
    ensures r.out.Normal? ==> |r.out.value| == |ns|
  {
    if ns == [] then Res(Normal([]), h)
    else
      var first := Eval(fuel, ns[0], env, h);
      if !first.out.Normal? then Res(Abrupt(first.out), first.heap)
      else
        var rest := EvalList(fuel, ns[1..], env, first.heap);
        Res(if rest.out.Normal? then Normal([first.out.value] + rest.out.value) else rest.out, rest.heap)
  }

  /**
   * The comprehension of `handle_map`: for each pair the key, then the
   * value is evaluated, then the key is hashed. An odd last key runs off
   * the end of the list.
   */
  function EvalPairs(fuel: nat, ns: seq<Node>, loc: Loc, env: nat, h: Heap): (r: Res<seq<(Value, Value)>>)
    decreases fuel, 1, |ns|
    ensures Grows(h, r.heap)
    ensures r.out.Normal? ==> 2 * |r.out.value| == |ns|
    ensures r.out.Normal? ==> forall j :: 0 <= j < |r.out.value| ==> Hashable(r.out.value[j].0)
  {
    if ns == [] then Res(Normal([]), h)
    else
      var k := Eval(fuel, ns[0], env, h);
      if !k.out.Normal? then Res(Abrupt(k.out), k.heap)
      else if |ns| == 1 then Res(Fail(Error(IndexError, loc)), k.heap)
      else
        var v := Eval(fuel, ns[1], env, k.heap);
        if !v.out.Normal? then Res(Abrupt(v.out), v.heap)
        else if !Hashable(k.out.value) then Res(Fail(Error(TypeError, loc)), v.heap)
        else
          var rest := EvalPairs(fuel, ns[2..], loc, env, v.heap);
          Res(if rest.out.Normal? then Normal([(k.out.value, v.out.value)] + rest.out.value) else rest.out,
              rest.heap)
  }

  /**
   * `handle_call`: unpack the callee, evaluate it, refuse a non-function,
   * and hand the callable the remaining nodes unevaluated.
   */
  function EvalCall(fuel: nat, items: seq<Node>, loc: Loc, env: nat, h: Heap): (r: Res<Value>)
    decreases fuel, 5, 0
    ensures Grows(h, r.heap)
  {
    if items == [] then Res(Fail(Error(UnpackError, loc)), h)
    else
      var callee := Eval(fuel, items[0], env, h);
      if !callee.out.Normal? then Res(Abrupt(callee.out), callee.heap)
      else Apply(fuel, callee.out.value, items[1..], loc, env, callee.heap)
  }

  /** `fn(args, node, context)` for each kind of function value. */
  function Apply(fuel: nat, f: Value, args: seq<Node>, loc: Loc, env: nat, h: Heap): (r: Res<Value>)
    decreases fuel, 4, 0
    ensures Grows(h, r.heap)
  {
    match f
    case VClosure(_, _, _, _) => CallClosure(fuel, f, args, loc, env, h)
    case VPartial(_, callee, fixed, site, penv) => Eval(fuel, Call([callee] + fixed + args, site), penv, h)
    case VNative(name) => ApplyNative(fuel, name, args, loc, env, h)
    case _ => Res(Fail(Error(NotCallable, loc)), h)
  }

  /**
   * The inner `f` of `fn`/`defn`: parameter i is bound to caller argument i
   * evaluated in the caller's frame, and the body runs in a fresh frame
   * whose parent is the frame the closure was made in.
   */
  function CallClosure(fuel: nat, c: Value, args: seq<Node>, loc: Loc, env: nat, h: Heap): (r: Res<Value>)
    requires c.VClosure?
    decreases fuel, 2, 0
    ensures Grows(h, r.heap)
  {
    var n := |c.params|;
    var a := EvalList(fuel, if n <= |args| then args[..n] else args, env, h);
    if !a.out.Normal? then Res(Abrupt(a.out), a.heap)
    else if |args| < n then Res(Fail(Error(IndexError, loc)), a.heap)
    else
      var h2 := NewFrame(a.heap, MapOf(Zip(c.params, a.out.value)), c.env);
      Eval(fuel, c.body, |a.heap.frames|, h2)
  }

  /** Dispatch over the builtin table. */
  function ApplyNative(fuel: nat, name: string, args: seq<Node>, loc: Loc, env: nat, h: Heap): (r: Res<Value>)
    decreases fuel, 3, 0
    ensures Grows(h, r.heap)
  {
    match name
    case "defn" => Defn(fuel, args, loc, env, h)
    case "fn" => Fn(fuel, args, loc, env, h)
    case "partial" => Partial(fuel, args, loc, env, h)
    case "apply" => ApplyForm(fuel, args, loc, env, h)
    case "map" => MapForm(fuel, args, loc, env, h)
    case "let" => Let(fuel, args, loc, env, h)
    case "case" => Case(fuel, args, loc, env, h)
    case "exit" => ExitForm(fuel, args, loc, env, h)
    case "join" => JoinForm(fuel, args, loc, env, h)
    case "inc" => IncDec(fuel, args, 1, loc, env, h)
    case "dec" => IncDec(fuel, args, -1, loc, env, h)
    case "+" => Plus(fuel, args, loc, env, h)
    case "-" => Minus(fuel, args, loc, env, h)
    case "*" => Times(fuel, args, loc, env, h)
    case "/" => Div(fuel, args, loc, env, h)
    case _ => Res(Fail(Error(Unsupported, loc)), h)
  }

  // ---------------------------------------------------------------------
  // The builtins

  /** The arity check followed by Python's unpacking into `k` names. */
  function ArityThenUnpack(n: nat, k: nat, loc: Loc): (r: Option<Error>)
    ensures r.None? <==> n == k
  {
    if !AssertArity(n, None, Some(k), None) then Some(Error(ArityError, loc))
    else if n != k then Some(Error(UnpackError, loc))
    else None
  }

  function ArityCheck(n: nat, exact: Option<nat>, min: Option<nat>, loc: Loc): Option<Error> {
    if AssertArity(n, exact, min, None) then None else Some(Error(ArityError, loc))
  }

  /**
   * `defn`: exactly name, params, body; writes a closure over the current
   * frame into that frame under the name, and returns nothing.
   */
  function Defn(fuel: nat, args: seq<Node>, loc: Loc, env: nat, h: Heap): (r: Res<Value>)
    decreases fuel, 2, 0
    ensures Grows(h, r.heap)
  {
    match ArityThenUnpack(|args|, 3, loc)
    case Some(e) => Res(Fail(e), h)
    case None =>
      var names := ParamNames(args[1]);
      if !names.Normal? then Res(Abrupt(names), h)
      else
        var c := VClosure(h.nextId, names.value, args[2], env);
        var h1 := h.(nextId := h.nextId + 1);
        match NodeKey(args[0])
        case Named(x) => Res(Normal(VNone), Bind(h1, env, x, c))
        case Hidden => Res(Normal(VNone), h1)
        case Unhashable => Res(Fail(Error(TypeError, loc)), h1)
  }

  /** `fn`: exactly params, body; a closure over the current frame. */
  function Fn(fuel: nat, args: seq<Node>, loc: Loc, env: nat, h: Heap): (r: Res<Value>)
    decreases fuel, 2, 0
    ensures Grows(h, r.heap)
  {
    match ArityThenUnpack(|args|, 2, loc)
    case Some(e) => Res(Fail(e), h)
    case None =>
      var names := ParamNames(args[0]);
      if !names.Normal? then Res(Abrupt(names), h)
      else Res(Normal(VClosure(h.nextId, names.value, args[1], env)), h.(nextId := h.nextId + 1))
  }

  /** `partial`: remembers the function node, the fixed nodes and the frame. */
  function Partial(fuel: nat, args: seq<Node>, loc: Loc, env: nat, h: Heap): (r: Res<Value>)
    decreases fuel, 2, 0
    ensures Grows(h, r.heap)
  {
    match ArityCheck(|args|, None, Some(2), loc)
    case Some(e) => Res(Fail(e), h)
    case None => Res(Normal(VPartial(h.nextId, args[0], args[1..], loc, env)), h.(nextId := h.nextId + 1))
  }

  /** `apply`: calls the function node with the raw children of the second node. */
  function ApplyForm(fuel: nat, args: seq<Node>, loc: Loc, env: nat, h: Heap): (r: Res<Value>)
    decreases fuel, 2, 0
    ensures Grows(h, r.heap)
  {
    match ArityCheck(|args|, Some(2), None, loc)
    case Some(e) => Res(Fail(e), h)
    case None =>
      match Children(args[1])
      case Some(items) => Eval(fuel, Call([args[0]] + items, loc), env, h)
      case None => Res(Fail(Error(TypeError, loc)), h)
  }

  /** `map`: one call of the function node per raw child of the second node. */
  function MapForm(fuel: nat, args: seq<Node>, loc: Loc, env: nat, h: Heap): (r: Res<Value>)
    decreases fuel, 2, 0
    ensures Grows(h, r.heap)
  {
    match ArityCheck(|args|, Some(2), None, loc)
    case Some(e) => Res(Fail(e), h)
    case None =>
      match args[1]
      case Ident(x, _) => Res(if x == "" then Normal(VList([])) else Fail(Error(Unsupported, loc)), h)
      case StrLit(s, _) => Res(if s == "" then Normal(VList([])) else Fail(Error(Unsupported, loc)), h)
      case IntLit(_, _) => Res(Fail(Error(TypeError, loc)), h)
      case FloatLit(_, _) => Res(Fail(Error(TypeError, loc)), h)
      case _ =>
        var r := MapCalls(fuel, args[0], args[1].items, loc, env, h);
        Res(if r.out.Normal? then Normal(VList(r.out.value)) else Abrupt(r.out), r.heap)
  }

  function MapCalls(fuel: nat, f: Node, ns: seq<Node>, loc: Loc, env: nat, h: Heap): (r: Res<seq<Value>>)
    decreases fuel, 1, |ns|
    ensures Grows(h, r.heap)
    ensures r.out.Normal? ==> |r.out.value| == |ns|
  {
    if ns == [] then Res(Normal([]), h)
    else
      var first := Eval(fuel, Call([f, ns[0]], loc), env, h);
      if !first.out.Normal? then Res(Abrupt(first.out), first.heap)
      else
        var rest := MapCalls(fuel, f, ns[1..], loc, env, first.heap);
        Res(if rest.out.Normal? then Normal([first.out.value] + rest.out.value) else rest.out, rest.heap)
  }

  /**
   * `let`: every binding expression is evaluated in the current frame,
   * then the body in one new frame holding all bindings.
   */
  function Let(fuel: nat, args: seq<Node>, loc: Loc, env: nat, h: Heap): (r: Res<Value>)
    decreases fuel, 2, 0
    ensures Grows(h, r.heap)
  {
    match ArityThenUnpack(|args|, 2, loc)
    case Some(e) => Res(Fail(e), h)
    case None =>
      match args[0]
      case Ident(x, _) =>
        if x == "" then Eval(fuel, args[1], |h.frames|, NewFrame(h, map[], env))
        else Res(Fail(Error(TypeError, loc)), h)
      case StrLit(s, _) =>
        if s == "" then Eval(fuel, args[1], |h.frames|, NewFrame(h, map[], env))
        else Res(Fail(Error(TypeError, loc)), h)
      case IntLit(_, _) => Res(Fail(Error(TypeError, loc)), h)
      case FloatLit(_, _) => Res(Fail(Error(TypeError, loc)), h)
      case _ =>
        var b := LetPairs(fuel, args[0].items, loc, env, h);
        if !b.out.Normal? then Res(Abrupt(b.out), b.heap)
        else Eval(fuel, args[1], |b.heap.frames|, NewFrame(b.heap, MapOf(b.out.value), env))
  }

  /**
   * The comprehension of `let`: key node, then value expression (running
   * off an odd list), then the insertion, which hashes the key.
   */
  function LetPairs(fuel: nat, ns: seq<Node>, loc: Loc, env: nat, h: Heap): (r: Res<seq<(string, Value)>>)
    decreases fuel, 1, |ns|
    ensures Grows(h, r.heap)
  {
    if ns == [] then Res(Normal([]), h)
    else if |ns| == 1 then Res(Fail(Error(IndexError, loc)), h)
    else
      var v := Eval(fuel, ns[1], env, h);
      if !v.out.Normal? then Res(Abrupt(v.out), v.heap)
      else match NodeKey(ns[0])
        case Unhashable => Res(Fail(Error(TypeError, loc)), v.heap)
        case Hidden => LetPairs(fuel, ns[2..], loc, env, v.heap)
        case Named(x) =>
          var rest := LetPairs(fuel, ns[2..], loc, env, v.heap);
          Res(if rest.out.Normal? then Normal([(x, v.out.value)] + rest.out.value) else rest.out, rest.heap)
  }

  /**
   * `case`: the subject is evaluated once; with an odd number of remaining
   * arguments the last is the default.
   */
  function Case(fuel: nat, args: seq<Node>, loc: Loc, env: nat, h: Heap): (r: Res<Value>)
    decreases fuel, 2, 0
    ensures Grows(h, r.heap)
  {
    match ArityCheck(|args|, None, Some(2), loc)
    case Some(e) => Res(Fail(e), h)
    case None =>
      var subject := Eval(fuel, args[0], env, h);
      if !subject.out.Normal? then Res(Abrupt(subject.out), subject.heap)
      else
        var pairs := args[1..];
        if |pairs| % 2 == 1 then
          CaseScan(fuel, subject.out.value, pairs[..|pairs| - 1], Some(pairs[|pairs| - 1]), loc, env, subject.heap)
        else CaseScan(fuel, subject.out.value, pairs, None, loc, env, subject.heap)
  }

  /**
   * The scan of `case`: keys in order, the first key equal to the subject
   * selects its branch; after the last key the default (if any) is
   * evaluated, and without one the unbound local `default` is read.
   */
  function CaseScan(fuel: nat, subject: Value, pairs: seq<Node>, default: Option<Node>, loc: Loc, env: nat, h: Heap)
    : (r: Res<Value>)
    requires |pairs| % 2 == 0
    decreases fuel, 1, |pairs|
    ensures Grows(h, r.heap)
  {
    if pairs == [] then
      match default
      case Some(d) => Eval(fuel, d, env, h)
      case None => Res(Fail(Error(UnboundLocal, loc)), h)
    else
      var key := Eval(fuel, pairs[0], env, h);
      if !key.out.Normal? then Res(Abrupt(key.out), key.heap)
      else if key.out.value == subject then Eval(fuel, pairs[1], env, key.heap)
      else CaseScan(fuel, subject, pairs[2..], default, loc, env, key.heap)
  }

  /** `exit`: unwinds with the value of its one argument. */
  function ExitForm(fuel: nat, args: seq<Node>, loc: Loc, env: nat, h: Heap): (r: Res<Value>)
    decreases fuel, 2, 0
    ensures Grows(h, r.heap)
  {
    match ArityCheck(|args|, Some(1), None, loc)
    case Some(e) => Res(Fail(e), h)
    case None =>
      var v := Eval(fuel, args[0], env, h);
      Res(if v.out.Normal? then Exit(v.out.value) else v.out, v.heap)
  }

  /** `join`: the separator must be a string; each further value is rendered by `str()`. */
  function JoinForm(fuel: nat, args: seq<Node>, loc: Loc, env: nat, h: Heap): (r: Res<Value>)
    decreases fuel, 2, 0
    ensures Grows(h, r.heap)
  {
    match ArityCheck(|args|, None, Some(1), loc)
    case Some(e) => Res(Fail(e), h)
    case None =>
      var sep := Eval(fuel, args[0], env, h);
      if !sep.out.Normal? then Res(Abrupt(sep.out), sep.heap)
      else if !sep.out.value.VStr? then Res(Fail(Error(TypeError, loc)), sep.heap)
      else
        var parts := JoinParts(fuel, args[1..], loc, env, sep.heap);
        Res(if parts.out.Normal? then Normal(VStr(Join(sep.out.value.s, parts.out.value))) else Abrupt(parts.out),
            parts.heap)
  }

  function JoinParts(fuel: nat, ns: seq<Node>, loc: Loc, env: nat, h: Heap): (r: Res<seq<string>>)
    decreases fuel, 1, |ns|
    ensures Grows(h, r.heap)
    ensures r.out.Normal? ==> |r.out.value| == |ns|
  {
    if ns == [] then Res(Normal([]), h)
    else
      var first := Eval(fuel, ns[0], env, h);
      if !first.out.Normal? then Res(Abrupt(first.out), first.heap)
      else match Render(first.out.value)
        case None => Res(Fail(Error(Unsupported, loc)), first.heap)
        case Some(s) =>
          var rest := JoinParts(fuel, ns[1..], loc, env, first.heap);
          Res(if rest.out.Normal? then Normal([s] + rest.out.value) else rest.out, rest.heap)
  }

  /** `inc` (`d == 1`) and `dec` (`d == -1`). */
  function IncDec(fuel: nat, args: seq<Node>, d: int, loc: Loc, env: nat, h: Heap): (r: Res<Value>)
    decreases fuel, 2, 0
    ensures Grows(h, r.heap)
  {
    match ArityCheck(|args|, Some(1), None, loc)
    case Some(e) => Res(Fail(e), h)
    case None =>
      var v := Eval(fuel, args[0], env, h);
      Res(if v.out.Normal? then AddInt(v.out.value, d, loc) else v.out, v.heap)
  }

  /** `+`: evaluates every argument, then sums from 0. */
  function Plus(fuel: nat, args: seq<Node>, loc: Loc, env: nat, h: Heap): (r: Res<Value>)
    decreases fuel, 2, 0
    ensures Grows(h, r.heap)
  {
    var vs := EvalList(fuel, args, env, h);
    Res(if vs.out.Normal? then Sum(vs.out.value, loc) else Abrupt(vs.out), vs.heap)
  }

  /** `-`: exactly two arguments, left minus right. */
  function Minus(fuel: nat, args: seq<Node>, loc: Loc, env: nat, h: Heap): (r: Res<Value>)
    decreases fuel, 2, 0
    ensures Grows(h, r.heap)
  {
    match ArityCheck(|args|, Some(2), None, loc)
    case Some(e) => Res(Fail(e), h)
    case None =>
      var vs := EvalList(fuel, args, env, h);
      Res(if vs.out.Normal? then Subtract(vs.out.value[0], vs.out.value[1], loc) else Abrupt(vs.out), vs.heap)
  }

  /** `*`: at least one argument; a left fold from 1 that evaluates each argument just before using it. */
  function Times(fuel: nat, args: seq<Node>, loc: Loc, env: nat, h: Heap): (r: Res<Value>)
    decreases fuel, 2, 0
    ensures Grows(h, r.heap)
  {
    match ArityCheck(|args|, None, Some(1), loc)
    case Some(e) => Res(Fail(e), h)
    case None => Product(fuel, VInt(1), args, loc, env, h)
  }

  function Product(fuel: nat, acc: Value, ns: seq<Node>, loc: Loc, env: nat, h: Heap): (r: Res<Value>)
    decreases fuel, 1, |ns|
    ensures Grows(h, r.heap)
  {
    if ns == [] then Res(Normal(acc), h)
    else
      var x := Eval(fuel, ns[0], env, h);
      if !x.out.Normal? then x
      else
        var p := Multiply(acc, x.out.value, loc);
        if p.Normal? then Product(fuel, p.value, ns[1..], loc, env, x.heap) else Res(p, x.heap)
  }

  /** `/`: exactly two arguments, both evaluated before the zero test. */
  function Div(fuel: nat, args: seq<Node>, loc: Loc, env: nat, h: Heap): (r: Res<Value>)
    decreases fuel, 2, 0
    ensures Grows(h, r.heap)
  {
    match ArityCheck(|args|, Some(2), None, loc)
    case Some(e) => Res(Fail(e), h)
    case None =>
      var vs := EvalList(fuel, args, env, h);
      Res(if vs.out.Normal? then Divide(vs.out.value[0], vs.out.value[1], loc) else Abrupt(vs.out), vs.heap)
  }
}

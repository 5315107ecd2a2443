/**
 * Runtime values, scope frames and the outcome of an evaluation step.
 *
 * A Python context is a `{scope, parent}` dict whose `scope` dict may be
 * written in place by `defn` and is shared by every closure that captured
 * it. Here every scope dict is a `Frame` in a `Heap`, and a context is the
 * index of its frame, so sharing and in-place update are explicit.
 */
module Values {
  import opened Syntax

  /**
   * `VClosure` is a function built by `fn`/`defn`, `VPartial` one built by
   * `partial`, `VNative` a builtin, named by its key in the builtin table.
   * Closures and partials carry the id of their allocation, so that two
   * of them are `==` exactly when they are the same Python function object.
   * `VNone` is the value of a `defn` form.
   */
  datatype Value =
    | VInt(i: int)
    | VFloat(text: string)
    | VStr(s: string)
    | VNone
    | VList(elems: seq<Value>)
    | VMap(entries: map<Value, Value>)
    | VClosure(id: nat, params: seq<string>, body: Node, env: nat)
    | VPartial(id: nat, callee: Node, fixed: seq<Node>, site: Loc, env: nat)
    | VNative(name: string)

  /** What the source's `type(fn).__name__ == 'function'` test accepts. */
  predicate IsFunction(v: Value) {
    v.VClosure? || v.VPartial? || v.VNative?
  }

  /** Python refuses lists and dicts as dict keys. */
  predicate Hashable(v: Value) {
    !v.VList? && !v.VMap?
  }

  /** A scope dict and the index of the enclosing frame, if any. */
  datatype Frame = Frame(bindings: map<string, Value>, parent: Option<nat>)

  /** All frames allocated so far, and the id the next function value gets. */
  datatype Heap = Heap(frames: seq<Frame>, nextId: nat)

  /** Every parent link points to a frame allocated earlier. */
  ghost predicate WfHeap(h: Heap) {
    forall i :: 0 <= i < |h.frames| && h.frames[i].parent.Some? ==> h.frames[i].parent.value < i
  }

  /**
   * `h2` extends `h1`: frames are only appended, existing frames keep their
   * parent and at least their names, and ids are never reused.
   */
  ghost predicate Grows(h1: Heap, h2: Heap) {
    && |h1.frames| <= |h2.frames|
    && h1.nextId <= h2.nextId
    && (forall i :: 0 <= i < |h1.frames| ==>
          h2.frames[i].parent == h1.frames[i].parent
          && h1.frames[i].bindings.Keys <= h2.frames[i].bindings.Keys)
    && (WfHeap(h1) ==> WfHeap(h2))
  }

  lemma GrowsTrans(h1: Heap, h2: Heap, h3: Heap)
    requires Grows(h1, h2) && Grows(h2, h3)
    ensures Grows(h1, h3)
  {
  }

  /** The frames a lookup from `env` visits, innermost first. */
  function Chain(h: Heap, env: nat): (r: seq<nat>)
    decreases env
    ensures forall k :: 0 <= k < |r| ==> r[k] < |h.frames|
    ensures |r| > 0 ==> r[0] == env
    ensures forall k :: 0 <= k < |r| - 1 ==> r[k + 1] < r[k] && h.frames[r[k]].parent == Some(r[k + 1])
  {
    if env >= |h.frames| then []
    else match h.frames[env].parent
      case Some(p) => if p < env then [env] + Chain(h, p) else [env]
      case None => [env]
  }

  /**
   * Name lookup (interpret.py, `handle_identifier`): the binding of the
   * innermost frame along the parent chain that has the name. An index
   * outside the heap, or a parent link that does not point to an earlier
   * frame, ends the chain; neither arises in a heap the evaluator built.
   */
  function Lookup(h: Heap, env: nat, name: string): Option<Value>
    decreases env
  {
    if env >= |h.frames| then None
    else if name in h.frames[env].bindings then Some(h.frames[env].bindings[name])
    else match h.frames[env].parent
      case Some(p) => if p < env then Lookup(h, p, name) else None
      case None => None
  }

  /**
   * Allocates a frame at index `|h.frames|`. A parent index outside the
   * heap would end every lookup chain at once, and is stored as no parent.
   */
  function NewFrame(h: Heap, bindings: map<string, Value>, parent: nat): (r: Heap)
    ensures |r.frames| == |h.frames| + 1 && r.frames[..|h.frames|] == h.frames && r.nextId == h.nextId
    ensures r.frames[|h.frames|].bindings == bindings
    ensures r.frames[|h.frames|].parent == if parent < |h.frames| then Some(parent) else None
    ensures Grows(h, r)
  {
    Heap(h.frames + [Frame(bindings, if parent < |h.frames| then Some(parent) else None)], h.nextId)
  }

  /** `context['scope'][name] = v`: overwrites one binding of one frame in place. */
  function Bind(h: Heap, env: nat, name: string, v: Value): (r: Heap)
    ensures |r.frames| == |h.frames| && r.nextId == h.nextId
    ensures forall i :: 0 <= i < |h.frames| && i != env ==> r.frames[i] == h.frames[i]
    ensures env < |h.frames| ==>
      r.frames[env] == Frame(h.frames[env].bindings[name := v], h.frames[env].parent)
    ensures Grows(h, r)
  {
    if env < |h.frames| then
      Heap(h.frames[env := Frame(h.frames[env].bindings[name := v], h.frames[env].parent)], h.nextId)
    else h
  }

  /** The kinds of failure the source raises, named by cause. */
  datatype ErrorKind =
    | ArityError        // assert_arity rejected the argument count
    | UnpackError       // Python tuple unpacking of the wrong number of items
    | UnresolvedName    // no frame along the chain binds the identifier
    | NotCallable       // the callee of a call is not a function
    | InvalidParameter  // a parameter node is not an identifier
    | TypeError         // Python refused the operation on these operand types
    | IndexError        // a list index past the end (missing caller argument, odd pairs)
    | UnboundLocal      // `case` read `default`, or `interpret` read `result`, before assignment
    | DivisionByZero
    | Unsupported       // a floating point result, or `str()` of a non-scalar
    | OutOfFuel         // the recursion-depth bound was reached

  datatype Error = Error(kind: ErrorKind, loc: Loc)

  /**
   * A step either returns normally, unwinds with `exit`'s value (the
   * source's InterpreterReturn exception), or fails.
   */
  datatype Outcome<+T> = Normal(value: T) | Exit(result: Value) | Fail(error: Error)

  /** The result of one evaluation function: its outcome and the heap after it. */
  datatype Res<+T> = Res(out: Outcome<T>, heap: Heap)

  /** Re-types an abnormal outcome. */
  function Abrupt<T, U>(o: Outcome<T>): (r: Outcome<U>)
    requires !o.Normal?
    ensures r.Exit? == o.Exit? && (r.Exit? ==> r.result == o.result)
    ensures r.Fail? ==> r.error == o.error
  {
    match o
    case Exit(v) => Exit(v)
    case Fail(e) => Fail(e)
  }
}

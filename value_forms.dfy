/**
 * What the value-computing builtins (`inc`, `dec`, `+`, `-`, `*`, `/` and
 * `join`) give, stated against the evaluation of their arguments.
 */
module ValueFormProperties {
  import opened Syntax
  import opened Values
  import opened Primitives
  import opened Evaluator

  /** The first value and the rest of a successful list evaluation. */
  lemma EvalListHead(fuel: nat, ns: seq<Node>, env: nat, h: Heap)
    requires ns != [] && EvalList(fuel, ns, env, h).out.Normal?
    ensures var first := Eval(fuel, ns[0], env, h);
      var rest := EvalList(fuel, ns[1..], env, first.heap);
      && first.out.Normal? && rest.out.Normal?
      && EvalList(fuel, ns, env, h).out.value == [first.out.value] + rest.out.value
      && EvalList(fuel, ns, env, h).heap == rest.heap
  {
  }

  lemma ProductStep(acc: int, x: int, rest: seq<Value>)
    ensures acc * x * IntProduct(rest) == acc * IntProduct([VInt(x)] + rest)
  {
    assert ([VInt(x)] + rest)[1..] == rest;
  }

  /**
   * The fold of `*` from `acc` over arguments that are all integers is
   * `acc` times their product, and it evaluates them as a list does.
   */
  lemma {:induction false} ProductOfInts(fuel: nat, acc: int, ns: seq<Node>, loc: Loc, env: nat, h: Heap)
    requires EvalList(fuel, ns, env, h).out.Normal?
    requires forall k :: 0 <= k < |ns| ==> EvalList(fuel, ns, env, h).out.value[k].VInt?
    ensures var vs := EvalList(fuel, ns, env, h);
      Product(fuel, VInt(acc), ns, loc, env, h) == Res(Normal(VInt(acc * IntProduct(vs.out.value))), vs.heap)
    decreases |ns|
  {
    if ns != [] {
      EvalListHead(fuel, ns, env, h);
      var first := Eval(fuel, ns[0], env, h);
      var rest := EvalList(fuel, ns[1..], env, first.heap);
      var vs := EvalList(fuel, ns, env, h).out.value;
      assert vs[0] == first.out.value;
      forall k | 0 <= k < |ns| - 1 ensures rest.out.value[k].VInt? {
        assert rest.out.value[k] == vs[k + 1];
      }
      var x := first.out.value.i;
      assert Multiply(VInt(acc), first.out.value, loc) == Normal(VInt(acc * x));
      ProductOfInts(fuel, acc * x, ns[1..], loc, env, first.heap);
      ProductStep(acc, x, rest.out.value);
    }
  }

  /**
   * `(* a b ...)` on integer arguments is the product of their values;
   * without arguments it fails the arity check.
   */
  lemma TimesInts(fuel: nat, args: seq<Node>, loc: Loc, env: nat, h: Heap)
    ensures args == [] ==> Times(fuel, args, loc, env, h) == Res(Fail(Error(ArityError, loc)), h)
    ensures var vs := EvalList(fuel, args, env, h);
      args != [] && vs.out.Normal? && (forall k :: 0 <= k < |args| ==> vs.out.value[k].VInt?) ==>
      Times(fuel, args, loc, env, h) == Res(Normal(VInt(IntProduct(vs.out.value))), vs.heap)
  {
    var vs := EvalList(fuel, args, env, h);
    if args != [] && vs.out.Normal? && (forall k :: 0 <= k < |args| ==> vs.out.value[k].VInt?) {
      ProductOfInts(fuel, 1, args, loc, env, h);
    }
  }

  /**
   * The parts of `join` succeed exactly when every argument evaluates, as
   * a list does, to a value with a `str()`; they are then those strings.
   */
  lemma {:induction false} JoinPartsRender(fuel: nat, ns: seq<Node>, loc: Loc, env: nat, h: Heap)
    ensures var j := JoinParts(fuel, ns, loc, env, h);
      var vs := EvalList(fuel, ns, env, h);
      j.out.Normal? <==> vs.out.Normal? && Renderable(vs.out.value)
    ensures var j := JoinParts(fuel, ns, loc, env, h);
      var vs := EvalList(fuel, ns, env, h);
      j.out.Normal? ==> j.heap == vs.heap && j.out.value == Renderings(vs.out.value)
    decreases |ns|
  {
    if ns != [] {
      var first := Eval(fuel, ns[0], env, h);
      if first.out.Normal? {
        JoinPartsRender(fuel, ns[1..], loc, env, first.heap);
        var rest := EvalList(fuel, ns[1..], env, first.heap);
        if rest.out.Normal? {
          var vs := [first.out.value] + rest.out.value;
          assert EvalList(fuel, ns, env, h).out.value == vs;
          assert vs[0] == first.out.value && vs[1..] == rest.out.value;
          RenderableCons(first.out.value, rest.out.value);
        }
      }
    }
  }

  lemma RenderableCons(v: Value, vs: seq<Value>)
    ensures Renderable([v] + vs) <==> Render(v).Some? && Renderable(vs)
    ensures Renderable([v] + vs) ==> Renderings([v] + vs) == [Render(v).value] + Renderings(vs)
  {
    var w := [v] + vs;
    assert w[0] == v && w[1..] == vs;
    assert forall k :: 0 <= k < |vs| ==> w[k + 1] == vs[k];
  }

  /**
   * `(join sep a ...)`: a separator that is not a string is a type error;
   * with a string separator and arguments whose values all have a
   * `str()`, the answer is those strings joined with the separator.
   */
  lemma JoinFormValue(fuel: nat, sn: Node, ns: seq<Node>, loc: Loc, env: nat, h: Heap)
    requires Eval(fuel, sn, env, h).out.Normal?
    ensures var sep := Eval(fuel, sn, env, h);
      !sep.out.value.VStr? ==> JoinForm(fuel, [sn] + ns, loc, env, h) == Res(Fail(Error(TypeError, loc)), sep.heap)
    ensures var sep := Eval(fuel, sn, env, h);
      var vs := EvalList(fuel, ns, env, sep.heap);
      sep.out.value.VStr? && vs.out.Normal? && Renderable(vs.out.value) ==>
      JoinForm(fuel, [sn] + ns, loc, env, h) == Res(Normal(VStr(Join(sep.out.value.s, Renderings(vs.out.value)))), vs.heap)
  {
    var args := [sn] + ns;
    assert args[0] == sn && args[1..] == ns;
    var sep := Eval(fuel, sn, env, h);
    JoinPartsRender(fuel, ns, loc, env, sep.heap);
  }

  /**
   * `(inc n)` and `(dec n)`: one argument, evaluated once; an int moves by
   * one, anything else fails, and an exit or failure of the argument is
   * passed on.
   */
  lemma IncDecValue(fuel: nat, args: seq<Node>, d: int, loc: Loc, env: nat, h: Heap)
    ensures |args| != 1 ==> IncDec(fuel, args, d, loc, env, h) == Res(Fail(Error(ArityError, loc)), h)
    ensures |args| == 1 ==>
      var v := Eval(fuel, args[0], env, h);
      var r := IncDec(fuel, args, d, loc, env, h);
      && r.heap == v.heap
      && (!v.out.Normal? ==> r.out == v.out)
      && (v.out.Normal? ==> (r.out.Normal? <==> v.out.value.VInt?))
      && (v.out.Normal? && v.out.value.VInt? ==> r.out == Normal(VInt(v.out.value.i + d)))
  {
  }

  /**
   * `(+ a ...)`: every argument is evaluated, in order; the sum succeeds
   * exactly when all of them are ints, and is then their total.
   */
  lemma PlusValue(fuel: nat, args: seq<Node>, loc: Loc, env: nat, h: Heap)
    ensures var vs := EvalList(fuel, args, env, h);
      var r := Plus(fuel, args, loc, env, h);
      && r.heap == vs.heap
      && (!vs.out.Normal? ==> !r.out.Normal? && (r.out.Fail? <==> vs.out.Fail?))
      && (vs.out.Normal? ==> (r.out.Normal? <==> forall k :: 0 <= k < |args| ==> vs.out.value[k].VInt?))
      && (vs.out.Normal? && r.out.Normal? ==> r.out.value == VInt(IntTotal(vs.out.value)))
  {
  }

  /** `(- a b)`: exactly two arguments; two ints give their difference, anything else fails. */
  lemma MinusValue(fuel: nat, args: seq<Node>, loc: Loc, env: nat, h: Heap)
    ensures |args| != 2 ==> Minus(fuel, args, loc, env, h) == Res(Fail(Error(ArityError, loc)), h)
    ensures |args| == 2 ==>
      var vs := EvalList(fuel, args, env, h);
      var r := Minus(fuel, args, loc, env, h);
      && r.heap == vs.heap
      && (vs.out.Normal? ==> (r.out.Normal? <==> vs.out.value[0].VInt? && vs.out.value[1].VInt?))
      && (vs.out.Normal? && r.out.Normal? ==> r.out.value == VInt(vs.out.value[0].i - vs.out.value[1].i))
  {
  }

  /**
   * `(/ a b)`: exactly two arguments; a zero divisor is the division
   * error, and exactly then. A successful division is a float, left out.
   */
  lemma DivValue(fuel: nat, args: seq<Node>, loc: Loc, env: nat, h: Heap)
    ensures |args| != 2 ==> Div(fuel, args, loc, env, h) == Res(Fail(Error(ArityError, loc)), h)
    ensures |args| == 2 ==>
      var vs := EvalList(fuel, args, env, h);
      var r := Div(fuel, args, loc, env, h);
      && r.heap == vs.heap
      && (vs.out.Normal? ==> r.out.Fail? && (r.out.error.kind == DivisionByZero <==> vs.out.value[1] == VInt(0)))
  {
  }
}

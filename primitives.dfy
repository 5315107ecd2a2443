/**
 * The value-level part of the builtins of interpret.py: Python's `+`, `-`,
 * `*`, `/`, `str()` and `str.join` on the values of this model, and the
 * argument-count check `assert_arity`.
 */
module Primitives {
  import opened Syntax
  import opened Values

  /** Python's `a + b` for the sum builtin (`sum` starts from the int 0). */
  function Sum(vs: seq<Value>, loc: Loc): (r: Outcome<Value>)
    ensures r.Normal? <==> forall k :: 0 <= k < |vs| ==> vs[k].VInt?
    ensures r.Normal? ==> r.value.VInt? && r.value.i == IntTotal(vs)
    ensures !r.Exit?
  {
    if vs == [] then Normal(VInt(0))
    else if vs[0].VInt? then
      var rest := Sum(vs[1..], loc);
      if rest.Normal? then Normal(VInt(vs[0].i + rest.value.i)) else rest
    else if vs[0].VFloat? then Fail(Error(Unsupported, loc))
    else Fail(Error(TypeError, loc))
  }

  /** The arithmetic sum of the integer elements of `vs`. */
  function IntTotal(vs: seq<Value>): int {
    if vs == [] then 0 else (if vs[0].VInt? then vs[0].i else 0) + IntTotal(vs[1..])
  }

  /** The arithmetic product of the integer elements of `vs`. */
  function IntProduct(vs: seq<Value>): int {
    if vs == [] then 1 else (if vs[0].VInt? then vs[0].i else 1) * IntProduct(vs[1..])
  }

  /** `n + 1` / `n - 1` for `inc` and `dec`. */
  function AddInt(v: Value, d: int, loc: Loc): (r: Outcome<Value>)
    ensures r.Normal? <==> v.VInt?
    ensures r.Normal? ==> r.value == VInt(v.i + d)
    ensures r.Fail? && v.VFloat? ==> r.error.kind == Unsupported
    ensures r.Fail? && !v.VFloat? ==> r.error.kind == TypeError
    ensures !r.Exit?
  {
    match v
    case VInt(i) => Normal(VInt(i + d))
    case VFloat(_) => Fail(Error(Unsupported, loc))
    case _ => Fail(Error(TypeError, loc))
  }

  /** Python's `a - b`. */
  function Subtract(a: Value, b: Value, loc: Loc): (r: Outcome<Value>)
    ensures r.Normal? <==> a.VInt? && b.VInt?
    ensures r.Normal? ==> r.value == VInt(a.i - b.i)
    ensures !r.Exit?
  {
    if a.VInt? && b.VInt? then Normal(VInt(a.i - b.i))
    else if a.VFloat? || b.VFloat? then Fail(Error(Unsupported, loc))
    else Fail(Error(TypeError, loc))
  }

  /** Python's sequence repetition `s * n`: empty for `n <= 0`. */
  function Repeat<T>(s: seq<T>, n: int): (r: seq<T>)
    decreases if n < 0 then 0 else n
  {
    if n <= 0 then [] else s + Repeat(s, n - 1)
  }

  /**
   * Python's `a * b`: integer product, or repetition of a string or a list
   * by an integer on either side.
   */
  function Multiply(a: Value, b: Value, loc: Loc): (r: Outcome<Value>)
    ensures !r.Exit?
    ensures a.VInt? && b.VInt? ==> r == Normal(VInt(a.i * b.i))
    ensures a.VInt? && b.VStr? ==> r == Normal(VStr(Repeat(b.s, a.i)))
    ensures a.VStr? && b.VInt? ==> r == Normal(VStr(Repeat(a.s, b.i)))
    ensures a.VStr? && b.VStr? ==> r.Fail? && r.error.kind == TypeError
    ensures r.Normal? ==> (a.VInt? || b.VInt?)
  {
    match (a, b)
    case (VInt(x), VInt(y)) => Normal(VInt(x * y))
    case (VInt(x), VStr(s)) => Normal(VStr(Repeat(s, x)))
    case (VStr(s), VInt(y)) => Normal(VStr(Repeat(s, y)))
    case (VInt(x), VList(s)) => Normal(VList(Repeat(s, x)))
    case (VList(s), VInt(y)) => Normal(VList(Repeat(s, y)))
    case _ =>
      if a.VFloat? || b.VFloat? then Fail(Error(Unsupported, loc))
      else Fail(Error(TypeError, loc))
  }

  /**
   * The value part of the `/` builtin: `b == 0` is checked first. A true
   * division that succeeds yields a Python float, which is not modelled.
   */
  function Divide(a: Value, b: Value, loc: Loc): (r: Outcome<Value>)
    ensures !r.Normal? && !r.Exit?
    ensures r.error.kind == DivisionByZero <==> b == VInt(0)
    ensures a.VInt? && b.VInt? && b.i != 0 ==> r.error.kind == Unsupported
  {
    if b == VInt(0) then Fail(Error(DivisionByZero, loc))
    else if b.VFloat? || a.VFloat? || (a.VInt? && b.VInt?) then Fail(Error(Unsupported, loc))
    else Fail(Error(TypeError, loc))
  }

  /** The decimal numeral Python's `str()` gives a natural number. */
  function NatDecimal(n: nat): (r: string)
    ensures |r| > 0 && (forall k :: 0 <= k < |r| ==> '0' <= r[k] <= '9')
    ensures (r[0] == '0') <==> n == 0
  {
    if n < 10 then [(n + '0' as int) as char]
    else NatDecimal(n / 10) + [((n % 10) + '0' as int) as char]
  }

  /** Reads a decimal numeral back. */
  function DecimalValue(s: string): int {
    if s == [] then 0 else DecimalValue(s[..|s| - 1]) * 10 + (s[|s| - 1] as int - '0' as int)
  }

  lemma {:induction false} NatDecimalRoundTrip(n: nat)
    ensures DecimalValue(NatDecimal(n)) == n
  {
    if n >= 10 {
      NatDecimalRoundTrip(n / 10);
      var d := NatDecimal(n / 10) + [((n % 10) + '0' as int) as char];
      assert d[..|d| - 1] == NatDecimal(n / 10);
    }
  }

  /** Python's `str(v)` for the values it is modelled for. */
  function Render(v: Value): (r: Option<string>)
    ensures r.Some? <==> (v.VStr? || v.VInt? || v.VNone?)
    ensures v.VStr? ==> r == Some(v.s)
  {
    match v
    case VStr(s) => Some(s)
    case VInt(i) => Some(if i < 0 then "-" + NatDecimal(-i) else NatDecimal(i))
    case VNone => Some("None")
    case _ => None
  }

  /** Every value has a `str()` in this model. */
  predicate Renderable(vs: seq<Value>) {
    forall k :: 0 <= k < |vs| ==> Render(vs[k]).Some?
  }

  /** The `str()` of each value, in order. */
  function Renderings(vs: seq<Value>): (r: seq<string>)
    requires Renderable(vs)
    ensures |r| == |vs| && forall k :: 0 <= k < |vs| ==> Some(r[k]) == Render(vs[k])
  {
    if vs == [] then [] else [Render(vs[0]).value] + Renderings(vs[1..])
  }

  /** Python's `sep.join(parts)`. */
  function Join(sep: string, parts: seq<string>): string {
    if parts == [] then ""
    else if |parts| == 1 then parts[0]
    else parts[0] + sep + Join(sep, parts[1..])
  }

  /** `join` puts the separator exactly between consecutive parts. */
  lemma {:induction false} JoinSnoc(sep: string, parts: seq<string>, last: string)
    requires parts != []
    ensures Join(sep, parts + [last]) == Join(sep, parts) + sep + last
  {
    if |parts| > 1 {
      JoinSnoc(sep, parts[1..], last);
      assert (parts + [last])[1..] == parts[1..] + [last];
    } else {
      assert parts + [last] == [parts[0], last];
    }
  }

  lemma {:induction false} JoinLength(sep: string, parts: seq<string>)
    requires parts != []
    ensures |Join(sep, parts)| == TotalLength(parts) + |sep| * (|parts| - 1)
  {
    if |parts| > 1 { JoinLength(sep, parts[1..]); }
  }

  function TotalLength(parts: seq<string>): nat {
    if parts == [] then 0 else |parts[0]| + TotalLength(parts[1..])
  }

  /**
   * `assert_arity` as written: the `max` test rejects when there are
   * FEWER arguments than `max`.
   */
  function AssertArityAsWritten(n: nat, exact: Option<nat>, min: Option<nat>, max: Option<nat>): (ok: bool)
    ensures ok ==> (exact.Some? ==> n == exact.value) && (min.Some? ==> n >= min.value)
    ensures max.Some? && n < max.value ==> !ok
  {
    && (exact.None? || n == exact.value)
    && (min.None? || n >= min.value)
    && (max.None? || !(n < max.value))
  }

  /** The counterexample: with `max = 2` one argument is refused and five are accepted. */
  lemma AssertArityMaxInverted()
    ensures !AssertArityAsWritten(1, None, None, Some(2))
    ensures AssertArityAsWritten(5, None, None, Some(2))
  {
  }

  /**
   * `assert_arity` with `max` as an upper bound; the evaluator uses this
   * one. It refuses more than `max` arguments, and otherwise decides as
   * the code as written does without `max`.
   */
  function AssertArity(n: nat, exact: Option<nat>, min: Option<nat>, max: Option<nat>): (ok: bool)
    ensures max.Some? && n > max.value ==> !ok
    ensures max.None? || n <= max.value ==> ok == AssertArityAsWritten(n, exact, min, None)
  {
    && (exact.None? || n == exact.value)
    && (min.None? || n >= min.value)
    && (max.None? || n <= max.value)
  }

  /**
   * The two checks disagree on every count other than `max` itself: as
   * written, more than `max` arguments pass and fewer are refused.
   */
  lemma AssertArityMaxCorrected(n: nat, m: nat)
    ensures n > m ==> AssertArityAsWritten(n, None, None, Some(m)) && !AssertArity(n, None, None, Some(m))
    ensures n < m ==> !AssertArityAsWritten(n, None, None, Some(m)) && AssertArity(n, None, None, Some(m))
  {
  }

  /** No call site passes `max`, and there the two definitions agree. */
  lemma {:induction false} AssertArityAgreesWithoutMax(n: nat, exact: Option<nat>, min: Option<nat>)
    ensures AssertArity(n, exact, min, None) == AssertArityAsWritten(n, exact, min, None)
  {
  }
}

/** scripts/deploy/predict-addresses.js: evaluating constructor arguments only when they are literals. */
module Literals {
  import opened Results

  /** A number as the language has it; the sign of zero and the infinities are kept apart. */
  datatype Number = Finite(r: real) | NegativeZero | Infinite(negative: bool)

  /** A runtime value. Opaque is everything the evaluator never produces: null, undefined, NaN, objects. */
  datatype Value =
    | Text(s: string)
    | Numeric(n: Number)
    | BigInt(i: int)
    | Boolean(b: bool)
    | List(items: seq<Value>)
    | Opaque(name: string)

  /** The argument expressions of a call; Missing is a hole of an array, Free any form
   *  that only an environment can evaluate. */
  datatype Expr =
    | StringLiteral(s: string)
    | NumberLiteral(n: Number)
    | BigIntLiteral(i: int)
    | BooleanLiteral(b: bool)
    | NullLiteral
    | RegexLiteral(pattern: string)
    | Template(cooked: string, holes: seq<Expr>)
    | Unary(op: string, arg: Expr)
    | Array(elements: seq<Expr>)
    | Missing
    | Free(text: string)

  datatype Reason = MissingExpression | LiteralOfOtherType | Interpolation | NonLiteralUnary | HoleInArray | NotALiteral

  function Negate(n: Number): Number {
    match n
    case Finite(r) => if r == 0.0 then NegativeZero else Finite(-r)
    case NegativeZero => Finite(0.0)
    case Infinite(negative) => Infinite(!negative)
  }

  /** Negation is its own inverse; a number and its negation cancel, and the signs of zero and infinity change. */
  lemma NegateExactly(n: Number)
    ensures Negate(Negate(n)) == n && Negate(n) != n
    ensures n.Finite? && n.r != 0.0 ==> Negate(n).Finite? && n.r + Negate(n).r == 0.0
    ensures n == Finite(0.0) ==> Negate(n) == NegativeZero
    ensures n.Infinite? ==> Negate(n) == Infinite(!n.negative)
  {
  }

  // ---------------------------------------------------------------- the evaluator

  function LiteralValue(e: Expr): Result<Value, Reason>
    decreases e
  {
    match e
    case StringLiteral(s) => Ok(Text(s))
    case NumberLiteral(n) => Ok(Numeric(n))
    case BigIntLiteral(i) => Ok(BigInt(i))
    case BooleanLiteral(b) => Ok(Boolean(b))
    case NullLiteral => Err(LiteralOfOtherType)
    case RegexLiteral(_) => Err(LiteralOfOtherType)
    case Template(cooked, holes) => if holes == [] then Ok(Text(cooked)) else Err(Interpolation)
    case Unary(op, arg) =>
      var inner := LiteralValue(arg);
      if inner.Ok? && op == "-" && inner.value.Numeric? then Ok(Numeric(Negate(inner.value.n)))
      else if inner.Ok? && op == "-" && inner.value.BigInt? then Ok(BigInt(-inner.value.i))
      else Err(NonLiteralUnary)
    case Array(elements) =>
      var values := LiteralValues(elements);
      if values.Ok? then Ok(List(values.value)) else Err(values.error)
    case Missing => Err(MissingExpression)
    case Free(_) => Err(NotALiteral)
  }

  /** The elements in order, up to the first one that is missing or no literal. */
  function LiteralValues(es: seq<Expr>): Result<seq<Value>, Reason>
    decreases es
  {
    if es == [] then Ok([])
    else if es[0].Missing? then Err(HoleInArray)
    else
      var v := LiteralValue(es[0]);
      if v.Err? then Err(v.error)
      else
        var rest := LiteralValues(es[1..]);
        if rest.Ok? then Ok([v.value] + rest.value) else rest
  }

  // ---------------------------------------------------------------- evaluation in an environment

  /** What the language and the program around the expression decide; None is a thrown error. */
  datatype Env = Env(free: string -> Option<Value>, unary: (string, Value) -> Option<Value>,
                     join: (string, seq<Value>) -> Option<Value>)

  /** A missing element reads as undefined. */
  function Eval(e: Expr, env: Env): Option<Value>
    decreases e
  {
    match e
    case StringLiteral(s) => Some(Text(s))
    case NumberLiteral(n) => Some(Numeric(n))
    case BigIntLiteral(i) => Some(BigInt(i))
    case BooleanLiteral(b) => Some(Boolean(b))
    case NullLiteral => Some(Opaque("null"))
    case RegexLiteral(pattern) => Some(Opaque(pattern))
    case Template(cooked, holes) =>
      if holes == [] then Some(Text(cooked))
      else
        var values := EvalAll(holes, env);
        if values.None? then None else env.join(cooked, values.value)
    case Unary(op, arg) =>
      var v := Eval(arg, env);
      if v.None? then None
      else if op == "-" && v.value.Numeric? then Some(Numeric(Negate(v.value.n)))
      else if op == "-" && v.value.BigInt? then Some(BigInt(-v.value.i))
      else env.unary(op, v.value)
    case Array(elements) =>
      var values := EvalAll(elements, env);
      if values.None? then None else Some(List(values.value))
    case Missing => Some(Opaque("undefined"))
    case Free(text) => env.free(text)
  }

  function EvalAll(es: seq<Expr>, env: Env): Option<seq<Value>>
    decreases es
  {
    if es == [] then Some([])
    else
      var v := Eval(es[0], env);
      var rest := EvalAll(es[1..], env);
      if v.None? || rest.None? then None else Some([v.value] + rest.value)
  }

  /** Sound: an accepted expression has this value whatever surrounds it. */
  lemma {:induction false} LiteralSound(e: Expr, env: Env)
    requires LiteralValue(e).Ok?
    ensures Eval(e, env) == Some(LiteralValue(e).value)
    decreases e
  {
    match e
    case Unary(_, arg) => LiteralSound(arg, env);
    case Array(elements) => LiteralsSound(elements, env);
    case _ =>
  }

  lemma {:induction false} LiteralsSound(es: seq<Expr>, env: Env)
    requires LiteralValues(es).Ok?
    ensures EvalAll(es, env) == Some(LiteralValues(es).value)
    decreases es
  {
    if es != [] {
      LiteralSound(es[0], env);
      LiteralsSound(es[1..], env);
    }
  }

  // ---------------------------------------------------------------- the accepted grammar

  predicate IsNumeral(e: Expr) {
    match e
    case NumberLiteral(_) => true
    case BigIntLiteral(_) => true
    case Unary(op, arg) => op == "-" && IsNumeral(arg)
    case _ => false
  }

  /** Literals, templates without holes, negated numerals, and arrays of these without gaps. */
  predicate IsLiteral(e: Expr)
    decreases e
  {
    match e
    case StringLiteral(_) => true
    case BooleanLiteral(_) => true
    case Template(_, holes) => holes == []
    case Array(elements) => forall i | 0 <= i < |elements| :: IsLiteral(elements[i])
    case _ => IsNumeral(e)
  }

  /** Complete: exactly the closed grammar is accepted, and exactly the numerals evaluate to numbers. */
  lemma {:induction false} LiteralExactly(e: Expr)
    ensures LiteralValue(e).Ok? <==> IsLiteral(e)
    ensures IsNumeral(e) <==> LiteralValue(e).Ok? && (LiteralValue(e).value.Numeric? || LiteralValue(e).value.BigInt?)
    decreases e
  {
    match e
    case Unary(_, arg) => LiteralExactly(arg);
    case Array(elements) => LiteralsExactly(elements);
    case _ =>
  }

  lemma {:induction false} LiteralsExactly(es: seq<Expr>)
    ensures LiteralValues(es).Ok? <==> forall i | 0 <= i < |es| :: IsLiteral(es[i])
    decreases es
  {
    if es != [] {
      LiteralsExactly(es[1..]);
      LiteralExactly(es[0]);
      assert forall i | 0 < i < |es| :: es[i] == es[1..][i - 1];
    }
  }

  // ---------------------------------------------------------------- every plain value has an expression

  /** Values the evaluator can produce. */
  predicate Plain(v: Value) {
    match v
    case List(items) => forall i | 0 <= i < |items| :: Plain(items[i])
    case Opaque(_) => false
    case _ => true
  }

  function Quote(v: Value): Expr
    requires Plain(v)
    decreases v
  {
    match v
    case Text(s) => StringLiteral(s)
    case Numeric(n) =>
      (match n
       case Finite(r) => if r < 0.0 then Unary("-", NumberLiteral(Finite(-r))) else NumberLiteral(n)
       case NegativeZero => Unary("-", NumberLiteral(Finite(0.0)))
       case Infinite(negative) => if negative then Unary("-", NumberLiteral(Infinite(false))) else NumberLiteral(n))
    case BigInt(i) => if i < 0 then Unary("-", BigIntLiteral(-i)) else BigIntLiteral(i)
    case Boolean(b) => BooleanLiteral(b)
    case List(items) => Array(QuoteAll(items))
    case Opaque(_) => Free("")
  }

  function QuoteAll(vs: seq<Value>): seq<Expr>
    requires forall i | 0 <= i < |vs| :: Plain(vs[i])
    decreases vs
  {
    if vs == [] then [] else [Quote(vs[0])] + QuoteAll(vs[1..])
  }

  /** Round trip: what a plain value is written as evaluates to it. */
  lemma {:induction false} QuoteRoundTrip(v: Value)
    requires Plain(v)
    ensures LiteralValue(Quote(v)) == Ok(v)
    decreases v
  {
    match v
    case List(items) => QuotesRoundTrip(items);
    case _ =>
  }

  lemma {:induction false} QuotesRoundTrip(vs: seq<Value>)
    requires forall i | 0 <= i < |vs| :: Plain(vs[i])
    ensures LiteralValues(QuoteAll(vs)) == Ok(vs)
    decreases vs
  {
    if vs != [] {
      QuoteRoundTrip(vs[0]);
      QuotesRoundTrip(vs[1..]);
      assert QuoteAll(vs)[1..] == QuoteAll(vs[1..]);
      assert [vs[0]] + vs[1..] == vs;
    }
  }
}

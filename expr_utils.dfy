// Rewriting utilities over the frontend's expression tree: splitting a
// predicate into its conjuncts or disjuncts and merging them back, boolean
// constant folding, pushing NOT down to the leaves, factoring out the
// conjuncts common to every disjunct, and deriving a watermark column from an
// expression.
// A small three-valued evaluator states what "the same expression" means for
// the rewriters; calls other than the boolean connectives, and expression kinds
// the rewriters leave alone, evaluate through function parameters.

module ExprUtils {
  import opened Bytes

  datatype DataType = Boolean | Int32 | Int64 | Varchar | Interval | Date | Timestamp | Timestamptz | OtherType

  datatype Scalar = Bool(b: bool) | Int(i: int) | Utf8(s: string)
                  | IntervalValue(months: int, days: int, usecs: int)

  datatype ExprType =
    | Unspecified | Not | And | Or | Equal
    | IsTrue | IsFalse | IsNull | IsNotTrue | IsNotFalse | IsNotNull
    | Add | Subtract | Multiply | Divide | Modulus | TumbleStart
    | AtTimeZone | AddWithTimeZone | SubtractWithTimeZone | DateTrunc
    | ToTimestamp | ToTimestamp1 | Cast | Case | Proctime
    | OtherFunction(code: int)

  /** `ExprImpl`. The kinds after `FunctionCallWithLambda` carry no children here. */
  datatype Expr =
    | InputRef(index: nat, ty: DataType)
    | Literal(data: Option<Scalar>, ty: DataType)
    | FunctionCall(funcType: ExprType, inputs: seq<Expr>, ret: DataType)
    | FunctionCallWithLambda(funcType: ExprType, inputs: seq<Expr>, ret: DataType)
    | TableFunction | UserDefinedFunction | Subquery | AggCall | CorrelatedInputRef
    | WindowFunction | Parameter | Now

  function LiteralBool(v: bool): Expr {
    Literal(Some(Bool(v)), Boolean)
  }

  /** `ExprImpl::is_null`: a literal without a value. */
  predicate IsNullLiteral(e: Expr) {
    e.Literal? && e.data.None?
  }

  predicate IsCall(e: Expr, op: ExprType) {
    e.FunctionCall? && e.funcType == op
  }

  function Binary(op: ExprType, lhs: Expr, rhs: Expr): Expr {
    FunctionCall(op, [lhs, rhs], Boolean)
  }

  function NotOf(e: Expr): Expr {
    FunctionCall(Not, [e], Boolean)
  }

  predicate IsUnaryPredicate(f: ExprType) {
    f == Not || f == IsTrue || f == IsFalse || f == IsNull || f == IsNotTrue || f == IsNotFalse
    || f == IsNotNull
  }

  /** The arities the rewriters assert: AND and OR are binary, NOT and the IS-tests unary. */
  predicate ArityOk(f: ExprType, n: nat) {
    (f == And || f == Or ==> n == 2) && (IsUnaryPredicate(f) ==> n == 1)
  }

  predicate WellFormed(e: Expr) {
    match e
    case FunctionCall(f, ins, _) => ArityOk(f, |ins|) && forall i :: 0 <= i < |ins| ==> WellFormed(ins[i])
    case _ => true
  }

  // ---------------------------------------------------------------------
  // Three-valued evaluation

  datatype Value = Null | BoolVal(b: bool) | ScalarVal(s: Scalar)

  function ValueOf(data: Option<Scalar>): Value {
    match data
    case None => Null
    case Some(Bool(v)) => BoolVal(v)
    case Some(s) => ScalarVal(s)
  }

  /** SQL AND: false wins, then NULL. */
  function AndV(a: Value, b: Value): Value {
    if a == BoolVal(false) || b == BoolVal(false) then BoolVal(false)
    else if a == BoolVal(true) then b
    else if b == BoolVal(true) then a
    else Null
  }

  /** SQL OR: true wins, then NULL. */
  function OrV(a: Value, b: Value): Value {
    if a == BoolVal(true) || b == BoolVal(true) then BoolVal(true)
    else if a == BoolVal(false) then b
    else if b == BoolVal(false) then a
    else Null
  }

  /** SQL NOT; a non-boolean operand (ill-typed) is left as it is. */
  function NotV(a: Value): Value {
    match a
    case BoolVal(v) => BoolVal(!v)
    case _ => a
  }

  function Apply(f: ExprType, ret: DataType, vs: seq<Value>,
                 other: (ExprType, DataType, seq<Value>) -> Value): Value {
    if f == And && |vs| == 2 then AndV(vs[0], vs[1])
    else if f == Or && |vs| == 2 then OrV(vs[0], vs[1])
    else if IsUnaryPredicate(f) && |vs| == 1 then
      var v := vs[0];
      match f
      case Not => NotV(v)
      case IsTrue => BoolVal(v == BoolVal(true))
      case IsFalse => BoolVal(v == BoolVal(false))
      case IsNull => BoolVal(v == Null)
      case IsNotTrue => BoolVal(v != BoolVal(true))
      case IsNotFalse => BoolVal(v != BoolVal(false))
      case IsNotNull => BoolVal(v != Null)
    else other(f, ret, vs)
  }

  /** `env` gives the input columns' values; `other` evaluates calls other than the boolean
      connectives and tests; `leaf` evaluates the expression kinds the rewriters leave alone. */
  function Eval(e: Expr, env: nat -> Value, other: (ExprType, DataType, seq<Value>) -> Value,
                leaf: Expr -> Value): Value {
    match e
    case InputRef(i, _) => env(i)
    case Literal(d, _) => ValueOf(d)
    case FunctionCall(f, ins, ret) =>
      Apply(f, ret, seq(|ins|, i requires 0 <= i < |ins| => Eval(ins[i], env, other, leaf)), other)
    case _ => leaf(e)
  }

  // ---------------------------------------------------------------------
  // `split_expr_by`, `to_conjunctions`, `to_disjunctions`, `merge_expr_by_binary`

  function Concat(parts: seq<seq<Expr>>): seq<Expr> {
    if |parts| == 0 then [] else Concat(parts[..|parts| - 1]) + parts[|parts| - 1]
  }

  lemma {:induction false} ConcatAppend(a: seq<seq<Expr>>, b: seq<seq<Expr>>)
    ensures Concat(a + b) == Concat(a) + Concat(b)
    decreases |b|
  {
    if |b| == 0 {
      assert a + b == a;
    } else {
      var m := |b| - 1;
      var ab := a + b;
      assert ab[..|ab| - 1] == a + b[..m] && ab[|ab| - 1] == b[m];
      assert Concat(ab) == Concat(a + b[..m]) + b[m];
      ConcatAppend(a, b[..m]);
      var x, y := Concat(a), Concat(b[..m]);
      assert Concat(b) == y + b[m];
      assert (x + y) + b[m] == x + (y + b[m]);
    }
  }

  lemma {:induction false} ConcatMembers(parts: seq<seq<Expr>>, x: Expr)
    ensures x in Concat(parts) <==> exists k :: 0 <= k < |parts| && x in parts[k]
  {
    if |parts| > 0 {
      var m := |parts| - 1;
      ConcatMembers(parts[..m], x);
      if x in parts[m] {
        assert 0 <= m < |parts| && x in parts[m];
      }
      if exists k :: 0 <= k < |parts| && x in parts[k] {
        var k :| 0 <= k < |parts| && x in parts[k];
        if k < m {
          assert x in parts[..m][k];
        }
      }
    }
  }

  lemma ConcatSnoc(parts: seq<seq<Expr>>, i: nat)
    requires i < |parts|
    ensures Concat(parts[..i + 1]) == Concat(parts[..i]) + parts[i]
  {
    assert parts[..i + 1][..i] == parts[..i];
  }

  lemma ConcatPair(a: seq<Expr>, b: seq<Expr>)
    ensures Concat([a, b]) == a + b
  {
    var parts := [a, b];
    assert parts[..1] == [a];
    assert [a][..0] == [];
    assert Concat([a]) == Concat([]) + a == a;
    assert Concat(parts) == Concat(parts[..1]) + b;
  }

  /** The operands of nested `op` calls, left to right; anything else is its own operand. */
  function Split(e: Expr, op: ExprType): (r: seq<Expr>)
    ensures !IsCall(e, op) ==> r == [e]
  {
    if IsCall(e, op) then Concat(seq(|e.inputs|, k requires 0 <= k < |e.inputs| => Split(e.inputs[k], op)))
    else [e]
  }

  /** `split_expr_by`: appends the operands of `expr` to `rets`. */
  method SplitExprBy(expr: Expr, op: ExprType, rets: seq<Expr>) returns (out: seq<Expr>)
    ensures out == rets + Split(expr, op)
    decreases expr
  {
    if IsCall(expr, op) {
      var ins := expr.inputs;
      ghost var parts := seq(|ins|, k requires 0 <= k < |ins| => Split(ins[k], op));
      out := rets;
      for i := 0 to |ins|
        invariant out == rets + Concat(parts[..i])
      {
        out := SplitExprBy(ins[i], op, out);
        ConcatSnoc(parts, i);
      }
      assert parts[..|ins|] == parts;
    } else {
      out := rets + [expr];
    }
  }

  method ToConjunctions(expr: Expr) returns (r: seq<Expr>)
    ensures r == Split(expr, And)
  {
    r := SplitExprBy(expr, And, []);
  }

  method ToDisjunctions(expr: Expr) returns (r: seq<Expr>)
    ensures r == Split(expr, Or)
  {
    r := SplitExprBy(expr, Or, []);
  }

  /** Splitting flattens completely: no operand is itself an `op` call. */
  lemma {:induction false} SplitFlat(e: Expr, op: ExprType, x: Expr)
    requires x in Split(e, op)
    ensures !IsCall(x, op)
    decreases e
  {
    if IsCall(e, op) {
      var parts := seq(|e.inputs|, k requires 0 <= k < |e.inputs| => Split(e.inputs[k], op));
      ConcatMembers(parts, x);
      var k :| 0 <= k < |parts| && x in parts[k];
      SplitFlat(e.inputs[k], op, x);
    }
  }

  /** Operands of a well-formed expression are well-formed, and there is at least one. */
  lemma {:induction false} SplitWellFormed(e: Expr, op: ExprType)
    requires op == And || op == Or
    requires WellFormed(e)
    ensures |Split(e, op)| > 0
    ensures forall x :: x in Split(e, op) ==> WellFormed(x)
    decreases e
  {
    if IsCall(e, op) {
      var parts := seq(|e.inputs|, k requires 0 <= k < |e.inputs| => Split(e.inputs[k], op));
      forall k | 0 <= k < |e.inputs|
        ensures |Split(e.inputs[k], op)| > 0
        ensures forall x :: x in Split(e.inputs[k], op) ==> WellFormed(x)
      {
        SplitWellFormed(e.inputs[k], op);
      }
      forall x | x in Split(e, op)
        ensures WellFormed(x)
      {
        ConcatMembers(parts, x);
      }
      assert |parts| == 2;
      assert parts[..1] == [parts[0]];
      assert Concat(parts) == Concat(parts[..1]) + parts[1];
    }
  }

  /** `merge_expr_by_binary`: the identity for no operands, otherwise a left-nested chain. */
  function Merge(es: seq<Expr>, op: ExprType, identity: Expr): (r: Expr)
    ensures |es| == 1 ==> r == es[0]
    ensures |es| == 0 ==> r == identity
  {
    if |es| == 0 then identity
    else if |es| == 1 then es[0]
    else Binary(op, Merge(es[..|es| - 1], op, identity), es[|es| - 1])
  }

  method MergeExprByBinary(es: seq<Expr>, op: ExprType, identity: Expr) returns (r: Expr)
    ensures r == Merge(es, op, identity)
  {
    if |es| == 0 {
      return identity;
    }
    r := es[0];
    for i := 1 to |es|
      invariant r == Merge(es[..i], op, identity)
    {
      assert es[..i + 1][..i] == es[..i];
      r := Binary(op, r, es[i]);
    }
    assert es[..|es|] == es;
  }

  lemma SplitBinary(op: ExprType, lhs: Expr, rhs: Expr)
    ensures Split(Binary(op, lhs, rhs), op) == Split(lhs, op) + Split(rhs, op)
  {
    var call := Binary(op, lhs, rhs);
    var parts := seq(|call.inputs|, k requires 0 <= k < |call.inputs| => Split(call.inputs[k], op));
    assert parts == [Split(lhs, op), Split(rhs, op)];
    ConcatPair(Split(lhs, op), Split(rhs, op));
  }

  /** Merging operands that are not `op` calls and splitting again gives them back. */
  lemma {:induction false} SplitMerge(es: seq<Expr>, op: ExprType, identity: Expr)
    requires |es| > 0
    requires forall i :: 0 <= i < |es| ==> !IsCall(es[i], op)
    ensures Split(Merge(es, op, identity), op) == es
  {
    if |es| > 1 {
      var m := |es| - 1;
      var left := Merge(es[..m], op, identity);
      SplitMerge(es[..m], op, identity);
      SplitBinary(op, left, es[m]);
      assert Merge(es, op, identity) == Binary(op, left, es[m]);
      assert es[..m] + [es[m]] == es;
    }
  }

  lemma {:induction false} MergeWellFormed(es: seq<Expr>, op: ExprType, identity: Expr)
    requires op == And || op == Or
    requires WellFormed(identity) && forall i :: 0 <= i < |es| ==> WellFormed(es[i])
    ensures WellFormed(Merge(es, op, identity))
  {
    if |es| > 1 {
      MergeWellFormed(es[..|es| - 1], op, identity);
    }
  }

  // ---------------------------------------------------------------------
  // Boolean constant folding

  /** `try_get_bool_constant`. */
  function TryGetBoolConstant(e: Expr): (r: Option<bool>)
    ensures r.Some? <==> e.Literal? && e.data.Some? && e.data.value.Bool?
    ensures r.Some? ==> e == Literal(Some(Bool(r.value)), e.ty)
  {
    if e.Literal? && e.data.Some? && e.data.value.Bool? then Some(e.data.value.b) else None
  }

  /** `boolean_constant_fold_and`: `true AND rhs` is `rhs`, `false AND rhs` is `false`. */
  function FoldAnd(constantLhs: Expr, rhs: Expr): Expr
    requires TryGetBoolConstant(constantLhs).Some?
  {
    if TryGetBoolConstant(constantLhs).value then rhs else constantLhs
  }

  /** `boolean_constant_fold_or`: `true OR rhs` is `true`, `false OR rhs` is `rhs`. */
  function FoldOr(constantLhs: Expr, rhs: Expr): Expr
    requires TryGetBoolConstant(constantLhs).Some?
  {
    if TryGetBoolConstant(constantLhs).value then constantLhs else rhs
  }

  /** One node of `BooleanConstantFolding`, over inputs already folded. */
  function FoldCall(f: ExprType, inputs: seq<Expr>, ret: DataType): Expr
    requires ArityOk(f, |inputs|)
  {
    var call := FunctionCall(f, inputs, ret);
    var containsConstant := exists i :: 0 <= i < |inputs| && TryGetBoolConstant(inputs[i]).Some?;
    if IsUnaryPredicate(f) then
      var input := inputs[0];
      var c := TryGetBoolConstant(input);
      match f
      case Not => if c.Some? then LiteralBool(!c.value) else call
      case IsFalse =>
        if IsNullLiteral(input) then LiteralBool(false) else if c.Some? then LiteralBool(!c.value) else call
      case IsTrue =>
        if IsNullLiteral(input) then LiteralBool(false) else if c.Some? then LiteralBool(c.value) else call
      case IsNull => if IsNullLiteral(input) then LiteralBool(true) else call
      case IsNotTrue =>
        if IsNullLiteral(input) then LiteralBool(true) else if c.Some? then LiteralBool(!c.value) else call
      case IsNotFalse =>
        if IsNullLiteral(input) then LiteralBool(true) else if c.Some? then LiteralBool(c.value) else call
      case IsNotNull => if input.Literal? then LiteralBool(input.data.Some?) else call
    else if (f == And || f == Or) && containsConstant then
      var first := TryGetBoolConstant(inputs[0]).Some?;
      var lhs := if first then inputs[0] else inputs[1];
      var rhs := if first then inputs[1] else inputs[0];
      if f == And then FoldAnd(lhs, rhs) else FoldOr(lhs, rhs)
    else call
  }

  /** `fold_boolean_constant`: folds the inputs first, then the node. */
  function FoldBooleanConstant(e: Expr): Expr
    requires WellFormed(e)
  {
    match e
    case FunctionCall(f, ins, ret) =>
      FoldCall(f, seq(|ins|, i requires 0 <= i < |ins| => FoldBooleanConstant(ins[i])), ret)
    case _ => e
  }

  lemma FoldCallSound(f: ExprType, inputs: seq<Expr>, ret: DataType, env: nat -> Value,
                      other: (ExprType, DataType, seq<Value>) -> Value, leaf: Expr -> Value)
    requires ArityOk(f, |inputs|)
    ensures Eval(FoldCall(f, inputs, ret), env, other, leaf) == Eval(FunctionCall(f, inputs, ret), env, other, leaf)
  {
    var vs := seq(|inputs|, i requires 0 <= i < |inputs| => Eval(inputs[i], env, other, leaf));
    assert Eval(FunctionCall(f, inputs, ret), env, other, leaf) == Apply(f, ret, vs, other);
    if f == And || f == Or {
      if TryGetBoolConstant(inputs[0]).Some? {
        assert vs[0] == BoolVal(TryGetBoolConstant(inputs[0]).value);
      } else if TryGetBoolConstant(inputs[1]).Some? {
        assert vs[1] == BoolVal(TryGetBoolConstant(inputs[1]).value);
      }
    }
  }

  /** Constant folding never changes what an expression evaluates to. */
  lemma {:induction false} FoldSound(e: Expr, env: nat -> Value,
                                     other: (ExprType, DataType, seq<Value>) -> Value, leaf: Expr -> Value)
    requires WellFormed(e)
    ensures Eval(FoldBooleanConstant(e), env, other, leaf) == Eval(e, env, other, leaf)
    decreases e
  {
    match e
    case FunctionCall(f, ins, ret) =>
      var folded := seq(|ins|, i requires 0 <= i < |ins| => FoldBooleanConstant(ins[i]));
      forall i | 0 <= i < |ins|
        ensures Eval(folded[i], env, other, leaf) == Eval(ins[i], env, other, leaf)
      {
        FoldSound(ins[i], env, other, leaf);
      }
      FoldCallSound(f, folded, ret, env, other, leaf);
      assert seq(|folded|, i requires 0 <= i < |folded| => Eval(folded[i], env, other, leaf))
          == seq(|ins|, i requires 0 <= i < |ins| => Eval(ins[i], env, other, leaf));
    case _ =>
  }

  lemma FoldBinary(op: ExprType, x: Expr, y: Expr)
    requires WellFormed(x) && WellFormed(y) && ArityOk(op, 2)
    ensures WellFormed(Binary(op, x, y))
    ensures FoldBooleanConstant(Binary(op, x, y))
            == FoldCall(op, [FoldBooleanConstant(x), FoldBooleanConstant(y)], Boolean)
  {
    var ins := [x, y];
    assert seq(2, i requires 0 <= i < 2 => FoldBooleanConstant(ins[i]))
        == [FoldBooleanConstant(x), FoldBooleanConstant(y)];
  }

  /** A constant on the right of `AND`/`OR` either absorbs the node or leaves the other side. */
  lemma FoldConstantRight(op: ExprType, a: Expr, b: bool)
    requires op == And || op == Or
    requires WellFormed(a) && TryGetBoolConstant(FoldBooleanConstant(a)).None?
    ensures FoldBooleanConstant(Binary(op, a, LiteralBool(b)))
            == if (op == And) == b then FoldBooleanConstant(a) else LiteralBool(b)
  {
    FoldBinary(op, a, LiteralBool(b));
  }

  /** The same with the constant on the left. */
  lemma FoldConstantLeft(op: ExprType, a: Expr, b: bool)
    requires op == And || op == Or
    requires WellFormed(a) && TryGetBoolConstant(FoldBooleanConstant(a)).None?
    ensures FoldBooleanConstant(Binary(op, LiteralBool(b), a))
            == if (op == And) == b then FoldBooleanConstant(a) else LiteralBool(b)
  {
    FoldBinary(op, LiteralBool(b), a);
  }

  /** `true AND a` is `a` and `false AND a` is `false`, whichever side holds the constant. */
  lemma FoldAndRules(a: Expr)
    requires WellFormed(a) && TryGetBoolConstant(FoldBooleanConstant(a)).None?
    ensures FoldBooleanConstant(Binary(And, a, LiteralBool(true))) == FoldBooleanConstant(a)
    ensures FoldBooleanConstant(Binary(And, LiteralBool(true), a)) == FoldBooleanConstant(a)
    ensures FoldBooleanConstant(Binary(And, a, LiteralBool(false))) == LiteralBool(false)
    ensures FoldBooleanConstant(Binary(And, LiteralBool(false), a)) == LiteralBool(false)
  {
    FoldConstantRight(And, a, true);
    FoldConstantLeft(And, a, true);
    FoldConstantRight(And, a, false);
    FoldConstantLeft(And, a, false);
  }

  /** `true OR a` is `true` and `false OR a` is `a`, whichever side holds the constant. */
  lemma FoldOrRules(a: Expr)
    requires WellFormed(a) && TryGetBoolConstant(FoldBooleanConstant(a)).None?
    ensures FoldBooleanConstant(Binary(Or, a, LiteralBool(true))) == LiteralBool(true)
    ensures FoldBooleanConstant(Binary(Or, LiteralBool(true), a)) == LiteralBool(true)
    ensures FoldBooleanConstant(Binary(Or, a, LiteralBool(false))) == FoldBooleanConstant(a)
    ensures FoldBooleanConstant(Binary(Or, LiteralBool(false), a)) == FoldBooleanConstant(a)
  {
    FoldConstantRight(Or, a, true);
    FoldConstantLeft(Or, a, true);
    FoldConstantRight(Or, a, false);
    FoldConstantLeft(Or, a, false);
  }

  /** `(false AND true) AND (true OR 1 = 2)` folds to `false`. */
  lemma FoldNestedExample()
    ensures var one := Literal(Some(Int(1)), Int32);
            var two := Literal(Some(Int(2)), Int32);
            var e := Binary(And, Binary(And, LiteralBool(false), LiteralBool(true)),
                                 Binary(Or, LiteralBool(true), Binary(Equal, one, two)));
            WellFormed(e) && FoldBooleanConstant(e) == LiteralBool(false)
  {
    var one := Literal(Some(Int(1)), Int32);
    var two := Literal(Some(Int(2)), Int32);
    var t, f := LiteralBool(true), LiteralBool(false);
    FoldBinary(Equal, one, two);
    var eq := Binary(Equal, one, two);
    assert FoldBooleanConstant(eq) == eq;
    FoldBinary(And, f, t);
    var left := Binary(And, f, t);
    assert FoldBooleanConstant(left) == f;
    FoldBinary(Or, t, eq);
    var right := Binary(Or, t, eq);
    assert FoldBooleanConstant(right) == t;
    FoldBinary(And, left, right);
  }

  // ---------------------------------------------------------------------
  // NOT push-down

  function Sum(ws: seq<nat>): nat {
    if |ws| == 0 then 0 else Sum(ws[..|ws| - 1]) + ws[|ws| - 1]
  }

  lemma {:induction false} SumBounds(ws: seq<nat>, i: nat)
    requires i < |ws|
    ensures ws[i] <= Sum(ws)
  {
    if i < |ws| - 1 {
      SumBounds(ws[..|ws| - 1], i);
    }
  }

  /** A measure under which every step of the push-down is smaller: a NOT weighs twice its
      operand, so `NOT (a AND b)` outweighs `NOT a OR NOT b`. */
  function Weight(e: Expr): (w: nat)
    ensures w >= 1
  {
    match e
    case FunctionCall(f, ins, _) =>
      var s := Sum(seq(|ins|, i requires 0 <= i < |ins| => Weight(ins[i])));
      if f == Not then 2 * s + 1 else s + 2
    case _ => 1
  }

  lemma InputLighter(e: Expr, i: nat)
    requires e.FunctionCall? && i < |e.inputs|
    ensures Weight(e.inputs[i]) < Weight(e)
  {
    var ws := seq(|e.inputs|, k requires 0 <= k < |e.inputs| => Weight(e.inputs[k]));
    SumBounds(ws, i);
  }

  lemma TwoSum(ws: seq<nat>)
    requires |ws| == 2
    ensures Sum(ws) == ws[0] + ws[1]
  {
    assert ws[..1][..0] == [];
    assert Sum(ws[..1]) == Sum(ws[..1][..0]) + ws[0];
  }

  lemma OneSum(ws: seq<nat>)
    requires |ws| == 1
    ensures Sum(ws) == ws[0]
  {
  }

  /** NOT over a binary AND or OR, rewritten by De Morgan's laws into the flipped call over the
      negated operands. */
  function DeMorganOf(input: Expr): Expr
    requires input.FunctionCall? && |input.inputs| == 2
  {
    var flipped := if input.funcType == And then Or else And;
    Binary(flipped, NotOf(input.inputs[0]), NotOf(input.inputs[1]))
  }

  lemma DeMorganFacts(e: Expr)
    requires WellFormed(e) && IsCall(e, Not)
    requires e.inputs[0].FunctionCall? && (e.inputs[0].funcType == And || e.inputs[0].funcType == Or)
    ensures |e.inputs[0].inputs| == 2
    ensures WellFormed(DeMorganOf(e.inputs[0]))
    ensures Weight(DeMorganOf(e.inputs[0])) < Weight(e)
  {
    var input := e.inputs[0];
    assert WellFormed(input);
    var lhs, rhs := input.inputs[0], input.inputs[1];
    assert WellFormed(lhs) && WellFormed(rhs);
    NotWeight(e);
    BinaryWeight(input);
    PushedNots(if input.funcType == And then Or else And, lhs, rhs);
  }

  /** `op(NOT lhs, NOT rhs)` is well formed and weighs twice its operands plus four. */
  lemma PushedNots(op: ExprType, lhs: Expr, rhs: Expr)
    requires op == And || op == Or
    requires WellFormed(lhs) && WellFormed(rhs)
    ensures WellFormed(Binary(op, NotOf(lhs), NotOf(rhs)))
    ensures Weight(Binary(op, NotOf(lhs), NotOf(rhs))) == 2 * Weight(lhs) + 2 * Weight(rhs) + 4
  {
    var pushed := Binary(op, NotOf(lhs), NotOf(rhs));
    NotWeight(NotOf(lhs));
    NotWeight(NotOf(rhs));
    BinaryWeight(pushed);
  }

  lemma NotWeight(e: Expr)
    requires IsCall(e, Not) && |e.inputs| == 1
    ensures Weight(e) == 2 * Weight(e.inputs[0]) + 1
  {
    OneSum(seq(1, i requires 0 <= i < 1 => Weight(e.inputs[i])));
  }

  lemma BinaryWeight(e: Expr)
    requires e.FunctionCall? && e.funcType != Not && |e.inputs| == 2
    ensures Weight(e) == Weight(e.inputs[0]) + Weight(e.inputs[1]) + 2
  {
    TwoSum(seq(2, i requires 0 <= i < 2 => Weight(e.inputs[i])));
  }

  /** `push_down_not`: NOT NOT a is a, NOT (a AND b) is NOT a OR NOT b, NOT (a OR b) is
      NOT a AND NOT b; the result is rewritten again, and a NOT that cannot be pushed keeps its
      place over its rewritten operand. */
  function PushDownNot(e: Expr): (r: Expr)
    requires WellFormed(e)
    ensures WellFormed(r)
    decreases Weight(e)
  {
    match e
    case FunctionCall(f, ins, ret) =>
      if f != Not then
        var rewritten := seq(|ins|, i requires 0 <= i < |ins| =>
          InputLighter(e, i);
          PushDownNot(ins[i]));
        FunctionCall(f, rewritten, ret)
      else
        var input := ins[0];
        InputLighter(e, 0);
        assert WellFormed(input);
        if input.FunctionCall? && input.funcType == Not then
          InputLighter(input, 0);
          PushDownNot(input.inputs[0])
        else if input.FunctionCall? && (input.funcType == And || input.funcType == Or) then
          DeMorganFacts(e);
          PushDownNot(DeMorganOf(input))
        else
          NotOf(PushDownNot(input))
    case _ => e
  }

  /** No NOT sits directly over a NOT, an AND or an OR. */
  predicate NotPushedDown(e: Expr) {
    match e
    case FunctionCall(f, ins, _) =>
      (f == Not ==> forall i :: 0 <= i < |ins| ==> !IsCall(ins[i], Not) && !IsCall(ins[i], And) && !IsCall(ins[i], Or))
      && forall i :: 0 <= i < |ins| ==> NotPushedDown(ins[i])
    case _ => true
  }

  /** A call other than NOT keeps its kind. */
  lemma PushDownKeepsHead(e: Expr)
    requires WellFormed(e)
    ensures !e.FunctionCall? ==> PushDownNot(e) == e
    ensures e.FunctionCall? && e.funcType != Not ==> IsCall(PushDownNot(e), e.funcType)
  {
  }

  lemma {:induction false} PushDownNotNormal(e: Expr)
    requires WellFormed(e)
    ensures NotPushedDown(PushDownNot(e))
    decreases Weight(e)
  {
    match e
    case FunctionCall(f, ins, ret) =>
      if f != Not {
        forall i | 0 <= i < |ins|
          ensures NotPushedDown(PushDownNot(ins[i]))
        {
          InputLighter(e, i);
          PushDownNotNormal(ins[i]);
        }
      } else {
        var input := ins[0];
        InputLighter(e, 0);
        if input.FunctionCall? && input.funcType == Not {
          InputLighter(input, 0);
          PushDownNotNormal(input.inputs[0]);
        } else if input.FunctionCall? && (input.funcType == And || input.funcType == Or) {
          DeMorganFacts(e);
          PushDownNotNormal(DeMorganOf(input));
        } else {
          PushDownNotNormal(input);
          PushDownKeepsHead(input);
        }
      }
    case _ =>
  }

  lemma NotLaws(a: Value, b: Value)
    ensures NotV(NotV(a)) == a
    ensures NotV(AndV(a, b)) == OrV(NotV(a), NotV(b))
    ensures NotV(OrV(a, b)) == AndV(NotV(a), NotV(b))
  {
  }

  /** Pushing NOT down never changes what an expression evaluates to. */
  lemma {:induction false} PushDownNotSound(e: Expr, env: nat -> Value,
                                            other: (ExprType, DataType, seq<Value>) -> Value, leaf: Expr -> Value)
    requires WellFormed(e)
    ensures Eval(PushDownNot(e), env, other, leaf) == Eval(e, env, other, leaf)
    decreases Weight(e), 1
  {
    if e.FunctionCall? {
      if e.funcType != Not {
        CallSound(e, env, other, leaf);
      } else {
        var input := e.inputs[0];
        if IsCall(input, Not) {
          DoubleNotSound(e, env, other, leaf);
        } else if input.FunctionCall? && (input.funcType == And || input.funcType == Or) {
          DeMorganSound(e, env, other, leaf);
        } else {
          KeptNotSound(e, env, other, leaf);
        }
      }
    }
  }

  /** A call other than NOT: its operands are rewritten one by one. */
  lemma {:induction false} CallSound(e: Expr, env: nat -> Value,
                                     other: (ExprType, DataType, seq<Value>) -> Value, leaf: Expr -> Value)
    requires WellFormed(e) && e.FunctionCall? && e.funcType != Not
    ensures Eval(PushDownNot(e), env, other, leaf) == Eval(e, env, other, leaf)
    decreases Weight(e), 0
  {
    var ins := e.inputs;
    var rewritten := seq(|ins|, i requires 0 <= i < |ins| => PushDownNot(ins[i]));
    forall i | 0 <= i < |ins|
      ensures Eval(rewritten[i], env, other, leaf) == Eval(ins[i], env, other, leaf)
    {
      InputLighter(e, i);
      PushDownNotSound(ins[i], env, other, leaf);
    }
    assert PushDownNot(e) == FunctionCall(e.funcType, rewritten, e.ret);
    assert seq(|rewritten|, i requires 0 <= i < |rewritten| => Eval(rewritten[i], env, other, leaf))
        == seq(|ins|, i requires 0 <= i < |ins| => Eval(ins[i], env, other, leaf));
  }

  /** NOT NOT a evaluates as a. */
  lemma {:induction false} DoubleNotSound(e: Expr, env: nat -> Value,
                                          other: (ExprType, DataType, seq<Value>) -> Value, leaf: Expr -> Value)
    requires WellFormed(e) && IsCall(e, Not) && IsCall(e.inputs[0], Not)
    ensures Eval(PushDownNot(e), env, other, leaf) == Eval(e, env, other, leaf)
    decreases Weight(e), 0
  {
    var input := e.inputs[0];
    InputLighter(e, 0);
    var a := input.inputs[0];
    InputLighter(input, 0);
    PushDownNotSound(a, env, other, leaf);
    assert Eval(input, env, other, leaf) == NotV(Eval(a, env, other, leaf));
    NotLaws(Eval(a, env, other, leaf), Null);
  }

  /** NOT over AND or OR evaluates as the flipped call over the negated operands. */
  lemma {:induction false} DeMorganSound(e: Expr, env: nat -> Value,
                                         other: (ExprType, DataType, seq<Value>) -> Value, leaf: Expr -> Value)
    requires WellFormed(e) && IsCall(e, Not)
    requires e.inputs[0].FunctionCall? && (e.inputs[0].funcType == And || e.inputs[0].funcType == Or)
    ensures Eval(PushDownNot(e), env, other, leaf) == Eval(e, env, other, leaf)
    decreases Weight(e), 0
  {
    var input := e.inputs[0];
    var lhs, rhs := input.inputs[0], input.inputs[1];
    DeMorganFacts(e);
    var pushed := DeMorganOf(input);
    assert PushDownNot(e) == PushDownNot(pushed);
    PushDownNotSound(pushed, env, other, leaf);
    var va, vb := Eval(lhs, env, other, leaf), Eval(rhs, env, other, leaf);
    assert Eval(NotOf(lhs), env, other, leaf) == NotV(va);
    assert Eval(NotOf(rhs), env, other, leaf) == NotV(vb);
    NotLaws(va, vb);
  }

  /** A NOT that cannot be pushed stays over its rewritten operand. */
  lemma {:induction false} KeptNotSound(e: Expr, env: nat -> Value,
                                        other: (ExprType, DataType, seq<Value>) -> Value, leaf: Expr -> Value)
    requires WellFormed(e) && IsCall(e, Not) && !IsCall(e.inputs[0], Not)
    requires !(e.inputs[0].FunctionCall? && (e.inputs[0].funcType == And || e.inputs[0].funcType == Or))
    ensures Eval(PushDownNot(e), env, other, leaf) == Eval(e, env, other, leaf)
    decreases Weight(e), 0
  {
    var input := e.inputs[0];
    InputLighter(e, 0);
    PushDownNotSound(input, env, other, leaf);
    assert PushDownNot(e) == NotOf(PushDownNot(input));
    assert Eval(NotOf(PushDownNot(input)), env, other, leaf) == NotV(Eval(PushDownNot(input), env, other, leaf));
    assert Eval(e, env, other, leaf) == NotV(Eval(input, env, other, leaf));
  }

  /** `NOT (NOT a)` becomes `a`, and `NOT (a AND NOT b)` becomes `NOT a OR b`, for columns a, b. */
  lemma PushDownNotExamples(a: nat, b: nat)
    ensures PushDownNot(NotOf(NotOf(InputRef(a, Boolean)))) == InputRef(a, Boolean)
    ensures WellFormed(NotOf(Binary(And, InputRef(a, Boolean), NotOf(InputRef(b, Boolean)))))
    ensures PushDownNot(NotOf(Binary(And, InputRef(a, Boolean), NotOf(InputRef(b, Boolean)))))
            == Binary(Or, NotOf(InputRef(a, Boolean)), InputRef(b, Boolean))
  {
    var x, y := InputRef(a, Boolean), InputRef(b, Boolean);
    assert PushDownNot(NotOf(x)) == NotOf(x);
    assert PushDownNot(NotOf(NotOf(y))) == y;
    var pushed := Binary(Or, NotOf(x), NotOf(NotOf(y)));
    assert PushDownNot(pushed) == FunctionCall(Or, [PushDownNot(NotOf(x)), PushDownNot(NotOf(NotOf(y)))], Boolean);
  }

  // ---------------------------------------------------------------------
  // `factorization_expr`

  /** The factors of `last` present in every other disjunct (what `drain_filter` takes out). */
  function CommonFactors(last: seq<Expr>, remaining: seq<seq<Expr>>): (r: seq<Expr>)
    ensures forall x :: x in r ==> x in last && forall d :: d in remaining ==> x in d
  {
    if |last| == 0 then []
    else
      var x := last[|last| - 1];
      CommonFactors(last[..|last| - 1], remaining)
      + (if forall d :: d in remaining ==> x in d then [x] else [])
  }

  /** What stays in `last` after `drain_filter`. */
  function NotCommon(last: seq<Expr>, remaining: seq<seq<Expr>>): (r: seq<Expr>)
    ensures forall x :: x in r ==> x in last && !(forall d :: d in remaining ==> x in d)
  {
    if |last| == 0 then []
    else
      var x := last[|last| - 1];
      NotCommon(last[..|last| - 1], remaining)
      + (if forall d :: d in remaining ==> x in d then [] else [x])
  }

  /** `retain(|f| !gcd.contains(f))`. */
  function Without(d: seq<Expr>, gcd: seq<Expr>): (r: seq<Expr>)
    ensures forall x :: x in r ==> x in d && x !in gcd
    ensures forall x :: x in d && x !in gcd ==> x in r
  {
    if |d| == 0 then []
    else Without(d[..|d| - 1], gcd) + (if d[|d| - 1] in gcd then [] else [d[|d| - 1]])
  }

  /** The OR of the ANDs of the residual conjunct lists. */
  function Remainder(conjunctions: seq<seq<Expr>>): Expr {
    Merge(seq(|conjunctions|, k requires 0 <= k < |conjunctions| => Merge(conjunctions[k], And, LiteralBool(true))),
          Or, LiteralBool(false))
  }

  function ConjunctLists(disjunctions: seq<Expr>): (r: seq<seq<Expr>>)
    ensures |r| == |disjunctions|
  {
    seq(|disjunctions|, k requires 0 <= k < |disjunctions| => Split(disjunctions[k], And))
  }

  /** The residual conjunct lists: the common factors removed from every disjunct. */
  function Residuals(conj: seq<seq<Expr>>): (r: seq<seq<Expr>>)
    requires |conj| > 0
    ensures |r| == |conj|
  {
    var last := conj[|conj| - 1];
    var remaining := conj[..|conj| - 1];
    var gcd := CommonFactors(last, remaining);
    seq(|remaining|, k requires 0 <= k < |remaining| => Without(remaining[k], gcd)) + [NotCommon(last, remaining)]
  }

  function FactorizationSpec(expr: Expr): (r: seq<Expr>)
    requires WellFormed(expr)
  {
    var disjunctions := Split(expr, Or);
    SplitWellFormed(expr, Or);
    if |disjunctions| == 1 then disjunctions
    else
      var conj := ConjunctLists(disjunctions);
      var gcd := CommonFactors(conj[|conj| - 1], conj[..|conj| - 1]);
      FactorsWellFormed(disjunctions);
      MergeWellFormed(seq(|conj|, k requires 0 <= k < |conj| => Merge(Residuals(conj)[k], And, LiteralBool(true))),
                      Or, LiteralBool(false));
      FoldEach(gcd)
      + [FoldBooleanConstant(Remainder(Residuals(conj)))]
  }

  lemma FactorsWellFormed(disjunctions: seq<Expr>)
    requires |disjunctions| > 0 && forall x :: x in disjunctions ==> WellFormed(x)
    ensures var conj := ConjunctLists(disjunctions);
            (forall x :: x in CommonFactors(conj[|conj| - 1], conj[..|conj| - 1]) ==> WellFormed(x))
            && (forall k :: 0 <= k < |conj| ==> forall i :: 0 <= i < |Residuals(conj)[k]| ==> WellFormed(Residuals(conj)[k][i]))
            && (forall k :: 0 <= k < |conj| ==> WellFormed(Merge(Residuals(conj)[k], And, LiteralBool(true))))
  {
    var conj := ConjunctLists(disjunctions);
    forall k | 0 <= k < |conj|
      ensures forall x :: x in conj[k] ==> WellFormed(x)
    {
      SplitWellFormed(disjunctions[k], And);
    }
    var res := Residuals(conj);
    forall k | 0 <= k < |conj|
      ensures forall i :: 0 <= i < |res[k]| ==> WellFormed(res[k][i])
      ensures WellFormed(Merge(res[k], And, LiteralBool(true)))
    {
      assert forall i :: 0 <= i < |res[k]| ==> res[k][i] in conj[k];
      MergeWellFormed(res[k], And, LiteralBool(true));
    }
  }

  /** `factorization_expr`: with a single disjunct the expression is returned as is; otherwise
      the factors of the last disjunct present in every disjunct are taken out of all of them
      and emitted first, followed by the folded OR of the residual conjunctions. */
  method FactorizationExpr(expr: Expr) returns (r: seq<Expr>)
    requires WellFormed(expr)
    ensures r == FactorizationSpec(expr)
  {
    var disjunctions := ToDisjunctions(expr);
    SplitWellFormed(expr, Or);
    if |disjunctions| == 1 {
      return disjunctions;
    }
    var conj := ConjunctionsOf(disjunctions);
    var gcd, residual := TakeOutFactors(conj);
    FactorsWellFormed(disjunctions);
    MergeWellFormed(seq(|residual|, k requires 0 <= k < |residual| => Merge(residual[k], And, LiteralBool(true))),
                    Or, LiteralBool(false));
    r := EmitFactored(gcd, residual);
  }

  /** The factors of the last disjunct found in every other one are drained from it, and
      retained out of the others. */
  method TakeOutFactors(conj: seq<seq<Expr>>) returns (gcd: seq<Expr>, residual: seq<seq<Expr>>)
    requires |conj| > 0
    ensures gcd == CommonFactors(conj[|conj| - 1], conj[..|conj| - 1])
    ensures residual == Residuals(conj)
  {
    var remaining := conj[..|conj| - 1];
    var last := conj[|conj| - 1];
    var kept;
    gcd, kept := DrainFilter(last, remaining);
    residual := RetainAll(remaining, gcd);
    residual := residual + [kept];
  }

  /** The folded factors, then the folded OR of the residual conjunctions. */
  method EmitFactored(gcd: seq<Expr>, residual: seq<seq<Expr>>) returns (r: seq<Expr>)
    requires forall x :: x in gcd ==> WellFormed(x)
    requires WellFormed(Remainder(residual))
    ensures r == FoldEach(gcd)
                 + [FoldBooleanConstant(Remainder(residual))]
  {
    var merged := MergeConjunctions(residual);
    var rest := MergeExprByBinary(merged, Or, LiteralBool(false));
    assert rest == Remainder(residual);
    r := FoldAll(gcd + [rest]);
    assert r == FoldEach(gcd)
              + [FoldBooleanConstant(rest)];
  }

  method ConjunctionsOf(disjunctions: seq<Expr>) returns (conj: seq<seq<Expr>>)
    ensures conj == ConjunctLists(disjunctions)
  {
    conj := [];
    for k := 0 to |disjunctions|
      invariant conj == ConjunctLists(disjunctions[..k])
    {
      var c := ToConjunctions(disjunctions[k]);
      conj := conj + [c];
    }
    assert disjunctions[..|disjunctions|] == disjunctions;
  }

  /** `drain_filter` on the last disjunct: the common factors leave it, in order. */
  method DrainFilter(last: seq<Expr>, remaining: seq<seq<Expr>>) returns (gcd: seq<Expr>, kept: seq<Expr>)
    ensures gcd == CommonFactors(last, remaining)
    ensures kept == NotCommon(last, remaining)
  {
    gcd, kept := [], [];
    for i := 0 to |last|
      invariant gcd == CommonFactors(last[..i], remaining)
      invariant kept == NotCommon(last[..i], remaining)
    {
      assert last[..i + 1][..i] == last[..i];
      if forall d :: d in remaining ==> last[i] in d {
        gcd := gcd + [last[i]];
      } else {
        kept := kept + [last[i]];
      }
    }
    assert last[..|last|] == last;
  }

  /** `retain` on every other disjunct: the common factors are removed. */
  method RetainAll(remaining: seq<seq<Expr>>, gcd: seq<Expr>) returns (residual: seq<seq<Expr>>)
    ensures residual == seq(|remaining|, k requires 0 <= k < |remaining| => Without(remaining[k], gcd))
  {
    residual := [];
    for k := 0 to |remaining|
      invariant residual == seq(k, j requires 0 <= j < k => Without(remaining[j], gcd))
    {
      residual := residual + [Without(remaining[k], gcd)];
    }
  }

  method MergeConjunctions(residual: seq<seq<Expr>>) returns (merged: seq<Expr>)
    ensures merged == seq(|residual|, k requires 0 <= k < |residual| => Merge(residual[k], And, LiteralBool(true)))
  {
    merged := [];
    for k := 0 to |residual|
      invariant merged == seq(k, j requires 0 <= j < k => Merge(residual[j], And, LiteralBool(true)))
    {
      var m := MergeExprByBinary(residual[k], And, LiteralBool(true));
      merged := merged + [m];
    }
  }

  /** Each expression constant-folded, in order. */
  function FoldEach(es: seq<Expr>): seq<Expr>
    requires forall x :: x in es ==> WellFormed(x)
  {
    seq(|es|, i requires 0 <= i < |es| => FoldBooleanConstant(es[i]))
  }

  method FoldAll(es: seq<Expr>) returns (r: seq<Expr>)
    requires forall x :: x in es ==> WellFormed(x)
    ensures r == FoldEach(es)
  {
    r := [];
    for i := 0 to |es|
      invariant r == seq(i, j requires 0 <= j < i => FoldBooleanConstant(es[j]))
    {
      r := r + [FoldBooleanConstant(es[i])];
    }
  }

  /** An expression that is not an OR comes back unchanged. */
  lemma FactorizationOfNonDisjunction(expr: Expr)
    requires WellFormed(expr) && !IsCall(expr, Or)
    ensures FactorizationSpec(expr) == [expr]
  {
  }

  /** Every emitted factor occurs in every disjunct's conjuncts, no residual conjunction keeps
      one, and one remainder follows the factors. */
  lemma FactorizationFacts(expr: Expr)
    requires WellFormed(expr) && |Split(expr, Or)| > 1
    ensures var conj := ConjunctLists(Split(expr, Or));
            var gcd := CommonFactors(conj[|conj| - 1], conj[..|conj| - 1]);
            |FactorizationSpec(expr)| == |gcd| + 1
            && (forall x, k :: x in gcd && 0 <= k < |conj| ==> x in conj[k])
            && (forall x, k :: x in gcd && 0 <= k < |conj| ==> x !in Residuals(conj)[k])
  {
    var conj := ConjunctLists(Split(expr, Or));
    var last := conj[|conj| - 1];
    var remaining := conj[..|conj| - 1];
    var gcd := CommonFactors(last, remaining);
    forall x, k | x in gcd && 0 <= k < |conj|
      ensures x in conj[k]
    {
      if k < |conj| - 1 {
        assert conj[k] in remaining;
      }
    }
    forall x, k | x in gcd && 0 <= k < |conj|
      ensures x !in Residuals(conj)[k]
    {
      if k == |conj| - 1 {
        assert Residuals(conj)[k] == NotCommon(last, remaining);
      }
    }
  }

  // ---------------------------------------------------------------------
  // Soundness of `factorization_expr`

  /** A value a boolean expression can take: true, false or NULL. */
  predicate Boolish(v: Value) {
    v.Null? || v.BoolVal?
  }

  /** The connective `op` (`AND` or `OR`) on two values. */
  function Connect(op: ExprType, a: Value, b: Value): Value {
    if op == And then AndV(a, b) else OrV(a, b)
  }

  /** The values joined by `op`, nested to the left from its identity as `Merge` nests them;
      joining booleans and NULLs gives a boolean or NULL. */
  function Join(op: ExprType, vs: seq<Value>): (r: Value)
    ensures (forall i :: 0 <= i < |vs| ==> Boolish(vs[i])) ==> Boolish(r)
  {
    if |vs| == 0 then BoolVal(op == And)
    else Connect(op, Join(op, vs[..|vs| - 1]), vs[|vs| - 1])
  }

  function Values(es: seq<Expr>, env: nat -> Value, other: (ExprType, DataType, seq<Value>) -> Value,
                  leaf: Expr -> Value): seq<Value> {
    seq(|es|, i requires 0 <= i < |es| => Eval(es[i], env, other, leaf))
  }

  lemma ConnectAssoc(op: ExprType, x: Value, y: Value, z: Value)
    ensures Connect(op, Connect(op, x, y), z) == Connect(op, x, Connect(op, y, z))
  {
  }

  /** Joining two runs of values joins the joins. */
  lemma {:induction false} JoinAppend(op: ExprType, a: seq<Value>, b: seq<Value>)
    ensures Join(op, a + b) == Connect(op, Join(op, a), Join(op, b))
    decreases |b|
  {
    if |b| == 0 {
      assert a + b == a;
    } else {
      var m := |b| - 1;
      assert (a + b)[..|a + b| - 1] == a + b[..m];
      JoinAppend(op, a, b[..m]);
      ConnectAssoc(op, Join(op, a), Join(op, b[..m]), b[m]);
    }
  }

  /** Over booleans and NULLs, an AND is false when a false is joined, otherwise NULL when a
      NULL is, and true otherwise: it depends only on which values occur. */
  lemma {:induction false} AndJoinMembers(vs: seq<Value>)
    requires forall i :: 0 <= i < |vs| ==> Boolish(vs[i])
    ensures Join(And, vs) == if BoolVal(false) in vs then BoolVal(false)
                             else if Null in vs then Null else BoolVal(true)
  {
    if |vs| > 0 {
      var m := |vs| - 1;
      AndJoinMembers(vs[..m]);
      assert vs == vs[..m] + [vs[m]];
    }
  }

  /** The AND of values is the AND of two runs that between them hold the same values. */
  lemma AndJoinCover(a: seq<Value>, b: seq<Value>, c: seq<Value>)
    requires forall i :: 0 <= i < |a| ==> Boolish(a[i])
    requires forall v :: v in b ==> v in a
    requires forall v :: v in c ==> v in a
    requires forall v :: v in a ==> v in b || v in c
    ensures Join(And, a) == AndV(Join(And, b), Join(And, c))
  {
    forall i | 0 <= i < |b|
      ensures Boolish(b[i])
    {
      assert b[i] in b;
    }
    forall i | 0 <= i < |c|
      ensures Boolish(c[i])
    {
      assert c[i] in c;
    }
    AndJoinMembers(a);
    AndJoinMembers(b);
    AndJoinMembers(c);
  }

  /** OR distributes over a common AND factor: `(g AND w1) OR ... == g AND (w1 OR ...)`. */
  lemma {:induction false} OrOfCommonFactor(g: Value, ws: seq<Value>, ds: seq<Value>)
    requires Boolish(g) && forall k :: 0 <= k < |ws| ==> Boolish(ws[k])
    requires |ds| == |ws| && forall k :: 0 <= k < |ds| ==> ds[k] == AndV(g, ws[k])
    ensures Join(Or, ds) == AndV(g, Join(Or, ws))
  {
    if |ws| > 0 {
      var m := |ws| - 1;
      OrOfCommonFactor(g, ws[..m], ds[..m]);
      assert Boolish(Join(Or, ws[..m]));
    }
  }

  lemma ValueIn(x: Expr, es: seq<Expr>, env: nat -> Value,
                other: (ExprType, DataType, seq<Value>) -> Value, leaf: Expr -> Value)
    requires x in es
    ensures Eval(x, env, other, leaf) in Values(es, env, other, leaf)
  {
    var i :| 0 <= i < |es| && es[i] == x;
    assert Values(es, env, other, leaf)[i] == Eval(x, env, other, leaf);
  }

  /** Evaluating a merge by `AND` (from `true`) or `OR` (from `false`) joins the values of the parts. */
  lemma {:induction false} EvalMerge(es: seq<Expr>, op: ExprType, env: nat -> Value,
                                     other: (ExprType, DataType, seq<Value>) -> Value, leaf: Expr -> Value)
    requires op == And || op == Or
    ensures Eval(Merge(es, op, LiteralBool(op == And)), env, other, leaf) == Join(op, Values(es, env, other, leaf))
  {
    var vs := Values(es, env, other, leaf);
    if |es| == 1 {
      assert vs[..0] == [];
    } else if |es| > 1 {
      var m := |es| - 1;
      var left := Merge(es[..m], op, LiteralBool(op == And));
      EvalMerge(es[..m], op, env, other, leaf);
      assert vs[..m] == Values(es[..m], env, other, leaf);
      var call := Binary(op, left, es[m]);
      assert seq(|call.inputs|, i requires 0 <= i < |call.inputs| => Eval(call.inputs[i], env, other, leaf))
          == [Eval(left, env, other, leaf), vs[m]];
    }
  }

  lemma ValuesAppend(a: seq<Expr>, b: seq<Expr>, env: nat -> Value,
                     other: (ExprType, DataType, seq<Value>) -> Value, leaf: Expr -> Value)
    ensures Values(a + b, env, other, leaf) == Values(a, env, other, leaf) + Values(b, env, other, leaf)
  {
  }

  /** A binary call of `AND` or `OR` evaluates to the connective on its inputs' values. */
  lemma EvalCall(e: Expr, op: ExprType, env: nat -> Value,
                 other: (ExprType, DataType, seq<Value>) -> Value, leaf: Expr -> Value)
    requires op == And || op == Or
    requires IsCall(e, op) && |e.inputs| == 2
    ensures Eval(e, env, other, leaf)
            == Connect(op, Eval(e.inputs[0], env, other, leaf), Eval(e.inputs[1], env, other, leaf))
  {
    assert seq(|e.inputs|, i requires 0 <= i < |e.inputs| => Eval(e.inputs[i], env, other, leaf))
        == [Eval(e.inputs[0], env, other, leaf), Eval(e.inputs[1], env, other, leaf)];
  }

  /** A binary call of the operator splits into the splits of its two inputs. */
  lemma SplitCall(e: Expr, op: ExprType)
    requires IsCall(e, op) && |e.inputs| == 2
    ensures Split(e, op) == Split(e.inputs[0], op) + Split(e.inputs[1], op)
  {
    var parts := seq(|e.inputs|, k requires 0 <= k < |e.inputs| => Split(e.inputs[k], op));
    assert parts == [Split(e.inputs[0], op), Split(e.inputs[1], op)];
    ConcatPair(Split(e.inputs[0], op), Split(e.inputs[1], op));
  }

  /** A well-formed expression evaluates to the join of its split by `AND` or `OR`. */
  lemma {:induction false} EvalSplit(e: Expr, op: ExprType, env: nat -> Value,
                                     other: (ExprType, DataType, seq<Value>) -> Value, leaf: Expr -> Value)
    requires op == And || op == Or
    requires WellFormed(e)
    ensures Eval(e, env, other, leaf) == Join(op, Values(Split(e, op), env, other, leaf))
    decreases e
  {
    if IsCall(e, op) {
      var a, b := e.inputs[0], e.inputs[1];
      SplitCall(e, op);
      EvalCall(e, op, env, other, leaf);
      EvalSplit(a, op, env, other, leaf);
      EvalSplit(b, op, env, other, leaf);
      ValuesAppend(Split(a, op), Split(b, op), env, other, leaf);
      JoinAppend(op, Values(Split(a, op), env, other, leaf), Values(Split(b, op), env, other, leaf));
    } else {
      assert Values([e], env, other, leaf)[..0] == [];
    }
  }

  /** A split into one part is the expression itself. */
  lemma SplitSingle(e: Expr, op: ExprType)
    requires op == And || op == Or
    requires WellFormed(e) && |Split(e, op)| == 1
    ensures Split(e, op) == [e]
  {
    if IsCall(e, op) {
      SplitCall(e, op);
      SplitWellFormed(e.inputs[0], op);
      SplitWellFormed(e.inputs[1], op);
    }
  }

  /** The drain takes every conjunct of the last disjunct out as a common factor or leaves it. */
  lemma {:induction false} DrainCovers(last: seq<Expr>, remaining: seq<seq<Expr>>, x: Expr)
    requires x in last
    ensures x in CommonFactors(last, remaining) || x in NotCommon(last, remaining)
  {
    var m := |last| - 1;
    if x != last[m] {
      assert x in last[..m];
      DrainCovers(last[..m], remaining, x);
    }
  }

  /** Every conjunct of every disjunct evaluates to a boolean or NULL, as type checking
      guarantees of the operands of `AND` and `OR`. */
  predicate ConjunctsBoolean(disj: seq<Expr>, env: nat -> Value,
                             other: (ExprType, DataType, seq<Value>) -> Value, leaf: Expr -> Value) {
    forall k, x :: 0 <= k < |disj| && x in ConjunctLists(disj)[k] ==> Boolish(Eval(x, env, other, leaf))
  }

  /** Each disjunct's conjuncts are exactly the common factors and its residual conjuncts. */
  lemma ResidualsPartition(conj: seq<seq<Expr>>, k: nat)
    requires k < |conj|
    ensures var gcd := CommonFactors(conj[|conj| - 1], conj[..|conj| - 1]);
            var res := Residuals(conj)[k];
            (forall x :: x in gcd ==> x in conj[k])
            && (forall x :: x in res ==> x in conj[k])
            && (forall x :: x in conj[k] ==> x in gcd || x in res)
  {
    var last, remaining := conj[|conj| - 1], conj[..|conj| - 1];
    var gcd := CommonFactors(last, remaining);
    if k == |conj| - 1 {
      assert Residuals(conj)[k] == NotCommon(last, remaining);
      forall x | x in last
        ensures x in gcd || x in NotCommon(last, remaining)
      {
        DrainCovers(last, remaining, x);
      }
    } else {
      assert Residuals(conj)[k] == Without(conj[k], gcd);
      assert conj[k] in remaining;
    }
  }

  /** A conjunction of booleans and NULLs is the AND of the factors and of the residuals
      that between them hold its conjuncts. */
  lemma ConjunctionFactored(d: seq<Expr>, gcd: seq<Expr>, res: seq<Expr>, env: nat -> Value,
                            other: (ExprType, DataType, seq<Value>) -> Value, leaf: Expr -> Value)
    requires forall x :: x in d ==> Boolish(Eval(x, env, other, leaf))
    requires forall x :: x in gcd ==> x in d
    requires forall x :: x in res ==> x in d
    requires forall x :: x in d ==> x in gcd || x in res
    ensures Join(And, Values(d, env, other, leaf))
            == AndV(Join(And, Values(gcd, env, other, leaf)), Join(And, Values(res, env, other, leaf)))
  {
    var a, b, c := Values(d, env, other, leaf), Values(gcd, env, other, leaf), Values(res, env, other, leaf);
    forall i | 0 <= i < |a|
      ensures Boolish(a[i])
    {
      assert d[i] in d;
    }
    forall v | v in b
      ensures v in a
    {
      var i :| 0 <= i < |b| && b[i] == v;
      ValueIn(gcd[i], d, env, other, leaf);
    }
    forall v | v in c
      ensures v in a
    {
      var i :| 0 <= i < |c| && c[i] == v;
      ValueIn(res[i], d, env, other, leaf);
    }
    forall v | v in a
      ensures v in b || v in c
    {
      var i :| 0 <= i < |a| && a[i] == v;
      if d[i] in gcd {
        ValueIn(d[i], gcd, env, other, leaf);
      } else {
        ValueIn(d[i], res, env, other, leaf);
      }
    }
    AndJoinCover(a, b, c);
  }

  /** The OR of the residual conjunctions evaluates to the OR of their ANDs. */
  lemma RemainderValue(res: seq<seq<Expr>>, env: nat -> Value,
                       other: (ExprType, DataType, seq<Value>) -> Value, leaf: Expr -> Value)
    ensures Eval(Remainder(res), env, other, leaf)
            == Join(Or, seq(|res|, k requires 0 <= k < |res| => Join(And, Values(res[k], env, other, leaf))))
  {
    var ms := seq(|res|, k requires 0 <= k < |res| => Merge(res[k], And, LiteralBool(true)));
    EvalMerge(ms, Or, env, other, leaf);
    forall k | 0 <= k < |res|
      ensures Eval(ms[k], env, other, leaf) == Join(And, Values(res[k], env, other, leaf))
    {
      EvalMerge(res[k], And, env, other, leaf);
    }
    assert Values(ms, env, other, leaf)
        == seq(|res|, k requires 0 <= k < |res| => Join(And, Values(res[k], env, other, leaf)));
  }

  /** The merged remainder of well-formed residual conjuncts is well formed. */
  lemma RemainderWellFormed(res: seq<seq<Expr>>)
    requires forall k :: 0 <= k < |res| ==> forall i :: 0 <= i < |res[k]| ==> WellFormed(res[k][i])
    ensures WellFormed(Remainder(res))
  {
    var ms := seq(|res|, k requires 0 <= k < |res| => Merge(res[k], And, LiteralBool(true)));
    forall k | 0 <= k < |res|
      ensures WellFormed(ms[k])
    {
      MergeWellFormed(res[k], And, LiteralBool(true));
    }
    MergeWellFormed(ms, Or, LiteralBool(false));
  }

  /** The value factorisation aims at: the `AND` of the common factors and of the remainder. */
  function FactoredValue(expr: Expr, env: nat -> Value,
                         other: (ExprType, DataType, seq<Value>) -> Value, leaf: Expr -> Value): Value
    requires WellFormed(expr) && |Split(expr, Or)| > 1
  {
    var conj := ConjunctLists(Split(expr, Or));
    var gcd := CommonFactors(conj[|conj| - 1], conj[..|conj| - 1]);
    AndV(Join(And, Values(gcd, env, other, leaf)), Eval(Remainder(Residuals(conj)), env, other, leaf))
  }

  /** With more than one disjunct the emitted list is the folded common factors followed
      by the folded remainder, and all of them are well formed. */
  lemma SpecShape(expr: Expr)
    requires WellFormed(expr) && |Split(expr, Or)| > 1
    ensures var conj := ConjunctLists(Split(expr, Or));
            var gcd := CommonFactors(conj[|conj| - 1], conj[..|conj| - 1]);
            var rem := Remainder(Residuals(conj));
            && (forall x :: x in gcd ==> WellFormed(x))
            && WellFormed(rem)
            && FactorizationSpec(expr) == FoldEach(gcd) + [FoldBooleanConstant(rem)]
  {
    var disj := Split(expr, Or);
    SplitWellFormed(expr, Or);
    FactorsWellFormed(disj);
    RemainderWellFormed(Residuals(ConjunctLists(disj)));
  }

  /** The emitted list, merged by `AND`, evaluates to the factored value. */
  lemma EmittedValue(expr: Expr, env: nat -> Value,
                     other: (ExprType, DataType, seq<Value>) -> Value, leaf: Expr -> Value)
    requires WellFormed(expr) && |Split(expr, Or)| > 1
    ensures Eval(Merge(FactorizationSpec(expr), And, LiteralBool(true)), env, other, leaf)
            == FactoredValue(expr, env, other, leaf)
  {
    var conj := ConjunctLists(Split(expr, Or));
    SpecShape(expr);
    FoldedFactorsValue(CommonFactors(conj[|conj| - 1], conj[..|conj| - 1]), Remainder(Residuals(conj)),
                       env, other, leaf);
  }

  /** The folded factors and the folded remainder, merged by `AND`, evaluate to the `AND` of
      the factors and of the remainder. */
  lemma FoldedFactorsValue(gcd: seq<Expr>, rem: Expr, env: nat -> Value,
                           other: (ExprType, DataType, seq<Value>) -> Value, leaf: Expr -> Value)
    requires (forall x :: x in gcd ==> WellFormed(x)) && WellFormed(rem)
    ensures var folded := FoldEach(gcd);
            Eval(Merge(folded + [FoldBooleanConstant(rem)], And, LiteralBool(true)), env, other, leaf)
            == AndV(Join(And, Values(gcd, env, other, leaf)), Eval(rem, env, other, leaf))
  {
    var folded := FoldEach(gcd);
    forall i | 0 <= i < |gcd|
      ensures Eval(folded[i], env, other, leaf) == Eval(gcd[i], env, other, leaf)
    {
      FoldSound(gcd[i], env, other, leaf);
    }
    FoldSound(rem, env, other, leaf);
    var vr := Eval(rem, env, other, leaf);
    ValuesAppend(folded, [FoldBooleanConstant(rem)], env, other, leaf);
    assert Values(folded, env, other, leaf) == Values(gcd, env, other, leaf);
    EvalMerge(folded + [FoldBooleanConstant(rem)], And, env, other, leaf);
    JoinAppend(And, Values(gcd, env, other, leaf), [vr]);
    assert [vr][..0] == [];
  }

  /** A disjunct evaluates to the AND of the common factors and of its residuals, and that
      residual AND is a boolean or NULL. */
  lemma DisjunctValue(disj: seq<Expr>, k: nat, env: nat -> Value,
                      other: (ExprType, DataType, seq<Value>) -> Value, leaf: Expr -> Value)
    requires k < |disj| && WellFormed(disj[k])
    requires forall x :: x in ConjunctLists(disj)[k] ==> Boolish(Eval(x, env, other, leaf))
    ensures var conj := ConjunctLists(disj);
            var res := Residuals(conj)[k];
            var gcd := CommonFactors(conj[|conj| - 1], conj[..|conj| - 1]);
            Eval(disj[k], env, other, leaf)
            == AndV(Join(And, Values(gcd, env, other, leaf)), Join(And, Values(res, env, other, leaf)))
            && Boolish(Join(And, Values(res, env, other, leaf)))
  {
    var conj := ConjunctLists(disj);
    var gcd := CommonFactors(conj[|conj| - 1], conj[..|conj| - 1]);
    var res := Residuals(conj)[k];
    ResidualsPartition(conj, k);
    EvalSplit(disj[k], And, env, other, leaf);
    ConjunctionFactored(conj[k], gcd, res, env, other, leaf);
    var vs := Values(res, env, other, leaf);
    forall i | 0 <= i < |vs|
      ensures Boolish(vs[i])
    {
      assert res[i] in conj[k];
    }
  }

  /** The `OR` of the disjuncts is the `AND` of the common factors and of the remainder,
      when every conjunct is a boolean or NULL. */
  lemma DisjunctionFactored(disj: seq<Expr>, env: nat -> Value,
                            other: (ExprType, DataType, seq<Value>) -> Value, leaf: Expr -> Value)
    requires |disj| > 0 && forall x :: x in disj ==> WellFormed(x)
    requires ConjunctsBoolean(disj, env, other, leaf)
    ensures var conj := ConjunctLists(disj);
            var gcd := CommonFactors(conj[|conj| - 1], conj[..|conj| - 1]);
            Join(Or, Values(disj, env, other, leaf))
            == AndV(Join(And, Values(gcd, env, other, leaf)), Eval(Remainder(Residuals(conj)), env, other, leaf))
  {
    var conj := ConjunctLists(disj);
    var res := Residuals(conj);
    var gcd := CommonFactors(conj[|conj| - 1], conj[..|conj| - 1]);
    var g := Join(And, Values(gcd, env, other, leaf));
    var ws := seq(|res|, k requires 0 <= k < |res| => Join(And, Values(res[k], env, other, leaf)));
    RemainderValue(res, env, other, leaf);
    var ds := Values(disj, env, other, leaf);
    forall k | 0 <= k < |ds|
      ensures ds[k] == AndV(g, ws[k]) && Boolish(ws[k])
    {
      assert disj[k] in disj;
      DisjunctValue(disj, k, env, other, leaf);
    }
    var l := |conj| - 1;
    forall i | 0 <= i < |gcd|
      ensures Boolish(Values(gcd, env, other, leaf)[i])
    {
      assert gcd[i] in conj[l];
    }
    OrOfCommonFactor(g, ws, ds);
  }

  /** The expression, split into several disjuncts of booleans and NULLs, evaluates to the
      factored value. */
  lemma ExpressionValue(expr: Expr, env: nat -> Value,
                        other: (ExprType, DataType, seq<Value>) -> Value, leaf: Expr -> Value)
    requires WellFormed(expr) && |Split(expr, Or)| > 1
    requires ConjunctsBoolean(Split(expr, Or), env, other, leaf)
    ensures Eval(expr, env, other, leaf) == FactoredValue(expr, env, other, leaf)
  {
    SplitWellFormed(expr, Or);
    EvalSplit(expr, Or, env, other, leaf);
    DisjunctionFactored(Split(expr, Or), env, other, leaf);
  }

  /** Factorising keeps the value of a predicate: the AND of the emitted factors and the
      folded remainder evaluates as the expression does, whenever every conjunct of every
      disjunct evaluates to a boolean or NULL. */
  lemma {:induction false} FactorizationSound(expr: Expr, env: nat -> Value,
                                              other: (ExprType, DataType, seq<Value>) -> Value, leaf: Expr -> Value)
    requires WellFormed(expr)
    requires ConjunctsBoolean(Split(expr, Or), env, other, leaf)
    ensures Eval(Merge(FactorizationSpec(expr), And, LiteralBool(true)), env, other, leaf) == Eval(expr, env, other, leaf)
  {
    SplitWellFormed(expr, Or);
    if |Split(expr, Or)| == 1 {
      SplitSingle(expr, Or);
    } else {
      EmittedValue(expr, env, other, leaf);
      ExpressionValue(expr, env, other, leaf);
    }
  }

  // ---------------------------------------------------------------------
  // Watermark derivation

  datatype WatermarkDerivation = Constant | Watermark(index: nat) | Nondecreasing | NotDerivable

  /** The type an expression returns. */
  function ReturnType(e: Expr): Option<DataType> {
    match e
    case InputRef(_, ty) => Some(ty)
    case Literal(_, ty) => Some(ty)
    case FunctionCall(_, _, ret) => Some(ret)
    case FunctionCallWithLambda(_, _, ret) => Some(ret)
    case _ => None
  }

  function ToAsciiLower(c: char): char {
    if 'A' <= c <= 'Z' then (c as int + 32) as char else c
  }

  /** `str::eq_ignore_ascii_case`. */
  predicate EqIgnoreAsciiCase(a: string, b: string) {
    |a| == |b| && forall i :: 0 <= i < |a| ==> ToAsciiLower(a[i]) == ToAsciiLower(b[i])
  }

  /** A literal time zone: `Some(None)` is a NULL literal, `None` a panic of `as_utf8` on a
      non-text scalar. */
  function LiteralZone(e: Expr): Option<Option<string>>
    requires e.Literal?
  {
    match e.data
    case None => Some(None)
    case Some(Utf8(s)) => Some(Some(s))
    case Some(_) => None
  }

  /** Whether `e` is a literal naming UTC; `ifNotLiteral` is the answer for a non-literal or a
      NULL. `None` is the `as_utf8` panic. */
  function IsUtcLiteral(e: Expr, ifNotLiteral: bool): Option<bool> {
    if !e.Literal? then Some(ifNotLiteral)
    else match LiteralZone(e)
      case None => None
      case Some(None) => Some(ifNotLiteral)
      case Some(Some(s)) => Some(EqIgnoreAsciiCase(s, "UTC"))
  }

  /** `try_derive_watermark`; `None` stands for the `unreachable!` and arity panics. */
  function DeriveWatermark(e: Expr): (r: Option<WatermarkDerivation>)
    decreases e, 1
  {
    match e
    case InputRef(i, _) => Some(Watermark(i))
    case Literal(_, _) => Some(Constant)
    case FunctionCall(f, ins, ret) => DeriveCall(e, f, ins, ret)
    case FunctionCallWithLambda(f, ins, ret) => DeriveCall(e, f, ins, ret)
    case TableFunction => Some(NotDerivable)
    case UserDefinedFunction => Some(NotDerivable)
    case _ => None
  }

  function DeriveAll(parent: Expr, ins: seq<Expr>): (r: Option<seq<WatermarkDerivation>>)
    requires forall i :: 0 <= i < |ins| ==> ins[i] < parent
    ensures r.Some? ==> |r.value| == |ins|
    ensures r.Some? ==> forall i :: 0 <= i < |ins| ==> DeriveWatermark(ins[i]) == Some(r.value[i])
    decreases parent, 0, |ins|
  {
    if |ins| == 0 then Some([])
    else
      match DeriveAll(parent, ins[..|ins| - 1])
      case None => None
      case Some(ds) =>
        match DeriveWatermark(ins[|ins| - 1])
        case None => None
        case Some(d) => Some(ds + [d])
  }

  function DeriveCall(parent: Expr, f: ExprType, ins: seq<Expr>, ret: DataType): (r: Option<WatermarkDerivation>)
    requires forall i :: 0 <= i < |ins| ==> ins[i] < parent
    decreases parent, 0, |ins| + 1
  {
    if f == Unspecified then None
    else if f == Add || f == Subtract || f == TumbleStart || f == Multiply || f == Divide || f == Modulus
            || f == AtTimeZone then
      if |ins| != 2 then None
      else match DeriveAll(parent, ins)
        case None => None
        case Some(ds) =>
          var (a, b) := (ds[0], ds[1]);
          if f == Add then
            match (a, b)
            case (Constant, Constant) => Some(Constant)
            case (Constant, Watermark(i)) => Some(Watermark(i))
            case (Watermark(i), Constant) => Some(Watermark(i))
            case (Constant, Nondecreasing) => Some(Nondecreasing)
            case (Nondecreasing, Constant) => Some(Nondecreasing)
            case _ => Some(NotDerivable)
          else if f == Subtract || f == TumbleStart then
            match (a, b)
            case (Constant, Constant) => Some(Constant)
            case (Watermark(i), Constant) => Some(Watermark(i))
            case (Nondecreasing, Constant) => Some(Nondecreasing)
            case _ => Some(NotDerivable)
          else if f == AtTimeZone then
            if a == Constant && b == Constant then Some(Constant)
            else if (a.Watermark? || a == Nondecreasing) && b == Constant then
              var utc := IsUtcLiteral(ins[1], false);
              var toTimestamptz := ret == Timestamptz && ReturnType(ins[0]) == Some(Timestamp);
              // the zone is only inspected when the conversion is not timestamp -> timestamptz
              if toTimestamptz then Some(a)
              else if utc.None? then None
              else if !utc.value then Some(NotDerivable)
              else Some(a)
            else Some(NotDerivable)
          else
            if a == Constant && b == Constant then Some(Constant) else Some(NotDerivable)
    else if f == AddWithTimeZone || f == SubtractWithTimeZone then
      if |ins| < 3 then None
      else if !ins[2].Literal? then Some(NotDerivable)
      else
        // the zone literal is read (and a non-string zone panics) before the interval is matched
        match LiteralZone(ins[2])
        case None => None
        case Some(zone) =>
          if !ins[1].Literal? then Some(NotDerivable)
          else if ins[1].data.Some? && !ins[1].data.value.IntervalValue? then None
          else
            var zoneWithoutDst := zone.None? || EqIgnoreAsciiCase(zone.value, "UTC");
            var quantitativeOnly := ins[1].data.None?
              || (ins[1].data.value.months == 0 && (ins[1].data.value.days == 0 || zoneWithoutDst));
            match DeriveWatermark(ins[0])
            case None => None
            case Some(Constant) => Some(Constant)
            case Some(Watermark(i)) => if quantitativeOnly then Some(Watermark(i)) else Some(NotDerivable)
            case Some(Nondecreasing) => if quantitativeOnly then Some(Nondecreasing) else Some(NotDerivable)
            case Some(NotDerivable) => Some(NotDerivable)
    else if f == DateTrunc then
      if |ins| == 2 then
        match DeriveAll(parent, ins)
        case None => None
        case Some(ds) => if ds[0] == Constant then Some(ds[1]) else Some(NotDerivable)
      else if |ins| == 3 then
        match DeriveAll(parent, ins)
        case None => None
        case Some(ds) =>
          if ds[0] == Constant && ds[1] == Constant && ds[2] == Constant then Some(Constant)
          else if ds[0] == Constant && (ds[1].Watermark? || ds[1] == Nondecreasing) && ds[2] == Constant then
            match IsUtcLiteral(ins[2], false)
            case None => None
            case Some(utc) => if utc then Some(ds[1]) else Some(NotDerivable)
          else Some(NotDerivable)
      else None
    else if f == ToTimestamp then
      if |ins| != 1 then None else DeriveWatermark(ins[0])
    else if f == Proctime then Some(Nondecreasing)
    else Some(NotDerivable)
  }

  /** The input columns an expression reads (through calls; other kinds read none here). */
  function InputRefs(e: Expr): set<nat> {
    match e
    case InputRef(i, _) => {i}
    case FunctionCall(_, ins, _) => set i, c | 0 <= i < |ins| && c in InputRefs(ins[i]) :: c
    case FunctionCallWithLambda(_, ins, _) => set i, c | 0 <= i < |ins| && c in InputRefs(ins[i]) :: c
    case _ => {}
  }

  lemma DeriveAllPair(parent: Expr, a: Expr, b: Expr)
    requires a < parent && b < parent
    ensures var da, db := DeriveWatermark(a), DeriveWatermark(b);
            DeriveAll(parent, [a, b]) == if da.Some? && db.Some? then Some([da.value, db.value]) else None
  {
    var da, db := DeriveWatermark(a), DeriveWatermark(b);
    var empty: seq<WatermarkDerivation> := [];
    assert [a, b][..1] == [a] && [a][..0] == [];
    assert DeriveAll(parent, [a][..0]) == Some(empty);
    var one := DeriveAll(parent, [a]);
    var two := DeriveAll(parent, [a, b]);
    if da.Some? {
      assert one == Some(empty + [da.value]);
      assert empty + [da.value] == [da.value];
      if db.Some? {
        assert two == Some([da.value] + [db.value]);
        assert [da.value] + [db.value] == [da.value, db.value];
      }
    }
  }

  /** A call derives a column's watermark only by passing on one of its inputs' watermarks. */
  lemma DeriveCallWatermarkFromInput(parent: Expr, f: ExprType, ins: seq<Expr>, ret: DataType, j: nat)
    requires forall i :: 0 <= i < |ins| ==> ins[i] < parent
    requires DeriveCall(parent, f, ins, ret) == Some(Watermark(j))
    ensures exists k :: 0 <= k < |ins| && DeriveWatermark(ins[k]) == Some(Watermark(j))
  {
    if f == AddWithTimeZone || f == SubtractWithTimeZone || f == ToTimestamp {
      assert DeriveWatermark(ins[0]) == Some(Watermark(j));
    } else if f == DateTrunc {
      var ds := DeriveAll(parent, ins).value;
      assert DeriveWatermark(ins[1]) == Some(ds[1]);
    } else {
      var ds := DeriveAll(parent, ins).value;
      assert DeriveWatermark(ins[0]) == Some(ds[0]) && DeriveWatermark(ins[1]) == Some(ds[1]);
    }
  }

  /** A derived watermark is always that of a column the expression reads. */
  lemma {:induction false} DerivationReadsInputs(e: Expr, j: nat)
    requires DeriveWatermark(e) == Some(Watermark(j))
    ensures j in InputRefs(e)
    decreases e
  {
    if e.FunctionCall? || e.FunctionCallWithLambda? {
      DeriveCallWatermarkFromInput(e, e.funcType, e.inputs, e.ret, j);
      var k :| 0 <= k < |e.inputs| && DeriveWatermark(e.inputs[k]) == Some(Watermark(j));
      DerivationReadsInputs(e.inputs[k], j);
      ReadsThroughInputs(e);
    }
  }

  lemma ReadsThroughInputs(e: Expr)
    requires e.FunctionCall? || e.FunctionCallWithLambda?
    ensures forall i :: 0 <= i < |e.inputs| ==> InputRefs(e.inputs[i]) <= InputRefs(e)
  {
  }

  /** A column reference derives its own watermark, a literal is constant, `proctime()` is
      nondecreasing. */
  lemma WatermarkLeaves(i: nat, ty: DataType, d: Option<Scalar>, ret: DataType)
    ensures DeriveWatermark(InputRef(i, ty)) == Some(Watermark(i))
    ensures DeriveWatermark(Literal(d, ty)) == Some(Constant)
    ensures DeriveWatermark(FunctionCall(Proctime, [], ret)) == Some(Nondecreasing)
  {
  }

  /** `+` treats its operands alike. */
  lemma AddSymmetric(a: Expr, b: Expr, ret: DataType)
    ensures DeriveWatermark(FunctionCall(Add, [a, b], ret)) == DeriveWatermark(FunctionCall(Add, [b, a], ret))
  {
    var ab, ba := FunctionCall(Add, [a, b], ret), FunctionCall(Add, [b, a], ret);
    assert a in ab.inputs && b in ab.inputs && a in ba.inputs && b in ba.inputs;
    DeriveAllPair(ab, a, b);
    DeriveAllPair(ba, b, a);
  }

  /** `a - b` keeps a watermark only when `a` has one and `b` is constant. */
  /** With a zone literal that is not a string, `ADD/SUBTRACT WITH TIME ZONE` panics (`None`)
      whatever the interval input is: the zone is read first. */
  lemma NonStringZonePanics(f: ExprType, x: Expr, interval: Expr, zone: Scalar, zoneType: DataType, ret: DataType)
    requires f == AddWithTimeZone || f == SubtractWithTimeZone
    requires !zone.Utf8?
    ensures DeriveWatermark(FunctionCall(f, [x, interval, Literal(Some(zone), zoneType)], ret)) == None
  {
  }

  /** A string or null zone literal with an interval input that is not a literal derives nothing. */
  lemma NonLiteralIntervalNotDerivable(f: ExprType, x: Expr, interval: Expr, zone: Option<Scalar>,
                                       zoneType: DataType, ret: DataType)
    requires f == AddWithTimeZone || f == SubtractWithTimeZone
    requires zone.None? || zone.value.Utf8?
    requires !interval.Literal?
    ensures DeriveWatermark(FunctionCall(f, [x, interval, Literal(zone, zoneType)], ret)) == Some(NotDerivable)
  {
  }

  lemma SubtractKeepsLeftWatermark(f: ExprType, a: Expr, b: Expr, ret: DataType, j: nat)
    requires f == Subtract || f == TumbleStart
    requires DeriveWatermark(FunctionCall(f, [a, b], ret)) == Some(Watermark(j))
    ensures DeriveWatermark(a) == Some(Watermark(j)) && DeriveWatermark(b) == Some(Constant)
  {
    var sub := FunctionCall(f, [a, b], ret);
    assert a in sub.inputs && b in sub.inputs;
    DeriveAllPair(sub, a, b);
  }

  /** `*`, `/` and `%` derive a constant from two constants and nothing else. */
  lemma ArithmeticOnlyConstant(f: ExprType, a: Expr, b: Expr, ret: DataType)
    requires f == Multiply || f == Divide || f == Modulus
    ensures DeriveWatermark(FunctionCall(f, [a, b], ret)) == Some(Constant) <==>
              DeriveWatermark(a) == Some(Constant) && DeriveWatermark(b) == Some(Constant)
    ensures DeriveWatermark(FunctionCall(f, [a, b], ret)) != Some(Constant) ==>
              DeriveWatermark(FunctionCall(f, [a, b], ret)) in {None, Some(NotDerivable)}
  {
    var call := FunctionCall(f, [a, b], ret);
    assert a in call.inputs && b in call.inputs;
    DeriveAllPair(call, a, b);
  }
}

/**
  The tree-walking interpreter of Evaluator.cs. `Evaluate` and `EvaluateBinary`
  are pure over the environment; statement execution is specified by `Exec` and
  `Run`, and the class `Evaluator` holds the `_env` dictionary that persists
  across `Execute` calls.
*/
module Evaluation {
  import opened TokenTypes
  import opened Errors
  import opened CSharpInt
  import opened Ast

  type Env = map<string, Int>

  /** The operator switch of `EvaluateBinary`, applied to the two operand values. */
  function Apply(op: TokenKind, a: Int, b: Int): (r: Result<Int>)
    ensures r.Failure? <==> !IsArithmetic(op) || (op == Slash && Div(a, b).Failure?)
    ensures r.Failure? && !IsArithmetic(op) ==> r.error == UnknownOperator(op)
    ensures op == Slash ==> r == Div(a, b)
  {
    match op
    case Plus => Success(Add(a, b))
    case Minus => Success(Sub(a, b))
    case Star => Success(Mul(a, b))
    case Slash => Div(a, b)
    case _ => Failure(UnknownOperator(op))
  }

  /**
    A number is its value; a variable its binding, or "Undefined variable" when
    unbound; a binary node evaluates through `EvaluateBinary`. A success read
    only bound variables, and an undefined-variable failure names an unbound
    variable of `e`.
  */
  function Evaluate(env: Env, e: Expr): (r: Result<Int>)
    ensures r.Success? ==> Vars(e) <= env.Keys
    ensures r.Failure? && r.error.UndefinedVariable? ==> r.error.name in Vars(e) && r.error.name !in env
    ensures r.Failure? ==>
      r.error.UndefinedVariable? || r.error.DivideByZero? || r.error.DivisionOverflow? || r.error.UnknownOperator?
    decreases e, 1
  {
    match e
    case NumberExpr(v) => Success(v)
    case VariableExpr(name) => if name in env then Success(env[name]) else Failure(UndefinedVariable(name))
    case BinaryExpr(_, _, _) => EvaluateBinary(env, e)
  }

  /** Evaluates the left operand fully, then the right one, then applies the operator. */
  function EvaluateBinary(env: Env, b: Expr): (r: Result<Int>)
    requires b.BinaryExpr?
    ensures r.Success? ==> Vars(b) <= env.Keys
    ensures r.Failure? && r.error.UndefinedVariable? ==> r.error.name in Vars(b) && r.error.name !in env
    ensures r.Failure? ==>
      r.error.UndefinedVariable? || r.error.DivideByZero? || r.error.DivisionOverflow? || r.error.UnknownOperator?
    decreases b, 0
  {
    var left :- Evaluate(env, b.left);
    var right :- Evaluate(env, b.right);
    Apply(b.op, left, right)
  }

  /** The first failure in left-to-right order is the one reported. */
  lemma LeftBeforeRight(env: Env, l: Expr, op: TokenKind, r: Expr)
    ensures Evaluate(env, l).Failure? ==> Evaluate(env, BinaryExpr(l, op, r)) == Failure(Evaluate(env, l).error)
    ensures Evaluate(env, l).Success? && Evaluate(env, r).Failure? ==>
      Evaluate(env, BinaryExpr(l, op, r)) == Failure(Evaluate(env, r).error)
  {
  }

  /** Evaluation reads only the variables of the expression. */
  lemma {:induction false} EvaluateReadsOnlyVars(env1: Env, env2: Env, e: Expr)
    requires forall x :: x in Vars(e) ==> (x in env1 <==> x in env2)
    requires forall x :: x in Vars(e) && x in env1 ==> env1[x] == env2[x]
    ensures Evaluate(env1, e) == Evaluate(env2, e)
  {
    match e
    case NumberExpr(_) =>
    case VariableExpr(_) =>
    case BinaryExpr(l, _, r) =>
      EvaluateReadsOnlyVars(env1, env2, l);
      EvaluateReadsOnlyVars(env1, env2, r);
  }

  /** The expression uses only `+`, `-` and `*`. */
  predicate DivisionFree(e: Expr)
  {
    match e
    case NumberExpr(_) => true
    case VariableExpr(_) => true
    case BinaryExpr(l, op, r) => (op == Plus || op == Minus || op == Star) && DivisionFree(l) && DivisionFree(r)
  }

  /** The value of an expression in unbounded integer arithmetic (division is not used). */
  function Exact(env: Env, e: Expr): int
    requires Vars(e) <= env.Keys
  {
    match e
    case NumberExpr(v) => v
    case VariableExpr(name) => env[name]
    case BinaryExpr(l, op, r) => ExactOp(op, Exact(env, l), Exact(env, r))
  }

  /** `+`, `-` or `*` on unbounded integers. */
  function ExactOp(op: TokenKind, a: int, b: int): int
  {
    if op == Plus then a + b else if op == Minus then a - b else a * b
  }

  /**
    Wrap-around at every step is wrap-around once at the end: without division,
    the 32-bit result is the exact result reduced modulo 2^32, and it never fails
    when every variable is bound.
  */
  lemma {:induction false} WrapsExact(env: Env, e: Expr)
    requires DivisionFree(e) && Vars(e) <= env.Keys
    ensures Evaluate(env, e) == Success(Wrap(Exact(env, e)))
  {
    match e
    case NumberExpr(v) =>
    case VariableExpr(_) =>
    case BinaryExpr(l, op, r) =>
      WrapsExact(env, l);
      WrapsExact(env, r);
      WrapsBinary(env, l, op, r);
  }

  /** The step of `WrapsExact` at a binary node, given its operands' values. */
  lemma WrapsBinary(env: Env, l: Expr, op: TokenKind, r: Expr)
    requires DivisionFree(BinaryExpr(l, op, r)) && Vars(BinaryExpr(l, op, r)) <= env.Keys
    requires Evaluate(env, l) == Success(Wrap(Exact(env, l))) && Evaluate(env, r) == Success(Wrap(Exact(env, r)))
    ensures Evaluate(env, BinaryExpr(l, op, r)) == Success(Wrap(Exact(env, BinaryExpr(l, op, r))))
  {
    ApplyWraps(op, Exact(env, l), Exact(env, r));
  }

  /** Applying `+`, `-` or `*` to wrapped operands wraps the exact result. */
  lemma ApplyWraps(op: TokenKind, x: int, y: int)
    requires op == Plus || op == Minus || op == Star
    ensures Apply(op, Wrap(x), Wrap(y)) == Success(Wrap(ExactOp(op, x, y)))
  {
    if op == Plus {
      WrapAdd(x, y);
    } else if op == Minus {
      WrapSub(x, y);
    } else {
      WrapMul(x, y);
    }
  }

  /**
    One statement (`ExecuteStatement`): print evaluates and writes the value;
    assignment evaluates and binds; a nested block is an unknown statement.
    Assignment changes the one binding it names, print changes none, and a
    failing statement changes nothing.
  */
  function Exec(env: Env, s: Stmt): (r: Result<(Env, seq<Int>)>)
    ensures r.Failure? <==>
      s.BlockStmt? || (s.PrintStmt? && Evaluate(env, s.expr).Failure?) || (s.AssignStmt? && Evaluate(env, s.value).Failure?)
    ensures r.Success? && s.PrintStmt? ==> r.value == (env, [Evaluate(env, s.expr).value])
    ensures r.Success? && s.AssignStmt? ==>
      && r.value.1 == []
      && r.value.0.Keys == env.Keys + {s.name}
      && r.value.0[s.name] == Evaluate(env, s.value).value
      && (forall x :: x in env && x != s.name ==> r.value.0[x] == env[x])
  {
    match s
    case PrintStmt(e) =>
      var v :- Evaluate(env, e);
      Success((env, [v]))
    case AssignStmt(name, e) =>
      var v :- Evaluate(env, e);
      Success((env[name := v], []))
    case BlockStmt(_) => Failure(UnknownStatement)
  }

  /** The observable effect of running statements: final environment, values written, failure if any. */
  datatype Trace = Trace(env: Env, printed: seq<Int>, failure: Option<Error>)

  /** `printed` written first, then the trace `t`. */
  function Then(printed: seq<Int>, t: Trace): Trace
  {
    Trace(t.env, printed + t.printed, t.failure)
  }

  /** The names a statement list assigns. */
  function Assigned(stmts: seq<Stmt>): set<string>
  {
    if stmts == [] then {}
    else (if stmts[0].AssignStmt? then {stmts[0].name} else {}) + Assigned(stmts[1..])
  }

  /**
    `Execute`: the statements in order against one environment; the first failure
    stops the run and what came before it stays. Bindings are only ever added
    or overwritten, and only by assignments.
  */
  function Run(env: Env, stmts: seq<Stmt>): (t: Trace)
    ensures env.Keys <= t.env.Keys <= env.Keys + Assigned(stmts)
    ensures forall x :: x in env && x !in Assigned(stmts) ==> t.env[x] == env[x]
    ensures |t.printed| <= |stmts|
    decreases stmts
  {
    if stmts == [] then Trace(env, [], None)
    else
      match Exec(env, stmts[0])
      case Failure(e) => Trace(env, [], Some(e))
      case Success(step) => Then(step.1, Run(step.0, stmts[1..]))
  }

  /**
    Running `a + b` is running `a` and then, unless `a` failed, running `b` from
    where `a` left the environment: a failure keeps earlier effects and skips
    later statements, and two `Execute` calls on one evaluator are one run of the
    concatenated statements.
  */
  lemma {:induction false} RunAppend(env: Env, a: seq<Stmt>, b: seq<Stmt>)
    ensures Run(env, a + b) ==
      var t := Run(env, a);
      if t.failure.Some? then t else Then(t.printed, Run(t.env, b))
    decreases a
  {
    if a == [] {
      assert a + b == b;
    } else {
      assert (a + b)[0] == a[0] && (a + b)[1..] == a[1..] + b;
      match Exec(env, a[0])
      case Failure(e) =>
      case Success(step) =>
        RunAppend(step.0, a[1..], b);
        var t := Run(step.0, a[1..]);
        if t.failure.None? {
          assert step.1 + (t.printed + Run(t.env, b).printed) == (step.1 + t.printed) + Run(t.env, b).printed;
        }
    }
  }

  lemma RunStep(env: Env, stmts: seq<Stmt>)
    requires stmts != []
    ensures Exec(env, stmts[0]).Failure? ==> Run(env, stmts) == Trace(env, [], Some(Exec(env, stmts[0]).error))
    ensures Exec(env, stmts[0]).Success? ==>
      Run(env, stmts) == Then(Exec(env, stmts[0]).value.1, Run(Exec(env, stmts[0]).value.0, stmts[1..]))
  {
  }

  lemma ThenThen(a: seq<Int>, b: seq<Int>, t: Trace)
    ensures Then(a, Then(b, t)) == Then(a + b, t)
  {
    assert a + (b + t.printed) == (a + b) + t.printed;
  }

  /** The evaluator of Evaluator.cs: the environment is a field, so it outlives each `Execute`. */
  class Evaluator {
    var env: Env

    constructor()
      ensures env == map[]
    {
      env := map[];
    }

    /** Runs one statement and returns what it wrote; on failure the environment is untouched. */
    method ExecuteStatement(s: Stmt) returns (r: Result<seq<Int>>)
      modifies this
      ensures r.Success? <==> Exec(old(env), s).Success?
      ensures r.Success? ==> r.value == Exec(old(env), s).value.1 && env == Exec(old(env), s).value.0
      ensures r.Failure? ==> r.error == Exec(old(env), s).error && env == old(env)
    {
      match s {
        case PrintStmt(e) =>
          var v := Evaluate(env, e);
          if v.Failure? {
            return Failure(v.error);
          }
          r := Success([v.value]);
        case AssignStmt(name, e) =>
          var v := Evaluate(env, e);
          if v.Failure? {
            return Failure(v.error);
          }
          env := env[name := v.value];
          r := Success([]);
        case BlockStmt(_) =>
          r := Failure(UnknownStatement);
      }
    }

    /** Runs the block's statements in order and returns the values written and the failure, if any. */
    method Execute(block: Stmt) returns (printed: seq<Int>, failure: Option<Error>)
      requires block.BlockStmt?
      modifies this
      ensures Trace(env, printed, failure) == Run(old(env), block.statements)
    {
      var stmts := block.statements;
      printed, failure := [], None;
      for i := 0 to |stmts|
        invariant Run(old(env), stmts) == Then(printed, Run(env, stmts[i..]))
      {
        ghost var before := env;
        var out := ExecuteStatement(stmts[i]);
        RunStep(before, stmts[i..]);
        assert stmts[i..][1..] == stmts[i + 1..];
        if out.Failure? {
          failure := Some(out.error);
          return;
        }
        ThenThen(printed, out.value, Run(env, stmts[i + 1..]));
        printed := printed + out.value;
      }
    }
  }
}

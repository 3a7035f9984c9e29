/** Running a checked program (compile.ts): the values a proof evaluates to
    (`propObject`), the implementations the checker builds for every
    expression, and the printer used by `console.log`. The source builds
    its implementations as asynchronous closures; here they are terms of
    `Impl`, run by `Run`, and a closure value holds its parameter, its body
    and the context it was built in. */
module Runtime {
  import opened Wrappers
  import opened Decimal
  import opened Types
  import opened Ast

  datatype Side = LeftSide | RightSide

  function SideName(s: Side): string {
    match s
    case LeftSide => "left"
    case RightSide => "right"
  }

  /** The three string values: the witnesses of `never`, of an equality
      and of `sorry`. */
  datatype Token = NeverToken | EqToken | SorryToken

  function TokenText(t: Token): string {
    match t
    case NeverToken => "(never)"
    case EqToken => "(eq)"
    case SorryToken => "(sorry)"
  }

  /** `propObject`: a number, a token, a function, a `{left, right}` pair,
      a `{left}` or `{right}` injection, or a `{num, prop}` witness. */
  datatype Value =
    | VNum(n: nat)
    | VToken(token: Token)
    | VClosure(param: string, body: Impl, env: map<string, Value>)
    | VPair(left: Value, right: Value)
    | VInjected(side: Side, inner: Value)
    | VExists(num: nat, prop: Value)

  /** The implementation of an expression: what it computes from the
      implementation context. */
  datatype Impl =
    | IConst(v: Value)
    | IVar(name: string)
    | IFail(msg: string)
    | ILambda(param: string, body: Impl)
    | IApply(fn: Impl, arg: Impl)
    | ISucc(arg: Impl)
    | IArith(op: ArithOp, left: Impl, right: Impl)
    | IPair(first: Impl, second: Impl)
    | IInject(side: Side, value: Impl)
    | IProject(side: Side, value: Impl)
    | IExists(numImpl: Impl, propImpl: Impl)
    | ISwitch(scrutinee: Impl, leftName: string, leftBody: Impl, rightName: string, rightBody: Impl)
    | IFor(bound: Impl, base: Impl, iterName: string, proofName: string, step: Impl)
    | IBlock(stmts: seq<ImplStmt>, result: Impl)

  /** A statement of a block as the implementation replays it: a `const`,
      or a destructuring of a `{num, prop}` witness. */
  datatype ImplStmt =
    | BindConst(varName: string, value: Impl)
    | BindExists(numName: string, propName: string, source: Impl)

  type Env = map<string, Value>

  const OutOfFuel: string := "evaluation ran out of fuel"
  const NotAFunction: string := "left of call must be a function"
  const SuccNonInteger: string := "runtime error: succ impl got non-integer"
  const ArithNonInteger: string := "arithmetic impl got non-integer"
  const DotNonPair: string := "runtime error: . operator on non-&& object"
  const StructNumNotNumber: string := "runtime error: struct number field must be bigint"
  const StructPropNumber: string := "runtime error: struct prop field must be prop"
  const SwitchNeither: string := "switch impl got neither left nor right"
  const BoundNotNumber: string := "runtime error: bound must be bigint"
  const MultiConstNotObject: string := "runtime error: multi const didnt get object"
  const UndefinedType: string := "Cannot read properties of undefined (reading 'type')"

  function MissingVariable(name: string): string {
    "runtime error: variable " + name + " not in context"
  }

  /** Runs an implementation in a context, with `fuel` bounding the depth
      of evaluation. */
  function Run(i: Impl, env: Env, fuel: nat): Result<Value>
    decreases fuel, 0
  {
    if fuel == 0 then Err(OutOfFuel)
    else
      match i
      case IConst(v) => Ok(v)
      case IVar(x) => if x in env then Ok(env[x]) else Err(MissingVariable(x))
      case IFail(msg) => Err(msg)
      case ILambda(p, body) => Ok(VClosure(p, body, env))
      case IApply(f, a) =>
        var fv :- Run(f, env, fuel - 1);
        var av :- Run(a, env, fuel - 1);
        Apply(fv, av, fuel - 1)
      case ISucc(a) =>
        var v :- Run(a, env, fuel - 1);
        if v.VNum? then Ok(VNum(v.n + 1)) else Err(SuccNonInteger)
      case IArith(op, l, r) =>
        var lv :- Run(l, env, fuel - 1);
        var rv :- Run(r, env, fuel - 1);
        if !lv.VNum? || !rv.VNum? then Err(ArithNonInteger)
        else if op == Plus then Ok(VNum(lv.n + rv.n)) else Ok(VNum(lv.n * rv.n))
      case IPair(l, r) =>
        var lv :- Run(l, env, fuel - 1);
        var rv :- Run(r, env, fuel - 1);
        Ok(VPair(lv, rv))
      case IInject(side, v) =>
        var x :- Run(v, env, fuel - 1);
        Ok(VInjected(side, x))
      case IProject(side, v) =>
        var x :- Run(v, env, fuel - 1);
        if !x.VPair? then Err(DotNonPair)
        else if side == LeftSide then Ok(x.left) else Ok(x.right)
      case IExists(n, p) =>
        var nv :- Run(n, env, fuel - 1);
        var pv :- Run(p, env, fuel - 1);
        if !nv.VNum? then Err(StructNumNotNumber)
        else if pv.VNum? then Err(StructPropNumber)
        else Ok(VExists(nv.n, pv))
      case ISwitch(v, ln, lb, rn, rb) =>
        var x :- Run(v, env, fuel - 1);
        Dispatch(x, env, ln, lb, rn, rb, fuel - 1)
      case IFor(bound, base, iterName, proofName, step) =>
        var b :- Run(bound, env, fuel - 1);
        if !b.VNum? then Err(BoundNotNumber)
        else
          var prop :- Run(base, env, fuel - 1);
          ForFrom(step, env, iterName, proofName, 0, b.n, prop, fuel - 1)
      case IBlock(stmts, result) =>
        var env' :- RunStatements(stmts, 0, env, fuel - 1);
        Run(result, env', fuel - 1)
  }

  /** A call: only a function can be applied. */
  function Apply(f: Value, a: Value, fuel: nat): Result<Value>
    decreases fuel, 0
  {
    if fuel == 0 then Err(OutOfFuel)
    else
      match f
      case VClosure(p, body, cenv) => Run(body, cenv[p := a], fuel - 1)
      case _ => Err(NotAFunction)
  }

  /** A `switch` runs the case of the one side the value is injected on. */
  function Dispatch(x: Value, env: Env, ln: string, lb: Impl, rn: string, rb: Impl, fuel: nat): Result<Value>
    decreases fuel, 0
  {
    if fuel == 0 then Err(OutOfFuel)
    else
      match x
      case VInjected(LeftSide, v) => Run(lb, env[ln := v], fuel - 1)
      case VInjected(RightSide, v) => Run(rb, env[rn := v], fuel - 1)
      case _ => Err(SwitchNeither)
  }

  /** The `for` evaluator from index `k` up to `bound`: each step gets the
      index and the property so far and returns the next property. */
  function ForFrom(step: Impl, env: Env, iterName: string, proofName: string, k: nat, bound: nat, prop: Value, fuel: nat): Result<Value>
    decreases fuel, bound - k
  {
    if k >= bound then Ok(prop)
    else if fuel == 0 then Err(OutOfFuel)
    else
      var next :- Run(step, env[iterName := VNum(k)][proofName := prop], fuel - 1);
      ForFrom(step, env, iterName, proofName, k + 1, bound, next, fuel)
  }

  /** Replays the statements of a block from the `k`-th on. */
  function RunStatements(stmts: seq<ImplStmt>, k: nat, env: Env, fuel: nat): Result<Env>
    decreases fuel, |stmts| - k
  {
    if k >= |stmts| then Ok(env)
    else if fuel == 0 then Err(OutOfFuel)
    else
      var env' :- UpdateContext(stmts[k], env, fuel - 1);
      RunStatements(stmts, k + 1, env', fuel)
  }

  /** One statement's effect on the implementation context. */
  function UpdateContext(st: ImplStmt, env: Env, fuel: nat): Result<Env>
    decreases fuel, 1
  {
    match st
    case BindConst(x, v) =>
      var val :- Run(v, env, fuel);
      Ok(env[x := val])
    case BindExists(n, p, v) =>
      var val :- Run(v, env, fuel);
      if val.VExists? then Ok(env[n := VNum(val.num)][p := val.prop])
      else Err(MultiConstNotObject)
  }

  /** The statement loop of a block's implementation: each statement
      updates the context in turn. */
  method RunStatementsLoop(stmts: seq<ImplStmt>, env: Env, fuel: nat) returns (r: Result<Env>)
    ensures r == RunStatements(stmts, 0, env, fuel)
  {
    var ctx := env;
    var k := 0;
    while k < |stmts|
      invariant k <= |stmts|
      invariant RunStatements(stmts, k, ctx, fuel) == RunStatements(stmts, 0, env, fuel)
      decreases |stmts| - k
    {
      if fuel == 0 {
        return Err(OutOfFuel);
      }
      var next := UpdateContext(stmts[k], ctx, fuel - 1);
      if next.Err? {
        return Err(next.msg);
      }
      ctx := next.value;
      k := k + 1;
    }
    r := Ok(ctx);
  }

  /** The loop of the `for` evaluator. */
  method ForLoop(step: Impl, env: Env, iterName: string, proofName: string, bound: nat, base: Value, fuel: nat)
    returns (r: Result<Value>)
    ensures r == ForFrom(step, env, iterName, proofName, 0, bound, base, fuel)
  {
    var prop := base;
    var k := 0;
    while k < bound
      invariant k <= bound
      invariant ForFrom(step, env, iterName, proofName, k, bound, prop, fuel) == ForFrom(step, env, iterName, proofName, 0, bound, base, fuel)
      decreases bound - k
    {
      if fuel == 0 {
        return Err(OutOfFuel);
      }
      var next := Run(step, env[iterName := VNum(k)][proofName := prop], fuel - 1);
      if next.Err? {
        return Err(next.msg);
      }
      prop := next.value;
      k := k + 1;
    }
    r := Ok(prop);
  }

  // ---------------------------------------------------------------------
  // Properties of evaluation

  /** A loop with bound 0 evaluates to its base. */
  lemma ForZeroSteps(step: Impl, env: Env, iterName: string, proofName: string, base: Value, fuel: nat)
    ensures ForFrom(step, env, iterName, proofName, 0, 0, base, fuel) == Ok(base)
  {
  }

  /** Continues a loop from index `m` when the first part succeeded. */
  function ContinueFrom(r: Result<Value>, step: Impl, env: Env, iterName: string, proofName: string, m: nat, bound: nat, fuel: nat): Result<Value> {
    match r
    case Ok(mid) => ForFrom(step, env, iterName, proofName, m, bound, mid, fuel)
    case Err(msg) => Err(msg)
  }

  /** Running `bound` steps is running the first `m` of them and then the
      rest from where they left off. */
  lemma {:induction false} ForSplit(step: Impl, env: Env, iterName: string, proofName: string, k: nat, m: nat, bound: nat, prop: Value, fuel: nat)
    requires k <= m <= bound
    ensures ForFrom(step, env, iterName, proofName, k, bound, prop, fuel)
         == ContinueFrom(ForFrom(step, env, iterName, proofName, k, m, prop, fuel), step, env, iterName, proofName, m, bound, fuel)
    decreases m - k
  {
    if k < m && fuel > 0 {
      var r := Run(step, env[iterName := VNum(k)][proofName := prop], fuel - 1);
      if r.Ok? {
        ForSplit(step, env, iterName, proofName, k + 1, m, bound, r.value, fuel);
        assert ForFrom(step, env, iterName, proofName, k, m, prop, fuel) == ForFrom(step, env, iterName, proofName, k + 1, m, r.value, fuel);
        assert ForFrom(step, env, iterName, proofName, k, bound, prop, fuel) == ForFrom(step, env, iterName, proofName, k + 1, bound, r.value, fuel);
      }
    }
  }

  /** The last step of a loop gets the last index, `bound - 1`. */
  lemma ForLastStep(step: Impl, env: Env, iterName: string, proofName: string, bound: nat, base: Value, fuel: nat)
    requires bound > 0 && fuel > 0
    ensures ForFrom(step, env, iterName, proofName, 0, bound, base, fuel)
         == (match ForFrom(step, env, iterName, proofName, 0, bound - 1, base, fuel)
             case Ok(mid) => Run(step, env[iterName := VNum(bound - 1)][proofName := mid], fuel - 1)
             case Err(msg) => Err(msg))
  {
    ForSplit(step, env, iterName, proofName, 0, bound - 1, bound, base, fuel);
    assert ContinueFrom(Ok(base), step, env, iterName, proofName, 0, 0, fuel) == Ok(base);
    match ForFrom(step, env, iterName, proofName, 0, bound - 1, base, fuel)
    case Err(_) =>
    case Ok(mid) =>
      match Run(step, env[iterName := VNum(bound - 1)][proofName := mid], fuel - 1)
      case Err(_) =>
      case Ok(next) =>
        assert ForFrom(step, env, iterName, proofName, bound, bound, next, fuel) == Ok(next);
  }

  /** A step that always returns the same value makes every loop with a
      positive bound return that value. */
  lemma {:induction false} ForConstantStep(v: Value, env: Env, iterName: string, proofName: string, k: nat, bound: nat, prop: Value, fuel: nat)
    requires k < bound && fuel > 1
    ensures ForFrom(IConst(v), env, iterName, proofName, k, bound, prop, fuel) == Ok(v)
    decreases bound - k
  {
    if k + 1 < bound {
      ForConstantStep(v, env, iterName, proofName, k + 1, bound, v, fuel);
    }
  }

  /** A switch on `{left: v}` runs the left case with its binder bound to
      `v`, and symmetrically; anything else is a runtime error. */
  lemma DispatchOnTag(x: Value, env: Env, ln: string, lb: Impl, rn: string, rb: Impl, fuel: nat)
    requires fuel > 0
    ensures x.VInjected? && x.side == LeftSide ==> Dispatch(x, env, ln, lb, rn, rb, fuel) == Run(lb, env[ln := x.inner], fuel - 1)
    ensures x.VInjected? && x.side == RightSide ==> Dispatch(x, env, ln, lb, rn, rb, fuel) == Run(rb, env[rn := x.inner], fuel - 1)
    ensures !x.VInjected? ==> Dispatch(x, env, ln, lb, rn, rb, fuel) == Err(SwitchNeither)
  {
  }

  /** A block binds its `const`s in order, each seeing the ones before. */
  lemma BlockBindsInOrder(x: string, vx: Impl, y: string, vy: Impl, result: Impl, env: Env, fuel: nat)
    requires fuel > 2
    requires Run(vx, env, fuel - 2).Ok?
    requires Run(vy, env[x := Run(vx, env, fuel - 2).value], fuel - 2).Ok?
    ensures Run(IBlock([BindConst(x, vx), BindConst(y, vy)], result), env, fuel)
         == Run(result, env[x := Run(vx, env, fuel - 2).value][y := Run(vy, env[x := Run(vx, env, fuel - 2).value], fuel - 2).value], fuel - 1)
  {
    var stmts := [BindConst(x, vx), BindConst(y, vy)];
    var e1 := env[x := Run(vx, env, fuel - 2).value];
    var e2 := e1[y := Run(vy, e1, fuel - 2).value];
    assert UpdateContext(stmts[0], env, fuel - 2) == Ok(e1);
    assert UpdateContext(stmts[1], e1, fuel - 2) == Ok(e2);
    assert RunStatements(stmts, 2, e2, fuel - 1) == Ok(e2);
    assert RunStatements(stmts, 1, e1, fuel - 1) == Ok(e2);
    assert RunStatements(stmts, 0, env, fuel - 1) == Ok(e2);
  }

  /** Continues replaying a block with `rest` when the first part
      succeeded. */
  function ThenStatements(r: Result<Env>, rest: seq<ImplStmt>, fuel: nat): Result<Env> {
    match r
    case Ok(env) => RunStatements(rest, 0, env, fuel)
    case Err(msg) => Err(msg)
  }

  /** Replaying after a prefix is replaying the remaining statements on
      their own. */
  lemma {:induction false} RunStatementsShift(pre: seq<ImplStmt>, rest: seq<ImplStmt>, j: nat, env: Env, fuel: nat)
    requires j <= |rest|
    ensures RunStatements(pre + rest, |pre| + j, env, fuel) == RunStatements(rest, j, env, fuel)
    decreases |rest| - j
  {
    if j < |rest| && fuel > 0 {
      assert (pre + rest)[|pre| + j] == rest[j];
      var r := UpdateContext(rest[j], env, fuel - 1);
      if r.Ok? {
        RunStatementsShift(pre, rest, j + 1, r.value, fuel);
      }
    }
  }

  /** The statements of `first + rest` update the context in order: those
      of `first` from the `k`-th on, then those of `rest` in the context
      `first` left, and a failure stops the replay. */
  lemma {:induction false} RunStatementsAppend(first: seq<ImplStmt>, rest: seq<ImplStmt>, k: nat, env: Env, fuel: nat)
    requires k <= |first|
    ensures RunStatements(first + rest, k, env, fuel) == ThenStatements(RunStatements(first, k, env, fuel), rest, fuel)
    decreases |first| - k
  {
    if k == |first| {
      RunStatementsShift(first, rest, 0, env, fuel);
    } else if fuel > 0 {
      assert (first + rest)[k] == first[k];
      var r := UpdateContext(first[k], env, fuel - 1);
      if r.Ok? {
        RunStatementsAppend(first, rest, k + 1, r.value, fuel);
      }
    }
  }

  /** A block whose first statement is `st` runs `st` and then the block of
      the remaining statements in the updated context. */
  lemma BlockStep(st: ImplStmt, rest: seq<ImplStmt>, result: Impl, env: Env, fuel: nat)
    requires fuel > 1
    ensures Run(IBlock([st] + rest, result), env, fuel)
         == (match UpdateContext(st, env, fuel - 2)
             case Ok(env') => Run(IBlock(rest, result), env', fuel)
             case Err(msg) => Err(msg))
  {
    RunStatementsAppend([st], rest, 0, env, fuel - 1);
    match UpdateContext(st, env, fuel - 2)
    case Err(_) =>
    case Ok(env') =>
      assert RunStatements([st], 1, env', fuel - 1) == Ok(env');
  }

  /** A block of `first + rest` runs `first` and then the block of `rest`
      in the context `first` left. */
  lemma BlockAppend(first: seq<ImplStmt>, rest: seq<ImplStmt>, result: Impl, env: Env, fuel: nat)
    requires fuel > 0
    ensures Run(IBlock(first + rest, result), env, fuel)
         == (match RunStatements(first, 0, env, fuel - 1)
             case Ok(env') => Run(IBlock(rest, result), env', fuel)
             case Err(msg) => Err(msg))
  {
    RunStatementsAppend(first, rest, 0, env, fuel - 1);
  }

  /** `multi const {num, prop} = v`: a witness binds both names before the
      rest of the block runs; any other value stops the block with the
      "multi const didnt get object" error, and a failing `v` with its own
      error. */
  lemma MultiConstBlock(n: string, p: string, v: Impl, rest: seq<ImplStmt>, result: Impl, env: Env, fuel: nat)
    requires fuel > 1
    ensures Run(v, env, fuel - 2).Ok? && Run(v, env, fuel - 2).value.VExists? ==>
      Run(IBlock([BindExists(n, p, v)] + rest, result), env, fuel)
        == Run(IBlock(rest, result), env[n := VNum(Run(v, env, fuel - 2).value.num)][p := Run(v, env, fuel - 2).value.prop], fuel)
    ensures Run(v, env, fuel - 2).Ok? && !Run(v, env, fuel - 2).value.VExists? ==>
      Run(IBlock([BindExists(n, p, v)] + rest, result), env, fuel) == Err(MultiConstNotObject)
    ensures Run(v, env, fuel - 2).Err? ==>
      Run(IBlock([BindExists(n, p, v)] + rest, result), env, fuel) == Err(Run(v, env, fuel - 2).msg)
  {
    BlockStep(BindExists(n, p, v), rest, result, env, fuel);
  }

  /** `const x = v`: the value is bound before the rest of the block runs,
      and a failing `v` stops the block with its error. */
  lemma ConstBlock(x: string, v: Impl, rest: seq<ImplStmt>, result: Impl, env: Env, fuel: nat)
    requires fuel > 1
    ensures Run(v, env, fuel - 2).Ok? ==>
      Run(IBlock([BindConst(x, v)] + rest, result), env, fuel)
        == Run(IBlock(rest, result), env[x := Run(v, env, fuel - 2).value], fuel)
    ensures Run(v, env, fuel - 2).Err? ==>
      Run(IBlock([BindConst(x, v)] + rest, result), env, fuel) == Err(Run(v, env, fuel - 2).msg)
  {
    BlockStep(BindConst(x, v), rest, result, env, fuel);
  }

  // ---------------------------------------------------------------------
  // Printing values

  /** `t?.left` and `t?.right`: the type a field's value is printed at. */
  function LeftOf(t: Option<TypeTree>): Option<TypeTree> {
    match t
    case Some(Bin(_, l, _)) => Some(l)
    case Some(Arrow(_, l, _)) => Some(l)
    case _ => None
  }

  function RightOf(t: Option<TypeTree>): Option<TypeTree> {
    match t
    case Some(Bin(_, _, r)) => Some(r)
    case Some(Arrow(_, _, r)) => Some(r)
    case _ => None
  }

  /** The field names a `{num, prop}` witness is printed with, and the type
      of its proof: a struct type's `N` field names the number and its
      other field the proof; without a struct type they are `@num` and
      `@prop`. */
  datatype WitnessNames = WitnessNames(numName: string, propName: string, propType: Option<TypeTree>)

  function NamesOfField(names: WitnessNames, f: Field): WitnessNames {
    if f.ty.Nat? then WitnessNames(f.name, names.propName, names.propType)
    else WitnessNames(names.numName, f.name, Some(f.ty))
  }

  function WitnessNamesOf(t: TypeTree): WitnessNames {
    var none := WitnessNames("@num", "@prop", None);
    if t.Struct? then NamesOfField(NamesOfField(none, t.first), t.second) else none
  }

  /** `obj2str`: a value as `console.log` prints it, guided by its type.
      A witness printed without a type fails as the source does. */
  function Obj2Str(v: Value, t: Option<TypeTree>): Result<string> {
    match v
    case VNum(n) => Ok(NatToString(n))
    case VToken(tok) => Ok(TokenText(tok))
    case VClosure(_, _, _) => Ok("(func)")
    case VPair(l, r) =>
      var ls :- Obj2Str(l, LeftOf(t));
      var rs :- Obj2Str(r, RightOf(t));
      Ok("{left: " + ls + ", right: " + rs + "}")
    case VInjected(side, x) =>
      var xs :- Obj2Str(x, if side == LeftSide then LeftOf(t) else RightOf(t));
      Ok("{" + SideName(side) + ": " + xs + "}")
    case VExists(n, p) =>
      if t.None? then Err(UndefinedType)
      else
        var names := WitnessNamesOf(t.value);
        var ps :- Obj2Str(p, names.propType);
        Ok("{" + names.numName + ": " + NatToString(n) + ", " + names.propName + ": " + ps + "}")
  }

  /** A value without witnesses prints whatever its type. */
  predicate WitnessFree(v: Value) {
    match v
    case VPair(l, r) => WitnessFree(l) && WitnessFree(r)
    case VInjected(_, x) => WitnessFree(x)
    case VExists(_, _) => false
    case _ => true
  }

  lemma {:induction false} WitnessFreePrints(v: Value, t: Option<TypeTree>)
    requires WitnessFree(v)
    ensures Obj2Str(v, t).Ok?
  {
    match v
    case VPair(l, r) =>
      WitnessFreePrints(l, LeftOf(t));
      WitnessFreePrints(r, RightOf(t));
    case VInjected(side, x) =>
      WitnessFreePrints(x, if side == LeftSide then LeftOf(t) else RightOf(t));
    case _ =>
  }

  /** A witness of a struct type prints its number under the `N` field's
      name and its proof under the other field's name, at that field's type. */
  lemma PrintWitness(n: nat, p: Value, numName: string, propName: string, propType: TypeTree)
    requires !propType.Nat?
    requires Obj2Str(p, Some(propType)).Ok?
    ensures Obj2Str(VExists(n, p), Some(Struct(Field(numName, Nat), Field(propName, propType))))
         == Ok("{" + numName + ": " + NatToString(n) + ", " + propName + ": " + Obj2Str(p, Some(propType)).value + "}")
  {
    assert WitnessNamesOf(Struct(Field(numName, Nat), Field(propName, propType))) == WitnessNames(numName, propName, Some(propType));
  }

  /** An injection prints its side and the value at that side's type. */
  lemma PrintInjected(side: Side, x: Value, op: BinOp, l: TypeTree, r: TypeTree)
    requires Obj2Str(x, Some(if side == LeftSide then l else r)).Ok?
    ensures Obj2Str(VInjected(side, x), Some(Bin(op, l, r)))
         == Ok("{" + SideName(side) + ": " + Obj2Str(x, Some(if side == LeftSide then l else r)).value + "}")
  {
  }

  /** Without a type, a witness cannot be printed. */
  lemma PrintWitnessUntyped(n: nat, p: Value)
    ensures Obj2Str(VPair(VNum(n), VExists(n, p)), Some(Never)) == Err(UndefinedType)
  {
  }
}

/**
 * The meaning of `eval` and `eval_list` (src/eval.rs) as functions: what one evaluation returns,
 * and which environment it leaves behind. The environment is the evaluator's bounded map
 * `Cells.values`; the primitives are the registry's map. Rust's `panic!` and a failed `unwrap`
 * stop the evaluation (`Panic`); a `fuel` bound stands for the source's unbounded recursion and
 * `while` passes (`OutOfFuel`).
 */
module Semantics {
  import opened Wrappers
  import opened Values
  import opened Builtins
  import BoundedMap

  /** The variables in scope. */
  type Env = map<string, Value>

  /** The registered primitives. */
  type Prims = map<string, Builtin>

  datatype Outcome = Done(v: Value) | Panic | OutOfFuel

  /** The outcome of an evaluation and the environment it leaves. */
  datatype Step = Step(out: Outcome, env: Env)

  /** The condition of `while`: only Integer 0 and `nil` are false. */
  predicate Truthy(v: Value) {
    v != Zero && v != Nil
  }

  /** A list whose head is the symbol `name`. */
  predicate IsForm(ast: Value, name: string) {
    ast.Cons? && ast.car == Symbol(name)
  }

  /** `(let- (key . value) body…)`. */
  predicate IsLet(ast: Value) {
    IsForm(ast, "let-") && ast.cdr.Cons? && ast.cdr.car.Cons? && ast.cdr.car.car.Symbol?
  }

  /** `(def key expr)`, with exactly one expression. */
  predicate IsDef(ast: Value) {
    IsForm(ast, "def") && ast.cdr.Cons? && ast.cdr.car.Symbol? && ast.cdr.cdr.Cons?
    && ast.cdr.cdr.cdr == Nil
  }

  /** `(while cond body…)`. */
  predicate IsWhile(ast: Value) {
    IsForm(ast, "while") && ast.cdr.Cons?
  }

  /** The arms of `eval`, in the source's order. */
  function Eval(fuel: nat, cap: nat, prims: Prims, env: Env, ast: Value): Step
    decreases fuel, 0
  {
    if fuel == 0 then Step(OutOfFuel, env)
    else
      var f := fuel - 1;
      if IsForm(ast, "progn") then
        Body(f, cap, prims, env, ast.cdr, Nil)
      else if IsLet(ast) then
        Let(f, cap, prims, env, ast.cdr.car.car.name, ast.cdr.car.cdr, ast.cdr.cdr)
      else if IsDef(ast) then
        var s := Eval(f, cap, prims, env, ast.cdr.cdr.car);
        if !s.out.Done? then s
        else
          var bound := BoundedMap.Insert(s.env, cap, ast.cdr.car.name, s.out.v);
          if bound.None? then Step(Panic, s.env) else Step(Done(Nil), bound.value)
      else if IsWhile(ast) then
        Loop(f, cap, prims, env, ast.cdr.car, ast.cdr.cdr)
      else if ast.Cons? && ast.car.Symbol? then
        if ast.car.name in prims then
          var args := EvalList(f, cap, prims, env, ast.cdr);
          if !args.out.Done? then args else Step(Done(prims[ast.car.name](args.out.v)), args.env)
        else Step(Done(Nil), env)
      else if ast.Integer? || ast == Nil then
        Step(Done(ast), env)
      else if ast.Symbol? then
        Step(Done(if ast.name in env then env[ast.name] else Nil), env)
      else if ast.Cons? then
        var a := Eval(f, cap, prims, env, ast.car);
        if !a.out.Done? then a
        else
          var d := Eval(f, cap, prims, a.env, ast.cdr);
          if !d.out.Done? then d else Step(Done(Cons(a.out.v, d.out.v)), d.env)
      else Step(Panic, env)
  }

  /**
   * `let-`: the value is evaluated first, the previous entry of `key` is read after that, the
   * binding is inserted, the body runs, and then the previous entry is put back or the key removed.
   */
  function Let(f: nat, cap: nat, prims: Prims, env: Env, key: string, value: Value, body: Value): Step
    decreases f, 2
  {
    var s := Eval(f, cap, prims, env, value);
    if !s.out.Done? then s
    else
      var saved := BoundedMap.Get(s.env, key);
      var bound := BoundedMap.Insert(s.env, cap, key, s.out.v);
      if bound.None? then Step(Panic, s.env)
      else
        var b := Body(f, cap, prims, bound.value, body, Nil);
        if !b.out.Done? then b
        else
          var restored := Restore(b.env, cap, key, saved);
          if restored.None? then Step(Panic, b.env) else Step(b.out, restored.value)
  }

  /** Putting back the entry that `key` had, or removing it if it had none. */
  function Restore(env: Env, cap: nat, key: string, saved: Option<Value>): Option<Env> {
    if saved.Some? then BoundedMap.Insert(env, cap, key, saved.value) else BoundedMap.Remove(env, key)
  }

  /** A body, element by element; the result is the last element's value, or `last` when none is left. */
  function Body(f: nat, cap: nat, prims: Prims, env: Env, body: Value, last: Value): Step
    decreases f, 1, body
  {
    if body.Cons? then
      var s := Eval(f, cap, prims, env, body.car);
      if !s.out.Done? then s else Body(f, cap, prims, s.env, body.cdr, s.out.v)
    else Step(Done(last), env)
  }

  /** `eval_list`: every element evaluated in order, a nil-terminated list of the results. */
  function EvalList(f: nat, cap: nat, prims: Prims, env: Env, list: Value): Step
    decreases f, 1, list
  {
    if list.Cons? then
      var a := Eval(f, cap, prims, env, list.car);
      if !a.out.Done? then a
      else
        var d := EvalList(f, cap, prims, a.env, list.cdr);
        if !d.out.Done? then d else Step(Done(Cons(a.out.v, d.out.v)), d.env)
    else if list == Nil then Step(Done(list), env)
    else Step(Panic, env)
  }

  /** `while`: the condition before every pass, each pass one fuel unit, nil at the end. */
  function Loop(f: nat, cap: nat, prims: Prims, env: Env, cond: Value, body: Value): Step
    decreases f, 2
  {
    if f == 0 then Step(OutOfFuel, env)
    else
      var c := Eval(f, cap, prims, env, cond);
      if !c.out.Done? then c
      else if !Truthy(c.out.v) then Step(Done(Nil), c.env)
      else
        var pass := Body(f, cap, prims, c.env, body, Nil);
        if !pass.out.Done? then pass else Loop(f - 1, cap, prims, pass.env, cond, body)
  }
}

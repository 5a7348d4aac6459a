/**
 * The evaluator as the source writes it (src/eval.rs): `eval` and `eval_list` update the
 * environment `Cells` in place and walk bodies with `while let` loops. Each method is proved to
 * compute what the Semantics functions say, outcome and resulting environment alike.
 */
module Evaluator {
  import opened Values
  import opened Builtins
  import BoundedMap
  import opened Semantics

  /** The environment: a bounded map from names to values. */
  class Cells {
    var values: Env
    const capacity: nat

    /** `Cells::new`: no variable is bound. */
    constructor (capacity: nat)
      ensures this.capacity == capacity && values == map[]
    {
      this.capacity := capacity;
      values := map[];
    }

    /** `add_value` and the other `insert(…).unwrap()` calls: `ok == false` is the panic of a new
     *  key in a full environment. */
    method AddValue(key: string, value: Value) returns (ok: bool)
      modifies this
      ensures ok == BoundedMap.Insert(old(values), capacity, key, value).Some?
      ensures values == if ok then old(values)[key := value] else old(values)
    {
      ok := key in values || |values| < capacity;
      if ok {
        values := values[key := value];
      }
    }
  }

  /** `eval`: the special forms are tried first, then a primitive call, then the atoms. */
  method Eval(fuel: nat, cells: Cells, prims: Registry, ast: Value) returns (r: Outcome)
    modifies cells
    ensures Step(r, cells.values) == Semantics.Eval(fuel, cells.capacity, prims.entries, old(cells.values), ast)
    decreases fuel, 0
  {
    if fuel == 0 {
      return OutOfFuel;
    }
    var f := fuel - 1;
    if IsForm(ast, "progn") {
      r := Progn(f, cells, prims, ast.cdr);
    } else if IsLet(ast) {
      r := Let(f, cells, prims, ast.cdr.car.car.name, ast.cdr.car.cdr, ast.cdr.cdr);
    } else if IsDef(ast) {
      var value := Eval(f, cells, prims, ast.cdr.cdr.car);
      if !value.Done? {
        return value;
      }
      var ok := cells.AddValue(ast.cdr.car.name, value.v);
      r := if ok then Done(Nil) else Panic;
    } else if IsWhile(ast) {
      r := While(f, cells, prims, ast.cdr.car, ast.cdr.cdr);
    } else if ast.Cons? && ast.car.Symbol? {
      var builtin := prims.Get(ast.car.name);
      if builtin.Some? {
        var args := EvalList(f, cells, prims, ast.cdr);
        if !args.Done? {
          return args;
        }
        r := Done(builtin.value(args.v));
      } else {
        r := Done(Nil);
      }
    } else if ast.Integer? || ast == Nil {
      r := Done(ast);
    } else if ast.Symbol? {
      var found := BoundedMap.Get(cells.values, ast.name);
      r := Done(if found.Some? then found.value else Nil);
    } else if ast.Cons? {
      var car := Eval(f, cells, prims, ast.car);
      if !car.Done? {
        return car;
      }
      var cdr := Eval(f, cells, prims, ast.cdr);
      if !cdr.Done? {
        return cdr;
      }
      r := Done(Cons(car.v, cdr.v));
    } else {
      r := Panic;
    }
  }

  /** The `while let` loop of `progn` and of the `let-` body: the last result, nil if none. */
  method Progn(f: nat, cells: Cells, prims: Registry, body: Value) returns (r: Outcome)
    modifies cells
    ensures Step(r, cells.values) == Body(f, cells.capacity, prims.entries, old(cells.values), body, Nil)
    decreases f, 1
  {
    var result := Nil;
    var rest := body;
    while rest.Cons?
      invariant Body(f, cells.capacity, prims.entries, old(cells.values), body, Nil)
        == Body(f, cells.capacity, prims.entries, cells.values, rest, result)
      decreases rest
    {
      var o := Eval(f, cells, prims, rest.car);
      if !o.Done? {
        return o;
      }
      result := o.v;
      rest := rest.cdr;
    }
    return Done(result);
  }

  /** `let-`: evaluate, save, bind, run the body, put back or remove. */
  method Let(f: nat, cells: Cells, prims: Registry, key: string, value: Value, body: Value) returns (r: Outcome)
    modifies cells
    ensures Step(r, cells.values) == Semantics.Let(f, cells.capacity, prims.entries, old(cells.values), key, value, body)
    decreases f, 2
  {
    var v := Eval(f, cells, prims, value);
    if !v.Done? {
      return v;
    }
    var saved := BoundedMap.Get(cells.values, key);
    var ok := cells.AddValue(key, v.v);
    if !ok {
      return Panic;
    }
    r := Progn(f, cells, prims, body);
    if !r.Done? {
      return r;
    }
    if saved.Some? {
      ok := cells.AddValue(key, saved.value);
      if !ok {
        return Panic;
      }
    } else if key in cells.values {
      cells.values := cells.values - {key};
    } else {
      return Panic;
    }
  }

  /** `while`: the condition, then a pass over the body, until the condition is false. */
  method While(f: nat, cells: Cells, prims: Registry, cond: Value, body: Value) returns (r: Outcome)
    modifies cells
    ensures Step(r, cells.values) == Loop(f, cells.capacity, prims.entries, old(cells.values), cond, body)
    decreases f, 2
  {
    var g: nat := f;
    while true
      invariant g <= f
      invariant Loop(f, cells.capacity, prims.entries, old(cells.values), cond, body)
        == Loop(g, cells.capacity, prims.entries, cells.values, cond, body)
      decreases g
    {
      if g == 0 {
        return OutOfFuel;
      }
      var c := Eval(g, cells, prims, cond);
      if !c.Done? {
        return c;
      }
      if !Truthy(c.v) {
        return Done(Nil);
      }
      var pass := Progn(g, cells, prims, body);
      if !pass.Done? {
        return pass;
      }
      g := g - 1;
    }
  }

  /** `eval_list`: the original cell comes back when neither part changed. */
  method EvalList(f: nat, cells: Cells, prims: Registry, list: Value) returns (r: Outcome)
    modifies cells
    ensures Step(r, cells.values) == Semantics.EvalList(f, cells.capacity, prims.entries, old(cells.values), list)
    decreases f, 1, list
  {
    if list.Cons? {
      var car := Eval(f, cells, prims, list.car);
      if !car.Done? {
        return car;
      }
      var cdr := EvalList(f, cells, prims, list.cdr);
      if !cdr.Done? {
        return cdr;
      }
      if car.v == list.car && cdr.v == list.cdr {
        return Done(list);
      }
      return Done(Cons(car.v, cdr.v));
    } else if list == Nil {
      return Done(list);
    } else {
      return Panic;
    }
  }
}

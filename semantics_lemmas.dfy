/** Properties of the evaluator's meaning. */
module SemanticsLemmas {
  import opened Wrappers
  import opened Values
  import opened Builtins
  import opened Semantics
  import BoundedMap

  /**
   * An evaluation never loses a variable, and an environment within its capacity stays within it:
   * entries are only inserted, and `let-` removes only the key it added itself.
   */
  predicate Grows(cap: nat, before: Env, after: Env) {
    before.Keys <= after.Keys && (|before| <= cap ==> |after| <= cap)
  }

  lemma RemoveShrinks(m: Env, key: string)
    requires key in m
    ensures |m - {key}| < |m|
  {
    assert (m - {key}).Keys + {key} == m.Keys;
  }

  lemma {:induction false} EvalGrows(fuel: nat, cap: nat, prims: Prims, env: Env, ast: Value)
    ensures Grows(cap, env, Eval(fuel, cap, prims, env, ast).env)
    decreases fuel, 0
  {
    if fuel > 0 {
      var f := fuel - 1;
      if IsForm(ast, "progn") {
        BodyGrows(f, cap, prims, env, ast.cdr, Nil);
      } else if IsLet(ast) {
        LetGrows(f, cap, prims, env, ast.cdr.car.car.name, ast.cdr.car.cdr, ast.cdr.cdr);
      } else if IsDef(ast) {
        EvalGrows(f, cap, prims, env, ast.cdr.cdr.car);
      } else if IsWhile(ast) {
        LoopGrows(f, cap, prims, env, ast.cdr.car, ast.cdr.cdr);
      } else if ast.Cons? && ast.car.Symbol? {
        if ast.car.name in prims {
          EvalListGrows(f, cap, prims, env, ast.cdr);
        }
      } else if ast.Cons? {
        var a := Eval(f, cap, prims, env, ast.car);
        EvalGrows(f, cap, prims, env, ast.car);
        EvalGrows(f, cap, prims, a.env, ast.cdr);
      }
    }
  }

  lemma {:induction false} LetGrows(f: nat, cap: nat, prims: Prims, env: Env, key: string, value: Value, body: Value)
    ensures Grows(cap, env, Let(f, cap, prims, env, key, value, body).env)
    decreases f, 2
  {
    var s := Eval(f, cap, prims, env, value);
    EvalGrows(f, cap, prims, env, value);
    if s.out.Done? {
      var bound := BoundedMap.Insert(s.env, cap, key, s.out.v);
      if bound.Some? {
        InsertGrows(s.env, cap, key, s.out.v);
        var b := Body(f, cap, prims, bound.value, body, Nil);
        BodyGrows(f, cap, prims, bound.value, body, Nil);
        if b.out.Done? {
          RestoreKeeps(s.env, b.env, cap, key);
        }
      }
    }
  }

  lemma InsertGrows(env: Env, cap: nat, key: string, v: Value)
    requires BoundedMap.Insert(env, cap, key, v).Some?
    ensures Grows(cap, env, BoundedMap.Insert(env, cap, key, v).value)
    ensures key in BoundedMap.Insert(env, cap, key, v).value
  {
    if key !in env {
      assert |env[key := v]| == |env| + 1;
    }
  }

  /** Putting back the saved entry keeps every key of the environment it was saved from and
   *  never enlarges the environment. */
  lemma RestoreKeeps(saved: Env, env: Env, cap: nat, key: string)
    requires saved.Keys <= env.Keys && key in env
    ensures var r := Restore(env, cap, key, BoundedMap.Get(saved, key));
      r.Some? && saved.Keys <= r.value.Keys && |r.value| <= |env|
  {
    if key !in saved {
      RemoveShrinks(env, key);
    }
  }

  lemma {:induction false} BodyGrows(f: nat, cap: nat, prims: Prims, env: Env, body: Value, last: Value)
    ensures Grows(cap, env, Body(f, cap, prims, env, body, last).env)
    decreases f, 1, body
  {
    if body.Cons? {
      var s := Eval(f, cap, prims, env, body.car);
      EvalGrows(f, cap, prims, env, body.car);
      if s.out.Done? {
        BodyGrows(f, cap, prims, s.env, body.cdr, s.out.v);
      }
    }
  }

  lemma {:induction false} EvalListGrows(f: nat, cap: nat, prims: Prims, env: Env, list: Value)
    ensures Grows(cap, env, EvalList(f, cap, prims, env, list).env)
    decreases f, 1, list
  {
    if list.Cons? {
      var a := Eval(f, cap, prims, env, list.car);
      EvalGrows(f, cap, prims, env, list.car);
      EvalListGrows(f, cap, prims, a.env, list.cdr);
    }
  }

  lemma {:induction false} LoopGrows(f: nat, cap: nat, prims: Prims, env: Env, cond: Value, body: Value)
    ensures Grows(cap, env, Loop(f, cap, prims, env, cond, body).env)
    decreases f, 2
  {
    if f > 0 {
      var c := Eval(f, cap, prims, env, cond);
      EvalGrows(f, cap, prims, env, cond);
      if c.out.Done? && Truthy(c.out.v) {
        var pass := Body(f, cap, prims, c.env, body, Nil);
        BodyGrows(f, cap, prims, c.env, body, Nil);
        LoopGrows(f - 1, cap, prims, pass.env, cond, body);
      }
    }
  }

  /**
   * `let-` is scoped: when the body finishes, putting the old entry back never fails, the key is
   * left exactly as it was after the value was evaluated, and every other variable is left as the
   * body left it. Binding a new key in a full environment panics.
   */
  lemma LetScoping(f: nat, cap: nat, prims: Prims, env: Env, key: string, value: Value, body: Value)
    ensures var s := Eval(f, cap, prims, env, value);
      var r := Let(f, cap, prims, env, key, value, body);
      s.out.Done? ==>
        if key !in s.env && |s.env| >= cap then r == Step(Panic, s.env)
        else
          var b := Body(f, cap, prims, s.env[key := s.out.v], body, Nil);
          b.out.Done? ==>
            r.out == b.out
            && BoundedMap.Get(r.env, key) == BoundedMap.Get(s.env, key)
            && forall k :: k != key ==> BoundedMap.Get(r.env, k) == BoundedMap.Get(b.env, k)
  {
    var s := Eval(f, cap, prims, env, value);
    if s.out.Done? && (key in s.env || |s.env| < cap) {
      var bound := s.env[key := s.out.v];
      assert BoundedMap.Insert(s.env, cap, key, s.out.v) == Some(bound);
      var b := Body(f, cap, prims, bound, body, Nil);
      BodyGrows(f, cap, prims, bound, body, Nil);
      if b.out.Done? {
        var saved := BoundedMap.Get(s.env, key);
        assert key in b.env;
        var restored := Restore(b.env, cap, key, saved);
        RestoreEntry(b.env, cap, key, saved);
        assert Let(f, cap, prims, env, key, value, body) == Step(b.out, restored.value);
      }
    }
  }

  /**
   * The entry `let-` puts back is read after the value is evaluated, so a value that binds the key
   * itself outlives the `let-`: `(let- (x def x n))` leaves x bound to n where it was unbound.
   */
  lemma LetValueRebindsKey(fuel: nat, cap: nat, prims: Prims, env: Env, x: string, n: int)
    requires fuel >= 3 && x !in env && |env| < cap
    ensures var def := Cons(Symbol("def"), Cons(Symbol(x), Cons(Integer(n), Nil)));
      Eval(fuel, cap, prims, env, Cons(Symbol("let-"), Cons(Cons(Symbol(x), def), Nil))) ==
        Step(Done(Nil), env[x := Integer(n)])
  {
    var def := Cons(Symbol("def"), Cons(Symbol(x), Cons(Integer(n), Nil)));
    LetForm(fuel, cap, prims, env, x, def, Nil);
    DefBindsInteger(fuel - 1, cap, prims, env, x, n);
    var bound := env[x := Integer(n)];
    assert bound[x := Nil][x := Integer(n)] == bound;
  }

  /** When evaluating the value leaves the key's entry as it was, a finished `let-` gives the key
   *  back the entry it had before the `let-`. */
  lemma LetRestoresPriorEntry(f: nat, cap: nat, prims: Prims, env: Env, key: string, value: Value, body: Value)
    requires Eval(f, cap, prims, env, value).out.Done?
    requires BoundedMap.Get(Eval(f, cap, prims, env, value).env, key) == BoundedMap.Get(env, key)
    ensures var r := Let(f, cap, prims, env, key, value, body);
      r.out.Done? ==> BoundedMap.Get(r.env, key) == BoundedMap.Get(env, key)
  {
    LetScoping(f, cap, prims, env, key, value, body);
  }

  /** Putting back an entry touches that key only, and succeeds when the key is present. */
  lemma RestoreEntry(env: Env, cap: nat, key: string, saved: Option<Value>)
    requires key in env
    ensures Restore(env, cap, key, saved).Some?
    ensures BoundedMap.Get(Restore(env, cap, key, saved).value, key) == saved
    ensures forall k :: k != key ==> BoundedMap.Get(Restore(env, cap, key, saved).value, k) == BoundedMap.Get(env, k)
  {
  }

  /** Integers and nil evaluate to themselves, even when `nil` is bound; other symbols are looked up. */
  lemma Atoms(fuel: nat, cap: nat, prims: Prims, env: Env, ast: Value)
    requires fuel > 0 && (ast.Integer? || ast.Symbol?)
    ensures Eval(fuel, cap, prims, env, ast) ==
      Step(Done(if ast.Symbol? && ast != Nil then (if ast.name in env then env[ast.name] else Nil) else ast), env)
  {
  }

  /** A symbol-headed list that is no well-formed special form and names no primitive is nil,
   *  with nothing evaluated: mis-shaped `let-`, `def` and `while` forms end up here. */
  lemma UnregisteredHead(fuel: nat, cap: nat, prims: Prims, env: Env, ast: Value)
    requires fuel > 0 && ast.Cons? && ast.car.Symbol? && ast.car.name !in prims
    requires !IsForm(ast, "progn") && !IsLet(ast) && !IsDef(ast) && !IsWhile(ast)
    ensures Eval(fuel, cap, prims, env, ast) == Step(Done(Nil), env)
  {
  }

  /** A list whose head is not a symbol evaluates its head, then its tail in the environment the
   *  head left, and is the Cons of the two results; the first outcome that is not a value wins. */
  lemma NonSymbolHead(fuel: nat, cap: nat, prims: Prims, env: Env, ast: Value)
    requires fuel > 0 && ast.Cons? && !ast.car.Symbol?
    ensures var a := Eval(fuel - 1, cap, prims, env, ast.car);
      var d := Eval(fuel - 1, cap, prims, a.env, ast.cdr);
      var r := Eval(fuel, cap, prims, env, ast);
      && (r.out.Done? <==> a.out.Done? && d.out.Done?)
      && (!a.out.Done? ==> r == a)
      && (a.out.Done? && !d.out.Done? ==> r == d)
      && (r.out.Done? ==> r == Step(Done(Cons(a.out.v, d.out.v)), d.env))
  {
  }

  /** `Number` and `String` values reach the last arm of `eval`, which panics. */
  lemma NumberAndStringPanic(fuel: nat, cap: nat, prims: Prims, env: Env, ast: Value)
    requires fuel > 0 && (ast.Number? || ast.String?)
    ensures Eval(fuel, cap, prims, env, ast) == Step(Panic, env)
  {
  }

  /** `(def x 1 2)` is not a definition: without a primitive named `def` it is nil and binds nothing. */
  lemma DefTakesOneExpression(fuel: nat, cap: nat, prims: Prims, env: Env, key: string, a: Value, b: Value)
    requires fuel > 0 && "def" !in prims
    ensures Eval(fuel, cap, prims, env, Cons(Symbol("def"), Cons(Symbol(key), Cons(a, Cons(b, Nil))))) ==
      Step(Done(Nil), env)
  {
  }

  /** `def` binds the key to the value of its expression and returns nil; a new key in a full
   *  environment panics. */
  lemma DefBinds(fuel: nat, cap: nat, prims: Prims, env: Env, key: string, e: Value)
    requires fuel > 0
    ensures var s := Eval(fuel - 1, cap, prims, env, e);
      var r := Eval(fuel, cap, prims, env, Cons(Symbol("def"), Cons(Symbol(key), Cons(e, Nil))));
      s.out.Done? ==>
        r == if key in s.env || |s.env| < cap then Step(Done(Nil), s.env[key := s.out.v]) else Step(Panic, s.env)
  {
  }

  /** `(progn)` is nil, and `(progn e)` is `e`. */
  lemma PrognOfNoneOrOne(fuel: nat, cap: nat, prims: Prims, env: Env, e: Value)
    requires fuel > 0
    ensures Eval(fuel, cap, prims, env, Cons(Symbol("progn"), Nil)) == Step(Done(Nil), env)
    ensures Eval(fuel, cap, prims, env, Cons(Symbol("progn"), Cons(e, Nil))) == Eval(fuel - 1, cap, prims, env, e)
  {
    var s := Eval(fuel - 1, cap, prims, env, e);
    if s.out.Done? {
      assert Body(fuel - 1, cap, prims, s.env, Nil, s.out.v) == s;
    }
  }

  /** A `while` whose condition is false evaluates no pass and is nil. */
  lemma WhileFalse(f: nat, cap: nat, prims: Prims, env: Env, cond: Value, body: Value)
    requires f > 0
    requires Eval(f, cap, prims, env, cond).out.Done? && !Truthy(Eval(f, cap, prims, env, cond).out.v)
    ensures Loop(f, cap, prims, env, cond, body) == Step(Done(Nil), Eval(f, cap, prims, env, cond).env)
  {
  }

  /** Whatever its passes compute, a `while` that finishes is nil. */
  lemma {:induction false} LoopIsNil(f: nat, cap: nat, prims: Prims, env: Env, cond: Value, body: Value)
    ensures Loop(f, cap, prims, env, cond, body).out.Done? ==> Loop(f, cap, prims, env, cond, body).out.v == Nil
    decreases f
  {
    if f > 0 {
      var c := Eval(f, cap, prims, env, cond);
      if c.out.Done? && Truthy(c.out.v) {
        var pass := Body(f, cap, prims, c.env, body, Nil);
        if pass.out.Done? {
          LoopIsNil(f - 1, cap, prims, pass.env, cond, body);
        }
      }
    }
  }

  /** `eval_list` that finishes was given a proper list and returns a proper list of the same length;
   *  an improper tail never finishes normally. */
  lemma {:induction false} EvalListShape(f: nat, cap: nat, prims: Prims, env: Env, list: Value)
    ensures var r := EvalList(f, cap, prims, env, list);
      r.out.Done? ==> IsProperList(list) && IsProperList(r.out.v) && |Elements(r.out.v)| == |Elements(list)|
    decreases list
  {
    if list.Cons? {
      var a := Eval(f, cap, prims, env, list.car);
      if a.out.Done? {
        EvalListShape(f, cap, prims, a.env, list.cdr);
      }
    }
  }

  /** Data that evaluate to themselves: integers, nil, and conses of data not headed by a symbol. */
  predicate Datum(v: Value) {
    if v.Cons? then !v.car.Symbol? && Datum(v.car) && Datum(v.cdr) else v.Integer? || v == Nil
  }

  function Depth(v: Value): nat {
    if v.Cons? then 1 + (if Depth(v.car) < Depth(v.cdr) then Depth(v.cdr) else Depth(v.car)) else 0
  }

  /** With enough fuel a datum evaluates to an equal value and changes no variable. The source
   *  hands back the same cell for an integer or nil, and allocates a new cell for a Cons. */
  lemma {:induction false} DatumEvaluatesToItself(fuel: nat, cap: nat, prims: Prims, env: Env, v: Value)
    requires Datum(v) && fuel > Depth(v)
    ensures Eval(fuel, cap, prims, env, v) == Step(Done(v), env)
  {
    if v.Cons? {
      DatumEvaluatesToItself(fuel - 1, cap, prims, env, v.car);
      DatumEvaluatesToItself(fuel - 1, cap, prims, env, v.cdr);
    }
  }

  /** A proper list of data is returned unchanged by `eval_list`. */
  lemma {:induction false} EvalListOfData(f: nat, cap: nat, prims: Prims, env: Env, list: Value)
    requires IsProperList(list)
    requires forall x :: x in Elements(list) ==> Datum(x) && f > Depth(x)
    ensures EvalList(f, cap, prims, env, list) == Step(Done(list), env)
    decreases list
  {
    if list.Cons? {
      assert list.car in Elements(list);
      DatumEvaluatesToItself(f, cap, prims, env, list.car);
      assert forall x :: x in Elements(list.cdr) ==> x in Elements(list);
      EvalListOfData(f, cap, prims, env, list.cdr);
    }
  }

  /** A call of `+` on integer literals is their sum. */
  lemma AddCall(fuel: nat, cap: nat, env: Env, s: seq<int>)
    requires fuel > 1
    ensures Eval(fuel, cap, Defaults, env, Cons(Symbol("+"), Integers(s))) == Step(Done(Integer(Sum(s))), env)
  {
    IntegersAreData(fuel - 1, s);
    EvalListOfData(fuel - 1, cap, Defaults, env, Integers(s));
    AddIsSum(s);
  }

  /** A call of `-` on integer literals: the negation of one, the first minus the others' sum. */
  lemma SubCall(fuel: nat, cap: nat, env: Env, n: int, s: seq<int>)
    requires fuel > 1
    ensures Eval(fuel, cap, Defaults, env, Cons(Symbol("-"), Integers([n] + s))) ==
      Step(Done(Integer(if s == [] then -n else n - Sum(s))), env)
  {
    IntegersAreData(fuel - 1, [n] + s);
    EvalListOfData(fuel - 1, cap, Defaults, env, Integers([n] + s));
    SubIsDifference(n, s);
  }

  lemma {:induction false} IntegersAreData(f: nat, s: seq<int>)
    requires f > 0
    ensures IsProperList(Integers(s))
    ensures forall x :: x in Elements(Integers(s)) ==> Datum(x) && f > Depth(x)
  {
    if s != [] {
      IntegersAreData(f, s[1..]);
    }
  }

  /** `(progn (def x n) (+ x m))` is n + m, and leaves x bound to n. */
  lemma DefThenAdd(fuel: nat, cap: nat, env: Env, x: string, n: int, m: int)
    requires fuel >= 3 && x != "nil" && (x in env || |env| < cap)
    ensures var def := Cons(Symbol("def"), Cons(Symbol(x), Cons(Integer(n), Nil)));
      var add := Cons(Symbol("+"), Cons(Symbol(x), Cons(Integer(m), Nil)));
      Eval(fuel, cap, Defaults, env, Cons(Symbol("progn"), Cons(def, Cons(add, Nil)))) ==
        Step(Done(Integer(n + m)), env[x := Integer(n)])
  {
    var def := Cons(Symbol("def"), Cons(Symbol(x), Cons(Integer(n), Nil)));
    var add := Cons(Symbol("+"), Cons(Symbol(x), Cons(Integer(m), Nil)));
    var f := fuel - 1;
    var bound := env[x := Integer(n)];
    PrognIsBody(fuel, cap, Defaults, env, Cons(def, Cons(add, Nil)));
    DefBindsInteger(f, cap, Defaults, env, x, n);
    BodyFirst(f, cap, Defaults, env, def, Cons(add, Nil), Nil);
    AddVariable(f, cap, bound, x, m);
    BodyOfOne(f, cap, Defaults, bound, add, Nil);
  }

  /** `(progn body…)` is its body, started with nil as the result. */
  lemma PrognIsBody(fuel: nat, cap: nat, prims: Prims, env: Env, body: Value)
    requires fuel > 0
    ensures Eval(fuel, cap, prims, env, Cons(Symbol("progn"), body)) == Body(fuel - 1, cap, prims, env, body, Nil)
  {
  }

  /** A body goes on from the environment and the value its first expression left. */
  lemma BodyFirst(f: nat, cap: nat, prims: Prims, env: Env, e: Value, rest: Value, last: Value)
    requires Eval(f, cap, prims, env, e).out.Done?
    ensures var s := Eval(f, cap, prims, env, e);
      Body(f, cap, prims, env, Cons(e, rest), last) == Body(f, cap, prims, s.env, rest, s.out.v)
  {
  }

  /** `(def x n)` binds x to the integer n and is nil. */
  lemma DefBindsInteger(fuel: nat, cap: nat, prims: Prims, env: Env, x: string, n: int)
    requires fuel >= 2 && (x in env || |env| < cap)
    ensures Eval(fuel, cap, prims, env, Cons(Symbol("def"), Cons(Symbol(x), Cons(Integer(n), Nil)))) ==
      Step(Done(Nil), env[x := Integer(n)])
  {
    DefBinds(fuel, cap, prims, env, x, Integer(n));
    Atoms(fuel - 1, cap, prims, env, Integer(n));
  }

  /** A body of one expression is that expression: its outcome and its environment. */
  lemma BodyOfOne(f: nat, cap: nat, prims: Prims, env: Env, e: Value, last: Value)
    ensures Body(f, cap, prims, env, Cons(e, Nil), last) == Eval(f, cap, prims, env, e)
  {
    var s := Eval(f, cap, prims, env, e);
    if s.out.Done? {
      assert Body(f, cap, prims, s.env, Nil, s.out.v) == s;
    }
  }

  /** A call of a registered primitive that is no special form: the argument list is evaluated,
   *  then the primitive is applied to the resulting list. */
  lemma Call(fuel: nat, cap: nat, prims: Prims, env: Env, name: string, args: Value)
    requires fuel > 0 && name in prims && name != "progn" && name != "let-" && name != "def" && name != "while"
    ensures var a := EvalList(fuel - 1, cap, prims, env, args);
      Eval(fuel, cap, prims, env, Cons(Symbol(name), args)) ==
        if a.out.Done? then Step(Done(prims[name](a.out.v)), a.env) else a
  {
  }

  /** `(+ x m)` with x bound to an integer n is n + m. */
  lemma AddVariable(fuel: nat, cap: nat, env: Env, x: string, m: int)
    requires fuel >= 2 && x != "nil" && x in env && env[x].Integer?
    ensures Eval(fuel, cap, Defaults, env, Cons(Symbol("+"), Cons(Symbol(x), Cons(Integer(m), Nil)))) ==
      Step(Done(Integer(env[x].i + m)), env)
  {
    var n := env[x].i;
    VariableThenInteger(fuel - 1, cap, Defaults, env, x, m);
    Call(fuel, cap, Defaults, env, "+", Cons(Symbol(x), Cons(Integer(m), Nil)));
    assert Defaults["+"] == AddResult;
    assert IntegerList(Cons(Integer(m), Nil)) && Total(Cons(Integer(m), Nil)) == m;
    assert Total(Cons(Integer(n), Cons(Integer(m), Nil))) == n + m;
  }

  /** `(- x m)` with x bound to an integer n is n - m. */
  lemma SubVariable(fuel: nat, cap: nat, env: Env, x: string, m: int)
    requires fuel >= 2 && x != "nil" && x in env && env[x].Integer?
    ensures Eval(fuel, cap, Defaults, env, Cons(Symbol("-"), Cons(Symbol(x), Cons(Integer(m), Nil)))) ==
      Step(Done(Integer(env[x].i - m)), env)
  {
    VariableThenInteger(fuel - 1, cap, Defaults, env, x, m);
    Call(fuel, cap, Defaults, env, "-", Cons(Symbol(x), Cons(Integer(m), Nil)));
    assert Defaults["-"] == SubResult;
    assert IntegerList(Cons(Integer(m), Nil)) && Total(Cons(Integer(m), Nil)) == m;
  }

  /** The argument list `(x m)` evaluates to the value of x followed by m. */
  lemma VariableThenInteger(f: nat, cap: nat, prims: Prims, env: Env, x: string, m: int)
    requires f > 0 && x != "nil" && x in env
    ensures EvalList(f, cap, prims, env, Cons(Symbol(x), Cons(Integer(m), Nil))) ==
      Step(Done(Cons(env[x], Cons(Integer(m), Nil))), env)
  {
    Atoms(f, cap, prims, env, Symbol(x));
    Atoms(f, cap, prims, env, Integer(m));
    assert EvalList(f, cap, prims, env, Cons(Integer(m), Nil)) == Step(Done(Cons(Integer(m), Nil)), env);
  }

  /**
   * `(let- (x 1) (+ x 2))` is nil, not 3: the binding takes the whole tail `(1)` of the pair, and
   * `+` rejects a list element. Afterwards the environment is as before.
   */
  lemma LetBindsTheTail(fuel: nat, cap: nat, env: Env, x: string, n: int, m: int)
    requires fuel >= 4 && x != "nil" && (x in env || |env| < cap)
    ensures var pair := Cons(Symbol(x), Cons(Integer(n), Nil));
      var add := Cons(Symbol("+"), Cons(Symbol(x), Cons(Integer(m), Nil)));
      Eval(fuel, cap, Defaults, env, Cons(Symbol("let-"), Cons(pair, Cons(add, Nil)))) == Step(Done(Nil), env)
  {
    var pair := Cons(Symbol(x), Cons(Integer(n), Nil));
    var add := Cons(Symbol("+"), Cons(Symbol(x), Cons(Integer(m), Nil)));
    var f := fuel - 1;
    var tail := Cons(Integer(n), Nil);
    LetForm(fuel, cap, Defaults, env, x, tail, Cons(add, Nil));
    DatumEvaluatesToItself(f, cap, Defaults, env, tail);
    var bound := env[x := tail];
    AddOfListElement(f, cap, bound, x, m);
    BodyOfOne(f, cap, Defaults, bound, add, Nil);
    RestoreUndoes(env, cap, x, tail);
  }

  /** `(let- (key . value) body…)` is the `let-` of that key, value and body. */
  lemma LetForm(fuel: nat, cap: nat, prims: Prims, env: Env, key: string, value: Value, body: Value)
    requires fuel > 0
    ensures Eval(fuel, cap, prims, env, Cons(Symbol("let-"), Cons(Cons(Symbol(key), value), body))) ==
      Let(fuel - 1, cap, prims, env, key, value, body)
  {
  }

  /** `(+ x m)` with x bound to a list is nil: `add` rejects the non-integer element. */
  lemma AddOfListElement(fuel: nat, cap: nat, env: Env, x: string, m: int)
    requires fuel >= 2 && x != "nil" && x in env && env[x].Cons?
    ensures Eval(fuel, cap, Defaults, env, Cons(Symbol("+"), Cons(Symbol(x), Cons(Integer(m), Nil)))) ==
      Step(Done(Nil), env)
  {
    VariableThenInteger(fuel - 1, cap, Defaults, env, x, m);
    Call(fuel, cap, Defaults, env, "+", Cons(Symbol(x), Cons(Integer(m), Nil)));
    assert Defaults["+"] == AddResult;
  }

  /** Binding a key and then putting back what it had before gives back the environment. */
  lemma RestoreUndoes(env: Env, cap: nat, key: string, v: Value)
    requires key in env || |env| < cap
    ensures Restore(env[key := v], cap, key, BoundedMap.Get(env, key)) == Some(env)
  {
    if key in env {
      assert env[key := v][key := env[key]] == env;
    } else {
      assert env[key := v] - {key} == env;
    }
  }

  /** `(while 0 body…)` is nil and evaluates no pass. */
  lemma WhileZero(fuel: nat, cap: nat, prims: Prims, env: Env, body: Value)
    requires fuel >= 2
    ensures Eval(fuel, cap, prims, env, Cons(Symbol("while"), Cons(Zero, body))) == Step(Done(Nil), env)
  {
    Atoms(fuel - 1, cap, prims, env, Zero);
  }

  /** `(while x (def x (- x 1)))` counts x from k down to 0 in k passes and is nil. */
  lemma {:induction false} CountDown(f: nat, cap: nat, env: Env, x: string, k: nat)
    requires f >= k + 3 && x != "nil" && x in env && env[x] == Integer(k)
    ensures var dec := Cons(Symbol("def"), Cons(Symbol(x), Cons(Cons(Symbol("-"), Cons(Symbol(x), Cons(Integer(1), Nil))), Nil)));
      Loop(f, cap, Defaults, env, Symbol(x), Cons(dec, Nil)) == Step(Done(Nil), env[x := Zero])
    decreases k
  {
    var dec := Cons(Symbol("def"), Cons(Symbol(x), Cons(Cons(Symbol("-"), Cons(Symbol(x), Cons(Integer(1), Nil))), Nil)));
    Atoms(f, cap, Defaults, env, Symbol(x));
    if k == 0 {
      assert env[x := Zero] == env;
    } else {
      var next := env[x := Integer(k - 1)];
      Decrement(f, cap, env, x, k);
      BodyOfOne(f, cap, Defaults, env, dec, Nil);
      CountDown(f - 1, cap, next, x, k - 1);
      assert next[x := Zero] == env[x := Zero];
    }
  }

  /** One pass of the count-down body: `(def x (- x 1))` rebinds x from k to k - 1. */
  lemma Decrement(f: nat, cap: nat, env: Env, x: string, k: int)
    requires f >= 3 && x != "nil" && x in env && env[x] == Integer(k)
    ensures var sub := Cons(Symbol("-"), Cons(Symbol(x), Cons(Integer(1), Nil)));
      Eval(f, cap, Defaults, env, Cons(Symbol("def"), Cons(Symbol(x), Cons(sub, Nil)))) ==
        Step(Done(Nil), env[x := Integer(k - 1)])
  {
    var sub := Cons(Symbol("-"), Cons(Symbol(x), Cons(Integer(1), Nil)));
    SubVariable(f - 1, cap, env, x, 1);
    DefBinds(f, cap, Defaults, env, x, sub);
  }
}

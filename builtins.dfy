/**
 * The integer primitives `add` and `sub` and the bounded name-to-primitive registry
 * (src/builtins.rs). A primitive receives its already evaluated argument list and returns a value;
 * the host context and the pool it allocates its result from are not part of this model.
 */
module Builtins {
  import opened Wrappers
  import opened Values
  import BoundedMap

  /** A primitive: argument list in, value out. */
  type Builtin = Value -> Value

  /** A nil-terminated list whose every element is an Integer. */
  predicate IntegerList(v: Value) {
    if v.Cons? then v.car.Integer? && IntegerList(v.cdr) else v == Nil
  }

  /** The sum of the elements of an integer list. */
  function Total(v: Value): int
    requires IntegerList(v)
  {
    if v.Cons? then v.car.i + Total(v.cdr) else 0
  }

  /** What `add` returns: the sum for an integer list, nil for anything else. */
  function AddResult(args: Value): Value {
    if IntegerList(args) then Integer(Total(args)) else Nil
  }

  /**
   * What `sub` returns: the negation of a single integer, the first integer minus the rest for
   * an integer list of two or more, nil for a later non-integer or an improper tail, and zero
   * when there is no integer to start from.
   */
  function SubResult(args: Value): Value {
    if args.Cons? && args.car.Integer? then
      if args.cdr == Nil then Integer(-args.car.i)
      else if IntegerList(args.cdr) then Integer(args.car.i - Total(args.cdr))
      else Nil
    else Zero
  }

  /** `add`: folds `+` over the argument list until nil, giving up on anything else. */
  method Add(args: Value) returns (r: Value)
    ensures r == AddResult(args)
  {
    var result := 0;
    var rest := args;
    while true
      invariant IntegerList(args) <==> IntegerList(rest)
      invariant IntegerList(rest) ==> Total(args) == result + Total(rest)
      decreases rest
    {
      if rest.Cons? && rest.car.Integer? {
        result := result + rest.car.i;
        rest := rest.cdr;
      } else if rest == Nil {
        return Integer(result);
      } else {
        return Nil;
      }
    }
  }

  /** `sub`: the single-argument case first, then a fold of `-` started at the first integer. */
  method Sub(args: Value) returns (r: Value)
    ensures r == SubResult(args)
  {
    if args.Cons? && args.car.Integer? && args.cdr == Nil {
      return Integer(-args.car.i);
    } else if args.Cons? && args.car.Integer? {
      var result := args.car.i;
      var rest := args.cdr;
      while true
        invariant IntegerList(args.cdr) <==> IntegerList(rest)
        invariant IntegerList(rest) ==> args.car.i - Total(args.cdr) == result - Total(rest)
        decreases rest
      {
        if rest.Cons? && rest.car.Integer? {
          result := result - rest.car.i;
          rest := rest.cdr;
        } else if rest == Nil {
          return Integer(result);
        } else {
          return Nil;
        }
      }
    } else {
      return Zero;
    }
  }

  /** The sum of a sequence of integers, a reference definition independent of list shape. */
  function Sum(s: seq<int>): int {
    if s == [] then 0 else s[0] + Sum(s[1..])
  }

  /** The proper list of the integers `s`. */
  function Integers(s: seq<int>): (r: Value)
    ensures IntegerList(r)
  {
    if s == [] then Nil else Cons(Integer(s[0]), Integers(s[1..]))
  }

  /** `(+ n1 … nk)` is the sum of the ni; in particular `(+)` is 0. */
  lemma {:induction false} AddIsSum(s: seq<int>)
    ensures AddResult(Integers(s)) == Integer(Sum(s))
  {
    TotalIsSum(s);
  }

  lemma {:induction false} TotalIsSum(s: seq<int>)
    ensures Total(Integers(s)) == Sum(s)
  {
    if s != [] {
      TotalIsSum(s[1..]);
    }
  }

  /** `(- n)` is -n, and `(- n m1 … mk)` is n minus the sum of the mi. */
  lemma SubIsDifference(n: int, s: seq<int>)
    ensures SubResult(Integers([n] + s)) == Integer(if s == [] then -n else n - Sum(s))
  {
    assert ([n] + s)[1..] == s;
    TotalIsSum(s);
  }

  /** With two or more integers `sub` is a left fold: the first step subtracts the second. */
  lemma SubFoldsLeft(a: int, b: int, rest: Value)
    requires IntegerList(rest)
    ensures SubResult(Cons(Integer(a), Cons(Integer(b), rest))) == Integer(a - b - Total(rest))
  {
  }

  /** Sub and add agree on the tail: `(- n args…)` is n minus `(+ args…)` for two or more arguments. */
  lemma SubIsFirstMinusAdd(n: int, rest: Value)
    requires rest != Nil
    ensures SubResult(Cons(Integer(n), rest)) ==
      if AddResult(rest).Integer? then Integer(n - AddResult(rest).i) else Nil
  {
  }

  /** One non-integer element anywhere, or an improper tail, makes `add` return nil. */
  lemma {:induction false} AddRejects(s: seq<Value>, tail: Value)
    requires (exists i :: 0 <= i < |s| && !s[i].Integer?) || tail != Nil
    requires !tail.Cons?
    ensures AddResult(Append(s, tail)) == Nil
  {
    if s != [] && s[0].Integer? {
      if tail == Nil {
        var i :| 0 <= i < |s| && !s[i].Integer?;
        assert !s[1..][i - 1].Integer?;
      }
      AddRejects(s[1..], tail);
    }
  }

  /** The list of `s` ending in `tail` instead of nil. */
  function Append(s: seq<Value>, tail: Value): Value {
    if s == [] then tail else Cons(s[0], Append(s[1..], tail))
  }

  /** `sub` with no integer to start from returns zero, not nil. */
  lemma SubWithoutFirstInteger(args: Value)
    requires !(args.Cons? && args.car.Integer?)
    ensures SubResult(args) == Zero
  {
  }

  /** The registry that `Builtins::new` builds: `+` is `add` and `-` is `sub`. */
  const Defaults: map<string, Builtin> := map["+" := AddResult]["-" := SubResult]

  /** The registry of primitives, with the capacity fixed when it is declared. */
  class Registry {
    var entries: map<string, Builtin>
    const capacity: nat

    /** `Builtins::new`: exactly `+` and `-` are registered. */
    constructor (capacity: nat)
      requires capacity >= 2
      ensures this.capacity == capacity
      ensures entries == Defaults
    {
      this.capacity := capacity;
      entries := map[];
      new;
      var ok := Add("+", AddResult);
      ok := Add("-", SubResult);
    }

    /** `Builtins::add`: `ok == false` is the panic of a new name in a full registry. */
    method Add(key: string, builtin: Builtin) returns (ok: bool)
      modifies this
      ensures ok == BoundedMap.Insert(old(entries), capacity, key, builtin).Some?
      ensures entries == if ok then old(entries)[key := builtin] else old(entries)
    {
      var r := BoundedMap.Insert(entries, capacity, key, builtin);
      if r.Some? {
        entries := r.value;
        ok := true;
      } else {
        ok := false;
      }
    }

    /** `Builtins::get`. */
    function Get(key: string): (r: Option<Builtin>)
      reads this
      ensures r.Some? <==> key in entries
      ensures r.Some? ==> r.value == entries[key]
    {
      BoundedMap.Get(entries, key)
    }
  }
}

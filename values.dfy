/**
 * The runtime datum of the interpreter (src/value.rs): a closed five-case variant.
 * Text slices are modelled as strings; equality of symbols is by content.
 */
module Values {

  /** Signed 64-bit bounds of `Integer(i64)`. */
  const I64Min: int := -0x8000_0000_0000_0000
  const I64Max: int := 0x7FFF_FFFF_FFFF_FFFF

  /** The float payload of `Number` is kept opaque: no operation of the core computes with it. */
  type Float = real

  datatype Value =
    | Integer(i: int)
    | Number(x: Float)
    | String(text: string)
    | Symbol(name: string)
    | Cons(car: Value, cdr: Value)

  /** `NIL_SYM` and `ZERO` of the constants module. */
  const Nil: Value := Symbol("nil")
  const Zero: Value := Integer(0)

  predicate InI64(n: int) { I64Min <= n <= I64Max }

  /** A chain of Cons cells that ends in `Symbol("nil")`. */
  predicate IsProperList(v: Value) {
    if v.Cons? then IsProperList(v.cdr) else v == Nil
  }

  /** The elements of a proper list, in order. */
  function Elements(v: Value): (r: seq<Value>)
    requires IsProperList(v)
    ensures |r| == 0 <==> v == Nil
  {
    if v.Cons? then [v.car] + Elements(v.cdr) else []
  }

  /** The proper list whose elements are `s`. */
  function FromSeq(s: seq<Value>): (r: Value)
    ensures IsProperList(r)
  {
    if s == [] then Nil else Cons(s[0], FromSeq(s[1..]))
  }

  /** Proper lists and element sequences are in one-to-one correspondence. */
  lemma {:induction false} ElementsFromSeq(s: seq<Value>)
    ensures Elements(FromSeq(s)) == s
  {
    if s != [] {
      ElementsFromSeq(s[1..]);
    }
  }

  lemma {:induction false} FromSeqElements(v: Value)
    requires IsProperList(v)
    ensures FromSeq(Elements(v)) == v
  {
    if v.Cons? {
      FromSeqElements(v.cdr);
      assert Elements(v)[1..] == Elements(v.cdr);
    }
  }
}

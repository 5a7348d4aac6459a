/**
 * The recursive-descent reader of src/parser.rs, built there from nom combinators.
 * Each reader is a function from the remaining input to a `Parsed` outcome; pool allocation
 * is left out, so a successful reader yields the value it would have allocated.
 */
module Parser {
  import opened Values

  /**
   * The outcome of a nom reader: `Ok` carries the value and the unconsumed rest; `Error` is the
   * recoverable error on which `alt` tries its next alternative; `Incomplete` is nom's "needs more
   * input", which `alt` and `?` pass straight up; `Diverges` stands for a reader that calls itself
   * again on the same input. Each such level keeps a freshly allocated empty symbol, so the source
   * recurses without consuming input until an allocation finds the pool full and panics: that of
   * `new_symbol` (src/pool.rs:109) for the empty symbol, or, when the stuck position starts a
   * dotted tail that fails, possibly that of `new_integer` (src/pool.rs:98) or `new_cons`
   * (src/pool.rs:114) while `cons_pair` reads the element after the dot.
   */
  datatype Parsed =
    | Ok(v: Value, rest: string)
    | Error
    | Incomplete
    | Diverges

  predicate IsSuffix(r: string, s: string) {
    |r| <= |s| && r == s[|s| - |r|..]
  }

  lemma SuffixTransitive(a: string, b: string, c: string)
    requires IsSuffix(a, b) && IsSuffix(b, c)
    ensures IsSuffix(a, c)
  {
    assert c[|c| - |b|..][|b| - |a|..] == c[|c| - |a|..];
  }

  /** A successful reader hands back a suffix of its input. */
  predicate Consumes(p: Parsed, s: string) {
    p.Ok? ==> IsSuffix(p.rest, s)
  }

  /** `space0`: horizontal spaces and tabs. */
  predicate IsSpace(c: char) { c == ' ' || c == '\t' }

  predicate IsDigit(c: char) { '0' <= c <= '9' }

  /** `AsChar::is_alphanum` on `char`: ASCII letters and ASCII digits. */
  predicate IsAlphanumeric(c: char) { 'a' <= c <= 'z' || 'A' <= c <= 'Z' || IsDigit(c) }

  /** The characters the symbol reader keeps (src/parser.rs:59). */
  predicate IsSymbolChar(c: char) { IsAlphanumeric(c) || c == '+' || c == '-' }

  predicate StartsWith(s: string, c: char) { s != [] && s[0] == c }

  /** `space0`: drops the longest prefix of spaces and tabs. */
  function Space0(s: string): (r: string)
    ensures IsSuffix(r, s)
    ensures r == [] || !IsSpace(r[0])
    ensures forall i :: 0 <= i < |s| - |r| ==> IsSpace(s[i])
  {
    if s != [] && IsSpace(s[0]) then Space0(s[1..]) else s
  }

  /** The length of the longest prefix of decimal digits. */
  function DigitRun(s: string): (n: nat)
    ensures n <= |s|
    ensures forall i :: 0 <= i < n ==> IsDigit(s[i])
    ensures n < |s| ==> !IsDigit(s[n])
  {
    if s != [] && IsDigit(s[0]) then 1 + DigitRun(s[1..]) else 0
  }

  /** The length of the longest prefix of symbol characters. */
  function SymbolRun(s: string): (n: nat)
    ensures n <= |s|
    ensures forall i :: 0 <= i < n ==> IsSymbolChar(s[i])
    ensures n < |s| ==> !IsSymbolChar(s[n])
  {
    if s != [] && IsSymbolChar(s[0]) then 1 + SymbolRun(s[1..]) else 0
  }

  predicate AllDigits(d: string) { forall i :: 0 <= i < |d| ==> IsDigit(d[i]) }

  /** The number a string of decimal digits denotes, most significant digit first. */
  function DigitsValue(d: string): nat
    requires AllDigits(d)
  {
    if d == [] then 0 else DigitsValue(d[..|d| - 1]) * 10 + (d[|d| - 1] as int - '0' as int)
  }

  /**
   * `integer` (src/parser.rs:13-15), nom's complete `i64`: an optional `-` or `+`, then the longest
   * run of at least one decimal digit, whose value must fit in 64 bits. There is no lookahead: the
   * character after the digits is left for the caller.
   */
  function ReadInteger(s: string): (r: Parsed)
    ensures Consumes(r, s)
    ensures r.Error? || r.Ok?
    ensures r.Ok? ==> r.v.Integer? && InI64(r.v.i) && |r.rest| < |s|
    ensures r.Ok? ==> r.rest == [] || !IsDigit(r.rest[0])
    ensures s == [] || DigitRun(if s[0] == '-' || s[0] == '+' then s[1..] else s) == 0 ==> r.Error?
  {
    if s == [] then Error
    else
      var negative := s[0] == '-';
      var digits := if s[0] == '-' || s[0] == '+' then s[1..] else s;
      var n := DigitRun(digits);
      if n == 0 then Error
      else
        var magnitude: int := DigitsValue(digits[..n]);
        var value: int := if negative then -magnitude else magnitude;
        if InI64(value) then Ok(Integer(value), digits[n..]) else Error
  }

  /** `cons_end` (src/parser.rs:17-21): `)` closes a proper list with nil. */
  function ReadConsEnd(s: string): (r: Parsed)
    ensures Consumes(r, s)
    ensures r.Ok? <==> StartsWith(Space0(s), ')')
    ensures r.Ok? ==> r.v == Nil && r.rest == Space0(s)[1..]
    ensures r.Error? || r.Ok?
  {
    var t := Space0(s);
    if StartsWith(t, ')') then Ok(Nil, t[1..]) else Error
  }

  /** `cons_pair` (src/parser.rs:23-31): `. expr )` gives the dotted tail `expr`. */
  function ReadConsPair(s: string): (r: Parsed)
    decreases |s|, 0
    ensures Consumes(r, s)
    ensures r.Ok? ==> |r.rest| < |s|
    ensures !StartsWith(Space0(s), '.') ==> r.Error?
  {
    var t := Space0(s);
    if !StartsWith(t, '.') then Error
    else
      var cdr := Parse(Space0(t[1..]));
      if !cdr.Ok? then cdr
      else
        var w := Space0(cdr.rest);
        if !StartsWith(w, ')') then Error
        else
          SuffixTransitive(Space0(t[1..]), t[1..], t);
          SuffixTransitive(Space0(t[1..]), t, s);
          SuffixTransitive(cdr.rest, Space0(t[1..]), s);
          SuffixTransitive(w, cdr.rest, s);
          SuffixTransitive(w[1..], w, s);
          Ok(cdr.v, w[1..])
  }

  /**
   * `cons_rest` (src/parser.rs:33-45): `)`, else `. expr )`, else another element followed by the
   * rest of the list. When that element consumes nothing, the source calls `cons_rest` again on
   * the very same input, keeping one more empty symbol per level, until the first allocation that
   * finds the pool full panics: that is `Diverges`.
   */
  function ReadConsRest(s: string): (r: Parsed)
    decreases |s|, 3
    ensures Consumes(r, s)
    ensures r.Ok? ==> |r.rest| < |s|
    ensures !r.Error?
  {
    var end := ReadConsEnd(s);
    if !end.Error? then end
    else
      var pair := ReadConsPair(s);
      if !pair.Error? then pair
      else
        var car := Parse(Space0(s));
        if !car.Ok? then car
        else if |car.rest| == |s| then Diverges
        else
          SuffixTransitive(car.rest, Space0(s), s);
          var cdr := ReadConsRest(car.rest);
          if !cdr.Ok? then cdr
          else
            SuffixTransitive(cdr.rest, car.rest, s);
            Ok(Cons(car.v, cdr.v), cdr.rest)
  }

  /** `cons` (src/parser.rs:47-54): `(` then an element then the rest; always a Cons cell. */
  function ReadCons(s: string): (r: Parsed)
    decreases |s|, 1
    ensures Consumes(r, s)
    ensures r.Error? <==> !StartsWith(Space0(s), '(')
    ensures r.Ok? ==> r.v.Cons? && |r.rest| < |s|
  {
    var t := Space0(s);
    if !StartsWith(t, '(') then Error
    else
      var car := Parse(t[1..]);
      if !car.Ok? then car
      else
        var cdr := ReadConsRest(car.rest);
        if !cdr.Ok? then cdr
        else
          SuffixTransitive(t[1..], t, s);
          SuffixTransitive(car.rest, t[1..], s);
          SuffixTransitive(cdr.rest, car.rest, s);
          Ok(Cons(car.v, cdr.v), cdr.rest)
  }

  /**
   * `symbol` (src/parser.rs:56-62): the longest run of symbol characters, possibly empty. The run
   * must end before the input does (`split_at_position` reports `Incomplete` otherwise).
   */
  function ReadSymbol(s: string): (r: Parsed)
    ensures Consumes(r, s)
    ensures r.Ok? || r.Incomplete?
    ensures r.Ok? ==> r.v.Symbol? && Space0(s) == r.v.name + r.rest
    ensures r.Ok? ==> forall i :: 0 <= i < |r.v.name| ==> IsSymbolChar(r.v.name[i])
    ensures r.Ok? ==> r.rest != [] && !IsSymbolChar(r.rest[0])
    ensures r.Incomplete? <==> forall i :: 0 <= i < |Space0(s)| ==> IsSymbolChar(Space0(s)[i])
  {
    var t := Space0(s);
    var n := SymbolRun(t);
    SymbolSplit(t, n);
    if n == |t| then Incomplete
    else
      SuffixTransitive(t[n..], t, s);
      Ok(Symbol(t[..n]), t[n..])
  }

  /** The run of symbol characters at the start of `t` and what is left after it. */
  lemma SymbolSplit(t: string, n: nat)
    requires n == SymbolRun(t)
    ensures n <= |t| && t == t[..n] + t[n..] && IsSuffix(t[n..], t)
    ensures forall i :: 0 <= i < n ==> IsSymbolChar(t[..n][i])
    ensures n < |t| ==> t[n..] != [] && !IsSymbolChar(t[n..][0])
    ensures n == |t| <==> forall i :: 0 <= i < |t| ==> IsSymbolChar(t[i])
  {
    assert t == t[..n] + t[n..];
  }

  /**
   * `parse` (src/parser.rs:64-71): skip spaces and tabs, then the first of list, integer and symbol
   * that does not fail with `Error`.
   */
  function Parse(s: string): (r: Parsed)
    decreases |s|, 2
    ensures Consumes(r, s)
    ensures !r.Error?
  {
    var t := Space0(s);
    var list := ReadCons(t);
    if !list.Error? then list
    else
      var integer := ReadInteger(t);
      if !integer.Error? then integer else ReadSymbol(t)
  }
}

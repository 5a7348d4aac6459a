/**
 * Properties of the reader: a writer for the values the reader can produce and the round trip
 * `Parse(Show(v) + t) == Ok(v, t)`, the tie-breaks between the alternatives, and the inputs on
 * which the reader recurses without consuming input until the pool runs out.
 */
module ParserLemmas {
  import opened Values
  import opened Parser

  /** The decimal digits of `m`, most significant first, without leading zeros. */
  function Decimal(m: nat): (d: string)
    ensures |d| > 0 && AllDigits(d)
  {
    var last := ['0' + (m % 10) as char];
    if m < 10 then last else Decimal(m / 10) + last
  }

  function ShowInteger(n: int): string {
    if n < 0 then "-" + Decimal(-n) else Decimal(n)
  }

  /** A symbol the reader reads back as itself: a non-empty run of symbol characters that the
   *  integer alternative, tried first, does not claim. */
  predicate ReadableName(x: string) {
    && |x| > 0
    && (forall i :: 0 <= i < |x| ==> IsSymbolChar(x[i]))
    && !IsDigit(x[0])
    && !(|x| > 1 && (x[0] == '-' || x[0] == '+') && IsDigit(x[1]))
  }

  predicate Readable(v: Value)
    decreases v, 0
  {
    match v
    case Integer(n) => InI64(n)
    case Symbol(x) => ReadableName(x)
    case Cons(a, d) => Readable(a) && ReadableTail(d)
    case _ => false
  }

  predicate ReadableTail(d: Value)
    decreases d, 1
  {
    if d.Cons? then Readable(d.car) && ReadableTail(d.cdr) else d == Nil || Readable(d)
  }

  /** The concrete syntax of a readable value: `(a b . c)` style lists. */
  function Show(v: Value): string
    decreases v, 0
  {
    match v
    case Integer(n) => ShowInteger(n)
    case Symbol(x) => x
    case Cons(a, d) => "(" + Show(a) + ShowTail(d)
    case _ => ""
  }

  function ShowTail(d: Value): string
    decreases d, 1
  {
    if d == Nil then ")"
    else if d.Cons? then " " + Show(d.car) + ShowTail(d.cdr)
    else " . " + Show(d) + ")"
  }

  /** What may follow an atom so that the atom's reader stops exactly there. */
  predicate Delimits(t: string) { t != [] && !IsSymbolChar(t[0]) }

  lemma {:induction false} DecimalValue(m: nat)
    ensures DigitsValue(Decimal(m)) == m
  {
    var d := Decimal(m);
    if m >= 10 {
      DecimalValue(m / 10);
      assert d[..|d| - 1] == Decimal(m / 10);
    }
  }

  lemma {:induction false} DigitRunOf(d: string, t: string)
    requires AllDigits(d)
    requires t == [] || !IsDigit(t[0])
    ensures DigitRun(d + t) == |d|
    ensures (d + t)[..|d|] == d && (d + t)[|d|..] == t
  {
    if d != [] {
      assert (d + t)[1..] == d[1..] + t;
      DigitRunOf(d[1..], t);
    }
  }

  lemma {:induction false} SymbolRunOf(x: string, t: string)
    requires forall i :: 0 <= i < |x| ==> IsSymbolChar(x[i])
    requires Delimits(t)
    ensures SymbolRun(x + t) == |x|
    ensures (x + t)[..|x|] == x && (x + t)[|x|..] == t
  {
    if x != [] {
      assert (x + t)[1..] == x[1..] + t;
      SymbolRunOf(x[1..], t);
    }
  }

  /** Every 64-bit integer is read back from its decimal form when a non-digit follows. */
  lemma IntegerRoundTrip(n: int, t: string)
    requires InI64(n)
    requires t == [] || !IsDigit(t[0])
    ensures ReadInteger(ShowInteger(n) + t) == Ok(Integer(n), t)
  {
    var m: nat := if n < 0 then -n else n;
    var d := Decimal(m);
    DecimalValue(m);
    if n < 0 {
      assert ShowInteger(n) == "-" + d;
      SignStarts('-', d, t);
      ReadSigned("-" + d + t, d, t, m);
    } else {
      assert ShowInteger(n) == d;
      ReadUnsigned(d, t, m);
    }
  }

  /** Digits without a sign, followed by a non-digit. */
  lemma ReadUnsigned(d: string, t: string, m: nat)
    requires d != [] && AllDigits(d) && DigitsValue(d) == m
    requires t == [] || !IsDigit(t[0])
    ensures ReadInteger(d + t) == if InI64(m) then Ok(Integer(m), t) else Error
  {
    DigitRunOf(d, t);
    assert (d + t)[0] == d[0];
  }

  /** A sign and digits, followed by a non-digit. */
  lemma ReadSigned(s: string, d: string, t: string, m: nat)
    requires s != [] && (s[0] == '-' || s[0] == '+') && s[1..] == d + t
    requires d != [] && AllDigits(d) && DigitsValue(d) == m
    requires t == [] || !IsDigit(t[0])
    ensures var v := if s[0] == '-' then -(m as int) else m;
      ReadInteger(s) == if InI64(v) then Ok(Integer(v), t) else Error
    ensures var v := if s[0] == '-' then -(m as int) else m;
      InI64(v) ==> Parse(s) == Ok(Integer(v), t)
  {
    DigitRunOf(d, t);
    assert (d + t)[..|d|] == d && (d + t)[|d|..] == t;
    if ReadInteger(s).Ok? {
      ParseInteger(s);
    }
  }

  lemma ShowStartsOutside(v: Value)
    requires Readable(v)
    ensures Show(v) != [] && !IsSpace(Show(v)[0]) && Show(v)[0] != ')' && Show(v)[0] != '.'
  {
  }

  lemma NoSpaceToSkip(s: string)
    requires s != [] && !IsSpace(s[0])
    ensures Space0(s) == s
  {
  }

  /** Round trip of the reader against the writer. */
  lemma {:induction false} ParseShow(v: Value, t: string)
    requires Readable(v)
    requires v.Cons? || Delimits(t)
    ensures Parse(Show(v) + t) == Ok(v, t)
    decreases v, 0
  {
    var s := Show(v) + t;
    ShowStartsOutside(v);
    NoSpaceToSkip(s);
    match v
    case Integer(n) =>
      assert !StartsWith(s, '(');
      IntegerRoundTrip(n, t);
    case Symbol(x) =>
      assert !StartsWith(s, '(');
      assert ReadInteger(s) == Error by {
        if x[0] == '-' || x[0] == '+' {
          assert s[1..] == x[1..] + t;
          assert s[1..] != [] && !IsDigit(s[1..][0]);
        }
      }
      SymbolRunOf(x, t);
    case Cons(a, d) =>
      var rest := ShowTail(d) + t;
      ShowTailStart(d);
      ParseShow(a, rest);
      ConsRestShowTail(d, t);
      ListOf(Show(a) + rest, a, rest);
      Regroup("(", Show(a), ShowTail(d), t);
  }

  lemma Regroup5(a: string, b: string, c: string, d: string, e: string, f: string)
    ensures a + b + c + d + e + f == a + (b + (c + d + e + f))
  {
  }

  lemma Regroup(a: string, b: string, c: string, d: string)
    ensures a + b + c + d == a + (b + (c + d))
    ensures a + b + c + d == a + b + (c + d)
  {
  }

  lemma ShowTailStart(d: Value)
    ensures ShowTail(d) != [] && (ShowTail(d)[0] == ')' || ShowTail(d)[0] == ' ')
  {
  }

  lemma {:induction false} ConsRestShowTail(d: Value, t: string)
    requires ReadableTail(d)
    ensures ReadConsRest(ShowTail(d) + t) == Ok(d, t)
    decreases d, 1
  {
    if d == Nil {
      TailNil(t);
    } else if d.Cons? {
      ShowTailStart(d.cdr);
      ShowStartsOutside(d.car);
      ParseShow(d.car, ShowTail(d.cdr) + t);
      ConsRestShowTail(d.cdr, t);
      TailCons(d.car, d.cdr, t);
    } else {
      ShowStartsOutside(d);
      ParseShow(d, ")" + t);
      TailDotted(d, t);
    }
  }

  lemma TailNil(t: string)
    ensures ReadConsRest(")" + t) == Ok(Nil, t)
    ensures ReadConsRest(ShowTail(Nil) + t) == Ok(Nil, t)
  {
    assert ShowTail(Nil) + t == ")" + t;
    NoSpaceToSkip(")" + t);
  }

  lemma TailCons(car: Value, cdr: Value, t: string)
    requires Show(car) != [] && !IsSpace(Show(car)[0]) && Show(car)[0] != ')' && Show(car)[0] != '.'
    requires Parse(Show(car) + (ShowTail(cdr) + t)) == Ok(car, ShowTail(cdr) + t)
    requires ReadConsRest(ShowTail(cdr) + t) == Ok(cdr, t)
    ensures ReadConsRest(ShowTail(Cons(car, cdr)) + t) == Ok(Cons(car, cdr), t)
  {
    var x, y := Show(car), ShowTail(cdr);
    assert ShowTail(Cons(car, cdr)) == " " + x + y;
    Regroup(" ", x, y, t);
    ConsRestElement(x, y + t, car, cdr, t);
  }

  lemma TailDotted(d: Value, t: string)
    requires d != Nil && !d.Cons?
    requires Show(d) != [] && !IsSpace(Show(d)[0])
    requires Parse(Show(d) + (")" + t)) == Ok(d, ")" + t)
    ensures ReadConsRest(ShowTail(d) + t) == Ok(d, t)
  {
    var x := Show(d);
    assert ShowTail(d) + t == " . " + x + ")" + t;
    ConsRestDotted(x, d, t);
  }

  /** One unfolding of `cons_rest` through its third alternative. */
  lemma ConsRestStep(s: string, rest: string, car: Value, cdr: Value, t: string)
    requires ReadConsEnd(s).Error? && ReadConsPair(s).Error?
    requires Parse(Space0(s)) == Ok(car, rest)
    requires |rest| < |s|
    requires ReadConsRest(rest) == Ok(cdr, t)
    ensures ReadConsRest(s) == Ok(Cons(car, cdr), t)
  {
  }

  /** Before an element that starts with neither `)` nor `.`, the first two alternatives fail. */
  lemma ElementAhead(x: string, rest: string)
    requires x != [] && !IsSpace(x[0]) && x[0] != ')' && x[0] != '.'
    ensures Space0(" " + x + rest) == x + rest
    ensures ReadConsEnd(" " + x + rest).Error? && ReadConsPair(" " + x + rest).Error?
  {
    var s := " " + x + rest;
    assert s[1..] == x + rest;
    NoSpaceToSkip(x + rest);
  }

  /** One more element: the third alternative reads it. */
  lemma ConsRestElement(x: string, rest: string, car: Value, cdr: Value, t: string)
    requires x != [] && !IsSpace(x[0]) && x[0] != ')' && x[0] != '.'
    requires Parse(x + rest) == Ok(car, rest)
    requires ReadConsRest(rest) == Ok(cdr, t)
    ensures ReadConsRest(" " + x + rest) == Ok(Cons(car, cdr), t)
  {
    ElementAhead(x, rest);
    ConsRestStep(" " + x + rest, rest, car, cdr, t);
  }

  /** One unfolding of `cons_pair` that succeeds. */
  lemma ConsPairStep(s: string, y: string, d: Value, r: string)
    requires Space0(s) == "." + y
    requires Parse(Space0(y)) == Ok(d, r)
    requires StartsWith(Space0(r), ')')
    ensures ReadConsPair(s) == Ok(d, Space0(r)[1..])
  {
    assert Space0(s)[1..] == y;
  }

  /** Before `. x )`, `cons_end` fails and `cons_pair` reaches `x`. */
  lemma DottedAhead(x: string, t: string)
    requires x != [] && !IsSpace(x[0])
    ensures Space0(" . " + x + ")" + t) == "." + (" " + (x + (")" + t)))
    ensures Space0(" " + (x + (")" + t))) == x + (")" + t)
    ensures ReadConsEnd(" . " + x + ")" + t).Error?
    ensures Space0(")" + t) == ")" + t
  {
    var w := x + (")" + t);
    var s := " . " + x + ")" + t;
    assert s == " . " + w;
    assert s[1..] == "." + (" " + w);
    NoSpaceToSkip(s[1..]);
    assert (" " + w)[1..] == w;
    NoSpaceToSkip(w);
    NoSpaceToSkip(")" + t);
  }

  /** A dotted tail: `. expr )`. */
  lemma ConsRestDotted(x: string, d: Value, t: string)
    requires x != [] && !IsSpace(x[0])
    requires Parse(x + (")" + t)) == Ok(d, ")" + t)
    ensures ReadConsRest(" . " + x + ")" + t) == Ok(d, t)
  {
    DottedAhead(x, t);
    ConsPairStep(" . " + x + ")" + t, " " + (x + (")" + t)), d, ")" + t);
  }

  /** `(a b c)` reads as a nil-terminated chain of three Cons cells. */
  lemma ProperListExample(s: string)
    requires s == "(a b c)\n"
    ensures Parse(s) == Ok(Cons(Symbol("a"), Cons(Symbol("b"), Cons(Symbol("c"), Nil))), "\n")
  {
    var v := Cons(Symbol("a"), Cons(Symbol("b"), Cons(Symbol("c"), Nil)));
    assert Show(v) + "\n" == s;
    ParseShow(v, "\n");
  }

  /** A dotted tail replaces the nil terminator. */
  lemma DottedListExample(s: string)
    requires s == "(a b . c)\n"
    ensures Parse(s) == Ok(Cons(Symbol("a"), Cons(Symbol("b"), Symbol("c"))), "\n")
  {
    var v := Cons(Symbol("a"), Cons(Symbol("b"), Symbol("c")));
    assert Show(v) + "\n" == s;
    ParseShow(v, "\n");
  }

  /** A sign followed by digits is an integer, because the integer alternative comes before the
   *  symbol alternative. */
  lemma {:induction false} SignedDigitsAreIntegers(sign: char, m: nat, t: string)
    requires sign == '+' || sign == '-'
    requires InI64(if sign == '-' then -(m as int) else m)
    requires t == [] || !IsDigit(t[0])
    ensures Parse([sign] + Decimal(m) + t) == Ok(Integer(if sign == '-' then -(m as int) else m), t)
  {
    DecimalValue(m);
    SignedDigits(sign, Decimal(m), t, m);
  }

  lemma SignedDigits(sign: char, d: string, t: string, m: nat)
    requires sign == '+' || sign == '-'
    requires d != [] && AllDigits(d) && DigitsValue(d) == m
    requires InI64(if sign == '-' then -(m as int) else m)
    requires t == [] || !IsDigit(t[0])
    ensures Parse([sign] + d + t) == Ok(Integer(if sign == '-' then -(m as int) else m), t)
  {
    SignStarts(sign, d, t);
    ReadSigned([sign] + d + t, d, t, m);
  }

  lemma SignStarts(sign: char, d: string, t: string)
    ensures [sign] + d + t != [] && ([sign] + d + t)[0] == sign && ([sign] + d + t)[1..] == d + t
  {
    assert [sign] + d + t == [sign] + (d + t);
  }

  /** Where the integer reader succeeds on input that neither skips spaces nor opens a list, the
   *  reader's outcome is the integer's. */
  lemma ParseInteger(s: string)
    requires s != [] && !IsSpace(s[0]) && s[0] != '(' && ReadInteger(s).Ok?
    ensures Parse(s) == ReadInteger(s)
  {
    NoSpaceToSkip(s);
  }

  /** A sign on its own is a symbol. */
  lemma BareSignsAreSymbols(sign: char, t: string)
    requires sign == '+' || sign == '-'
    requires Delimits(t)
    ensures Parse([sign] + t) == Ok(Symbol([sign]), t)
  {
    ParseShow(Symbol([sign]), t);
  }

  /** Input that opens with `(` is read by the list alternative. */
  lemma ParseList(s: string)
    requires s != [] && s[0] == '('
    ensures Parse(s) == ReadCons(s)
  {
    NoSpaceToSkip(s);
  }

  /** One unfolding of `cons` that reads its first element. */
  lemma ConsStep(s: string, car: Value, rest: string)
    requires s != [] && s[0] == '('
    requires Parse(s[1..]) == Ok(car, rest)
    ensures var r := ReadConsRest(rest);
      ReadCons(s) == if r.Ok? then Ok(Cons(car, r.v), r.rest) else r
  {
    NoSpaceToSkip(s);
  }

  /** A list whose first element `car` is read from `y`: the list's outcome is that of `cons_rest`
   *  on what follows the element. */
  lemma ListOf(y: string, car: Value, rest: string)
    requires Parse(y) == Ok(car, rest)
    ensures var r := ReadConsRest(rest);
      Parse("(" + y) == if r.Ok? then Ok(Cons(car, r.v), r.rest) else r
  {
    var s := "(" + y;
    assert s[1..] == y;
    ConsStep(s, car, rest);
    ParseList(s);
  }

  /** No lookahead after an integer: inside a list `m.k` is the integer m with the dotted tail k. */
  lemma NoFloatInsideList(m: nat, k: nat, t: string)
    requires m <= I64Max && k <= I64Max
    ensures Parse("(" + Decimal(m) + "." + Decimal(k) + ")" + t) == Ok(Cons(Integer(m), Integer(k)), t)
  {
    var x, y := Decimal(m), Decimal(k);
    var afterCar := "." + y + ")" + t;
    FirstInteger(m, afterCar);
    DottedInteger(k, t);
    ListOf(x + afterCar, Integer(m), afterCar);
    Regroup5("(", x, ".", y, ")", t);
  }

  lemma FirstInteger(m: nat, afterCar: string)
    requires m <= I64Max && afterCar != [] && afterCar[0] == '.'
    ensures Parse(Decimal(m) + afterCar) == Ok(Integer(m), afterCar)
  {
    IntegerAhead(m, afterCar);
  }

  lemma DottedInteger(k: nat, t: string)
    requires k <= I64Max
    ensures ReadConsRest("." + Decimal(k) + ")" + t) == Ok(Integer(k), t)
  {
    var y := Decimal(k);
    IntegerAhead(k, ")" + t);
    assert IsDigit(y[0]);
    DotTail(y, Integer(k), t);
  }

  /** `.y)` is the dotted tail read from `y`. */
  lemma DotTail(y: string, d: Value, t: string)
    requires y != [] && !IsSpace(y[0])
    requires Parse(y + (")" + t)) == Ok(d, ")" + t)
    ensures ReadConsRest("." + y + ")" + t) == Ok(d, t)
  {
    Regroup(".", y, ")", t);
    DotThen("." + y + ")" + t, y + (")" + t), d, t);
  }

  /** An integer followed by a non-digit is read on its own. */
  lemma IntegerAhead(m: nat, u: string)
    requires m <= I64Max && (u == [] || !IsDigit(u[0]))
    ensures Parse(Decimal(m) + u) == Ok(Integer(m), u)
  {
    var x := Decimal(m);
    IntegerRoundTrip(m, u);
    assert ShowInteger(m) == x;
    assert (x + u)[0] == x[0];
    ParseInteger(x + u);
  }

  /** `.`, an element and `)`, with no spaces in between, is a dotted tail. */
  lemma DotThen(s: string, w: string, d: Value, t: string)
    requires s == "." + w && w != [] && !IsSpace(w[0])
    requires Parse(w) == Ok(d, ")" + t)
    ensures ReadConsRest(s) == Ok(d, t)
  {
    NoSpaceToSkip(s);
    NoSpaceToSkip(w);
    NoSpaceToSkip(")" + t);
    assert ReadConsEnd(s).Error?;
    assert Space0(s) == "." + w;
    ConsPairStep(s, w, d, ")" + t);
    assert (")" + t)[1..] == t;
  }

  /** `()` is not nil: the element reader takes the empty symbol before `)`. */
  lemma EmptyListIsConsOfEmptySymbol(t: string)
    ensures Parse("()" + t) == Ok(Cons(Symbol(""), Nil), t)
  {
    EmptySymbolBeforeClose(t);
    TailNil(t);
    ListOf(")" + t, Symbol(""), ")" + t);
    OpenClose(t);
  }

  lemma OpenClose(t: string)
    ensures "()" + t == "(" + (")" + t)
  {
  }

  /** Before `)` the element reader succeeds with the empty symbol and consumes nothing. */
  lemma EmptySymbolBeforeClose(t: string)
    ensures Parse(")" + t) == Ok(Symbol(""), ")" + t)
  {
    var u := ")" + t;
    NoSpaceToSkip(u);
    assert ReadCons(u).Error?;
    assert ReadInteger(u).Error?;
    assert SymbolRun(u) == 0;
    assert u[..0] == "";
  }

  /** A character that no alternative of `cons_rest` consumes. */
  predicate Stuck(c: char) {
    !IsSpace(c) && !IsSymbolChar(c) && c != '(' && c != ')' && c != '.'
  }

  /** Inside a list, such a character is read as the empty symbol without consuming anything, and
   *  `cons_rest` then calls itself on the same input, allocating one more empty symbol each time,
   *  until the pool is exhausted and `new_symbol` panics. */
  lemma StuckListDiverges(s: string)
    requires s != [] && Stuck(s[0])
    ensures ReadConsRest(s) == Diverges
  {
    NoSpaceToSkip(s);
    assert ReadConsEnd(s).Error? && ReadConsPair(s).Error?;
    assert ReadCons(s).Error?;
    assert ReadInteger(s).Error?;
    assert SymbolRun(s) == 0;
    assert s[..0] == "";
    assert ReadSymbol(s) == Ok(Symbol(""), s);
  }

  /** So `(a*)` ends in that panic instead of a value, and so does a list left open at the end of a
   *  line, `(a\n`. */
  lemma StuckListsDiverge(v: Value, c: char, t: string)
    requires Readable(v) && Stuck(c)
    ensures Parse("(" + Show(v) + [c] + t) == Diverges
  {
    var rest := [c] + t;
    assert rest[0] == c;
    ParseShow(v, rest);
    StuckListDiverges(rest);
    ListOf(Show(v) + rest, v, rest);
    Regroup("(", Show(v), [c], t);
  }

  /** A symbol that runs to the end of the input, alone or as the first element of a list, is
   *  `Incomplete`: the source's symbol reader asks for more input. */
  lemma SymbolAtEndOfInput(x: string)
    requires ReadableName(x)
    ensures Parse(x) == Incomplete
    ensures Parse("(" + x) == Incomplete
  {
    NoSpaceToSkip(x);
    assert ReadCons(x).Error?;
    assert ReadInteger(x).Error? by {
      if x[0] == '-' || x[0] == '+' {
        assert x[1..] == [] || !IsDigit(x[1..][0]);
      }
    }
    SymbolRunOf(x, " ");
    assert SymbolRun(x) == |x| by {
      SymbolRunAll(x);
    }
    var s := "(" + x;
    NoSpaceToSkip(s);
    assert s[1..] == x;
  }

  lemma {:induction false} SymbolRunAll(x: string)
    requires forall i :: 0 <= i < |x| ==> IsSymbolChar(x[i])
    ensures SymbolRun(x) == |x|
  {
    if x != [] {
      SymbolRunAll(x[1..]);
    }
  }
}

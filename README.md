# myser: a small Lisp for fixed memory, modelled in Dafny

myser is a Lisp interpreter written in Rust. It needs no heap allocator. Values live in a
fixed-size, reference-counted pool of `N` cells. The environment and the table of primitives are
fixed-capacity hash maps.

This project models five parts of it:
- the value type;
- the pool: allocation with a rotating cursor, and the clone, drop and deref operations of a handle;
- the reader built from parser combinators: space skipping, integers, symbols, proper and dotted lists;
- the evaluator: the special forms `progn`, `let-`, `def` and `while`, calls of primitives, the
  atoms, and the evaluation of non-symbol-headed lists;
- the primitives `+` and `-`, and their registry.

The modules:
- `Values` is the value datatype and proper lists.
- `Pools` is the pool. It is a class over two arrays, the counts and the cell contents. A ghost
  multiset of the handles held outside the pool backs the invariant that every count equals the
  number of handles to its cell. A ghost rank per cell, set when the cell is filled, backs the
  invariant that no chain of Cons cells leads back to its start.
- `Parser` gives each reader as a function from the input to an outcome: `Ok(value, rest)`,
  `Error`, `Incomplete` or `Diverges`.
- `ParserLemmas` holds a writer for the readable values, the round trip
  `Parse(Show(v) + t) == Ok(v, t)`, and what the order of the alternatives implies. The readable
  values are 64-bit integers, non-empty symbols that the integer alternative does not claim, and
  lists of these. A value containing the empty symbol, which the reader itself builds for `()`,
  is not readable.
- `BoundedMap` models the capacity-bounded map that both the environment and the registry use.
- `Builtins` holds `add` and `sub` as loops, proved against reference functions, and the
  `Registry` class.
- `Semantics` gives the meaning of `eval` as functions. Each returns an outcome (`Done`, `Panic`
  or `OutOfFuel`) and the environment it leaves behind.
- `SemanticsLemmas` proves properties of that meaning.
- `Evaluator` holds `eval`, `eval_list` and the loops of `progn`, `let-` and `while` as methods on
  a `Cells` object that is updated in place. Each method is proved to agree with `Semantics` on
  both the outcome and the final environment.

Where the code and its design description disagree, the model follows the code:
- `()` is not `nil`. The element reader inside a list accepts the empty symbol, so `()` reads as
  the one-element list of the empty symbol.
- There is no floating-point literal. `(1.5)` reads as the dotted pair `(1 . 5)`.
- `let-` binds the key to the value of the whole rest of the binding pair. `(let- (x 5) …)`
  therefore binds `x` to the value of the list `(5)`, which is `(5)`.
- A list left open, or one holding a character no reader takes (such as `*` or a newline), makes
  the reader recurse without consuming input. Each level keeps a new empty symbol, so the source
  ends in the panic of the first allocation that finds the pool full, usually `new_symbol`
  (src/pool.rs:109). The model says `Diverges`.
- `let-` reads the entry it will put back only after evaluating the value (src/eval.rs:67 and 70).
  A value that binds the key itself therefore outlives the `let-`: `(let- (x def x 5))` leaves
  `x` bound to 5 even when it was unbound before. The entry after a `let-` equals the entry
  before it only when evaluating the value leaves that entry alone.

## Model

| member | source | states |
|---|---|---|
| Values.Value | src/value.rs:3-9 | the five kinds of value: a 64-bit integer (range in Values.InI64), a float, a string, a symbol, and a Cons of two values |
| Values.Elements | src/value.rs:3-9 | the elements of a proper list, empty exactly for `nil` |
| Values.FromSeq | src/value.rs:3-9 | building a list from elements always gives a proper list |
| Values.ElementsFromSeq | src/value.rs:3-9 | the elements of the list built from `s` are `s` |
| Values.FromSeqElements | src/value.rs:3-9 | rebuilding a proper list from its elements gives it back |
| Pools.Pool.Valid | src/pool.rs:56-59 | the invariant every pool operation keeps: one count and one cell per slot, the counts accounted for (Pools.Accounted) and the Cons cells ranked (Pools.Ranked) |
| Pools.Accounted | src/pool.rs:14-38 | every count equals the handles held outside the pool plus the Cons cells that point at that cell; a cell with count zero is empty, and every held handle points at a filled cell |
| Pools.Pool.constructor | src/pool.rs:58-63 | every cell is free, the cursor is 0, no handle is out, and the accounting invariant holds |
| Pools.Pool.Deref | src/pool.rs:36-42 | a live handle always reads an initialised payload, the one stored in its cell |
| Pools.Pool.Clone | src/pool.rs:14-21 | the cell's count goes up by one and one more handle to it is held; nothing else changes |
| Pools.Pool.Drop | src/pool.rs:22-35 | a handle is given up; a count above 1 just decreases; at 1 the cell is freed and a Cons payload's car and then cdr are dropped; no count grows, no cell is filled, and the invariant is kept |
| Pools.Pool.DropLast | src/pool.rs:26-32 | the last handle frees its cell; a Cons payload's handles are then dropped; the invariant is kept and nothing is allocated |
| Pools.Pool.Decrement | src/pool.rs:26-30 | the count decreases while the cell stays in use |
| Pools.Pool.Release | src/pool.rs:32 | the last handle frees the cell, and the payload's own handles pass to the caller |
| Pools.Pool.DropChildren | src/pool.rs:32 | dropping the two handles of a freed Cons payload, car first |
| Pools.Pool.Fill | src/pool.rs:74-79 | a free cell gets count 1 and the payload, which takes over its children's handles |
| Pools.Ranked | src/pool.rs:113-115 | every filled Cons cell has a rank above the ranks of its car and its cdr |
| Pools.Pool.Acyclic | src/pool.rs:65-115 | no chain of Cons cells in the pool leads from a cell back to itself, because a Cons is only ever written over handles that already exist |
| Pools.NoCycle | src/pool.rs:113-115 | under the ranking, a chain of two or more cells never ends where it started |
| Pools.RankDescends | src/pool.rs:113-115 | the rank strictly decreases along every chain of Cons cells |
| Pools.FillRanked | src/pool.rs:71-91 | filling a free cell keeps the ranking: no cell refers to a free cell, and the new cell ranks above its children |
| Pools.RankedUpdate | src/pool.rs:74-79 | writing a cell nothing points at, over children other than itself, keeps the ranking |
| Pools.Unreferenced | src/pool.rs:72 | a cell that no payload refers to is the child of no cell |
| Pools.ReleaseRanked | src/pool.rs:32 | emptying a cell keeps the ranking |
| Pools.FillSound | src/pool.rs:74-79 | filling a free cell keeps both the accounting and the ranking |
| Pools.RankOf | src/pool.rs:113-115 | a new Cons cell ranks above both of its children |
| Pools.Pool.Alloc | src/pool.rs:65-93 | the cursor always moves on by one; the cell taken is the first free one from the cursor modulo `N` to the end, then from 0; failure leaves the pool unchanged |
| Pools.Pool.FindFree | src/pool.rs:71-80 | one scan of `alloc`: the first cell of the range with count 0, or none |
| Pools.Pool.NewInteger | src/pool.rs:95-100 | allocates an integer cell with count 1, or fails on a full pool (the source's panic) |
| Pools.Pool.NewSymbol | src/pool.rs:102-111 | allocates a symbol cell with count 1, or fails on a full pool |
| Pools.Pool.NewCons | src/pool.rs:113-115 | allocates a Cons cell that takes over the two handles passed in |
| Pools.FirstFree | src/pool.rs:71-91 | the first cell of a range whose count is 0, or the fact that there is none |
| Pools.Choose | src/pool.rs:65-92 | the cell `alloc` takes: free, with every cell searched before it in use |
| Pools.ChooseFailsOnlyWhenFull | src/pool.rs:92 | allocation fails exactly when every cell is in use, wherever the search starts |
| Pools.SumOfCounts | src/pool.rs:8-11 | under the invariant, all counts add up to the outside handles plus two per Cons cell |
| Pools.CountsHandles | src/pool.rs:36-42 | a handle held outside keeps its cell in use and initialised |
| Pools.CloneAccounted | src/pool.rs:15-19 | a clone keeps the accounting invariant |
| Pools.DropAccounted | src/pool.rs:26-30 | a drop that leaves the count positive keeps the invariant |
| Pools.ReleaseAccounted | src/pool.rs:26-32 | freeing the last reference keeps the invariant, with the payload's children handed out |
| Pools.FillAccounted | src/pool.rs:74-79 | writing into a free cell keeps the invariant, with one new handle |
| Pools.ReleaseShrinks | src/pool.rs:32 | freeing takes exactly one cell out of use |
| Pools.ShrinksLive | src/pool.rs:22-35 | dropping never brings a cell back into use |
| Pools.RefsUpdate | src/pool.rs:8-11 | replacing one cell's contents changes each cell's inner references only by that cell's difference |
| Parser.Space0 | src/parser.rs:18 | drops the leading spaces and tabs, and only those |
| Parser.ReadInteger | src/parser.rs:13-15 | an optional sign and digits; a result always fits in 64 bits (an overflowing run is an error, stated in ParserLemmas.ReadSigned and ReadUnsigned); no digit after the optional sign is an error; the integer is followed by a non-digit |
| Parser.ReadConsEnd | src/parser.rs:17-21 | succeeds exactly on `)` after spaces, giving `nil` |
| Parser.ReadConsPair | src/parser.rs:23-31 | fails without a `.` after spaces; success consumes input |
| Parser.ReadConsRest | src/parser.rs:33-45 | never an error; success consumes input; the element alternative that makes no progress recurses on the same input until the pool is exhausted, which the model gives as `Diverges` |
| Parser.ReadCons | src/parser.rs:47-54 | an error exactly when no `(` follows the spaces; success is a Cons and consumes input |
| Parser.IsSymbolChar | src/parser.rs:59 | the characters a symbol is made of: ASCII letters, ASCII digits, `+` and `-` (used by Parser.ReadSymbol and ParserLemmas.StuckListDiverges) |
| Parser.ReadSymbol | src/parser.rs:56-62 | the run of letters, digits, `+` and `-` after the spaces, possibly empty; incomplete exactly when that run reaches the end of input |
| Parser.Parse | src/parser.rs:64-71 | never an error; on success the rest is a suffix of the input |
| ParserLemmas.ParseShow | src/parser.rs:13-71 | every readable value written out reads back as itself, followed by the rest of the input |
| ParserLemmas.IntegerRoundTrip | src/parser.rs:13-15 | every 64-bit integer reads back from its decimal form |
| ParserLemmas.ReadSigned | src/parser.rs:13-15 | a sign then digits reads as the signed magnitude when it fits in 64 bits, and as an error otherwise |
| ParserLemmas.ReadUnsigned | src/parser.rs:13-15 | digits without a sign read as their value when it fits in 64 bits, and as an error otherwise |
| ParserLemmas.ParseInteger | src/parser.rs:66-68 | when the integer reader succeeds and no list opens, `parse` returns the integer |
| ParserLemmas.IntegerAhead | src/parser.rs:64-71 | a decimal integer followed by a non-digit is read as that integer |
| ParserLemmas.DotTail | src/parser.rs:23-31 | `.y)` is the dotted tail read from `y` |
| ParserLemmas.EmptySymbolBeforeClose | src/parser.rs:56-62 | before `)` the element reader yields the empty symbol and consumes nothing |
| ParserLemmas.ConsRestShowTail | src/parser.rs:33-45 | the written tail of a list reads back as that tail |
| ParserLemmas.ProperListExample | src/parser.rs:47-54 | `(a b c)` reads as a nil-terminated chain of three Cons cells |
| ParserLemmas.DottedListExample | src/parser.rs:23-31 | `(a b . c)` ends in `c` instead of `nil` |
| ParserLemmas.SignedDigitsAreIntegers | src/parser.rs:66-69 | a sign followed by digits is an integer, since the integer alternative comes before the symbol one |
| ParserLemmas.BareSignsAreSymbols | src/parser.rs:56-62 | `+` or `-` alone is a symbol |
| ParserLemmas.ParseList | src/parser.rs:66-67 | input starting with `(` goes to the list reader |
| ParserLemmas.ListOf | src/parser.rs:47-54 | a list's outcome is its first element wrapped around the outcome of the tail reader |
| ParserLemmas.NoFloatInsideList | src/parser.rs:13-15 | `(m.k)` is the dotted pair of the integers m and k |
| ParserLemmas.EmptyListIsConsOfEmptySymbol | src/parser.rs:37-43 | `()` reads as the list of the empty symbol, not as `nil` |
| ParserLemmas.StuckListDiverges | src/parser.rs:37-43 | before a character that no reader takes, the tail reader recurses without consuming input until the pool is exhausted (`Diverges`) |
| ParserLemmas.StuckListsDiverge | src/parser.rs:33-54 | `(a*)` and a list left open before a newline end in that panic instead of a value (`Diverges`) |
| ParserLemmas.SymbolAtEndOfInput | src/parser.rs:58-60 | a symbol that runs to the end of input is incomplete, alone or as a list's first element |
| BoundedMap.Insert | src/eval.rs:44 | succeeds exactly when the key is present or there is room |
| BoundedMap.Remove | src/eval.rs:81 | succeeds exactly when the key is present |
| BoundedMap.Get | src/eval.rs:121 | finds exactly the keys present |
| BoundedMap.InsertThenGet | src/eval.rs:71 | after an insert the key maps to the new value and every other key is unchanged |
| BoundedMap.OverwriteNeverFails | src/eval.rs:79 | re-inserting a present key succeeds even in a full map |
| BoundedMap.InsertKeepsBound | src/eval.rs:44 | the map never exceeds its capacity, and a full map rejects a new key |
| BoundedMap.InsertThenRemove | src/eval.rs:71-81 | removing a newly inserted key restores the map |
| Builtins.AddResult | src/builtins.rs:4-19 | what `add` returns: the sum of an integer list, nil otherwise; Builtins.Add is proved to compute it, AddIsSum and AddRejects state its cases |
| Builtins.SubResult | src/builtins.rs:21-44 | what `sub` returns: the negation, the left fold of `-`, nil, or zero; Builtins.Sub is proved to compute it, SubIsDifference, SubFoldsLeft and SubWithoutFirstInteger state its cases |
| Builtins.Add | src/builtins.rs:4-19 | the sum of an integer list; nil for a non-integer element or an improper tail |
| Builtins.Sub | src/builtins.rs:21-44 | the negation of a single integer, the first minus the rest for longer integer lists, nil for a later non-integer, zero without a first integer |
| Builtins.AddIsSum | src/builtins.rs:4-19 | `(+ n1 … nk)` is the sum of the ni, and `(+)` is 0 |
| Builtins.TotalIsSum | src/builtins.rs:7-13 | the fold over an integer list equals the sum of its elements |
| Builtins.SubIsDifference | src/builtins.rs:21-44 | `(- n)` is -n, and `(- n m1 … mk)` is n minus the sum of the mi |
| Builtins.SubFoldsLeft | src/builtins.rs:26-34 | `sub` subtracts from the left, starting with the second element |
| Builtins.SubIsFirstMinusAdd | src/builtins.rs:26-40 | with two or more arguments, `(- n args…)` is n minus `(+ args…)`, and nil when that is nil |
| Builtins.AddRejects | src/builtins.rs:14-16 | one non-integer element anywhere, or an improper tail, makes `add` nil |
| Builtins.SubWithoutFirstInteger | src/builtins.rs:42 | `sub` without a first integer gives zero, not nil |
| Builtins.Integers | src/builtins.rs:9 | the list of the integers of a sequence is an integer list |
| Builtins.Registry.constructor | src/builtins.rs:53-60 | exactly `+` (add) and `-` (sub) are registered |
| Builtins.Registry.Add | src/builtins.rs:62-66 | inserts or replaces the binding; a new name in a full registry fails (the source's panic) and changes nothing |
| Builtins.Registry.Get | src/builtins.rs:68-70 | finds exactly the registered names and their primitives |
| Evaluator.Cells.constructor | src/eval.rs:36-41 | no variable is bound |
| Evaluator.Cells.AddValue | src/eval.rs:43-45 | binds or rebinds the key; failure, the source's panic, happens exactly for a new key in a full environment and changes nothing |
| Evaluator.Eval | src/eval.rs:48-128 | the outcome and the final environment are those of `Semantics.Eval` |
| Evaluator.Progn | src/eval.rs:56-65 | the body loop leaves what `Semantics.Body` says: the last value, nil for an empty body |
| Evaluator.Let | src/eval.rs:66-85 | matches `Semantics.Let`: evaluate, read the old entry, bind, run the body, then restore or remove |
| Evaluator.While | src/eval.rs:92-109 | the loop leaves what `Semantics.Loop` says |
| Evaluator.EvalList | src/eval.rs:4-28 | matches `Semantics.EvalList`, including the shortcut that returns the original list when nothing changed |
| Semantics.Eval | src/eval.rs:48-128 | the outcome and final environment of `eval`, arm by arm in the source's order; Evaluator.Eval is proved to compute it, and the SemanticsLemmas rows state its properties |
| Semantics.Let | src/eval.rs:66-85 | `let-`: evaluate, read the saved entry, bind, run the body, put back; Evaluator.Let computes it, LetScoping, LetGrows and LetValueRebindsKey state what it does |
| Semantics.IsLet | src/eval.rs:66 | the `let-` pattern: a list headed by `let-` whose second element is a pair headed by a symbol |
| Semantics.IsDef | src/eval.rs:86 | the `def` pattern: `def`, a symbol and exactly one expression |
| Semantics.IsWhile | src/eval.rs:92 | the `while` pattern: `while` followed by at least a condition |
| Semantics.Body | src/eval.rs:56-65 | the `while let` loop over a body: the last value, nil for an empty body; Evaluator.Progn computes it |
| Semantics.Restore | src/eval.rs:78-82 | putting the saved entry back, or removing the key when there was none; RestoreEntry, RestoreKeeps and RestoreUndoes state its effect |
| Semantics.Loop | src/eval.rs:92-109 | `while`: the condition before each pass, nil at the end; Evaluator.While computes it, LoopIsNil, WhileFalse and CountDown state its behaviour |
| Semantics.Truthy | src/eval.rs:94-98 | only Integer 0 and `nil` stop a `while` (WhileZero, WhileFalse) |
| Semantics.EvalList | src/eval.rs:4-28 | `eval_list`: every element in order, a panic on an improper tail; Evaluator.EvalList computes it, EvalListShape and EvalListOfData state its properties |
| SemanticsLemmas.EvalGrows | src/eval.rs:48-128 | evaluation never unbinds a variable and never overfills the environment |
| SemanticsLemmas.LetGrows | src/eval.rs:66-85 | the same for `let-`: the restore step brings back at least the keys present before |
| SemanticsLemmas.BodyGrows | src/eval.rs:59-62 | the same for a body |
| SemanticsLemmas.EvalListGrows | src/eval.rs:4-28 | the same for an argument list |
| SemanticsLemmas.LoopGrows | src/eval.rs:92-109 | the same for `while` |
| SemanticsLemmas.RemoveShrinks | src/eval.rs:81 | removing a present key makes the map smaller |
| SemanticsLemmas.LetScoping | src/eval.rs:66-85 | `let-` returns the body's value; the key gets back the entry it had after the value was evaluated, or loses the binding it did not have then; every other key is as the body left it; binding a new key in a full environment panics |
| SemanticsLemmas.LetValueRebindsKey | src/eval.rs:66-85 | `(let- (x def x n))` on an environment where x is unbound is nil and leaves x bound to n: the saved entry is read after the value ran |
| SemanticsLemmas.LetRestoresPriorEntry | src/eval.rs:67-82 | when evaluating the value leaves the key's entry alone, a finished `let-` gives the key back the entry it had before |
| SemanticsLemmas.RestoreEntry | src/eval.rs:78-82 | putting back an entry of a bound key never fails, gives the key its saved entry and touches no other key |
| SemanticsLemmas.RestoreUndoes | src/eval.rs:70-82 | binding a key and then putting back what it had before gives back exactly the environment before the binding |
| SemanticsLemmas.RestoreKeeps | src/eval.rs:78-82 | the restore step keeps every key present before the binding and never enlarges the environment |
| SemanticsLemmas.InsertGrows | src/eval.rs:71 | a successful bind keeps every key, adds the bound key, and keeps an environment within its capacity |
| SemanticsLemmas.LetForm | src/eval.rs:66 | `(let- (key . value) body…)` is the `let-` of that key, that value and that body |
| SemanticsLemmas.Atoms | src/eval.rs:119-121 | integers and `nil` evaluate to themselves, even when `nil` is bound; other symbols are looked up, nil when unbound |
| SemanticsLemmas.NonSymbolHead | src/eval.rs:122-125 | a list whose head is not a symbol is the Cons of its head's and its tail's values, evaluated in that order, and ends at the first outcome that is not a value |
| SemanticsLemmas.NumberAndStringPanic | src/eval.rs:126 | a `Number` or `String` value panics and leaves the environment alone |
| SemanticsLemmas.UnregisteredHead | src/eval.rs:110-118 | a symbol-headed list that is no special form and names no primitive is nil and changes nothing |
| SemanticsLemmas.DefTakesOneExpression | src/eval.rs:86 | `(def x a b)` is not a definition: it is nil and binds nothing |
| SemanticsLemmas.DefBinds | src/eval.rs:86-91 | `def` binds the key to its expression's value and is nil; a new key in a full environment panics |
| SemanticsLemmas.PrognOfNoneOrOne | src/eval.rs:56-65 | `(progn)` is nil, and `(progn e)` is `e` |
| SemanticsLemmas.PrognIsBody | src/eval.rs:56-64 | `(progn body…)` runs its body with nil as the starting result |
| SemanticsLemmas.BodyFirst | src/eval.rs:59-62 | a body continues from the environment and the value its first expression left |
| SemanticsLemmas.BodyOfOne | src/eval.rs:59-62 | a body of one expression has that expression's outcome and environment |
| SemanticsLemmas.WhileFalse | src/eval.rs:93-99 | a false condition runs no pass, and the result is nil |
| SemanticsLemmas.WhileZero | src/eval.rs:95 | `(while 0 …)` is nil and changes nothing |
| SemanticsLemmas.LoopIsNil | src/eval.rs:108 | a `while` that finishes is nil, whatever its passes compute |
| SemanticsLemmas.EvalListShape | src/eval.rs:11-27 | a finished `eval_list` had a proper list and returns a proper list of the same length |
| SemanticsLemmas.DatumEvaluatesToItself | src/eval.rs:119-125 | integers, nil and conses of those with no symbol head evaluate to themselves and change nothing |
| SemanticsLemmas.EvalListOfData | src/eval.rs:11-25 | a proper list of such data is returned unchanged by `eval_list` |
| SemanticsLemmas.IntegersAreData | src/eval.rs:119 | a list of integer literals is a proper list of self-evaluating data |
| SemanticsLemmas.AddCall | src/eval.rs:110-115 | a `+` call on integer literals is their sum |
| SemanticsLemmas.Call | src/eval.rs:110-115 | a call of a registered primitive that is no special form evaluates its argument list, then applies the primitive to the result |
| SemanticsLemmas.SubCall | src/eval.rs:110-115 | a `-` call on integer literals is the negation of one, or the first minus the sum of the rest |
| SemanticsLemmas.DefThenAdd | src/eval.rs:56-91 | `(progn (def x n) (+ x m))` is n + m and leaves x bound to n |
| SemanticsLemmas.AddVariable | src/eval.rs:110-121 | `(+ x m)` with x bound to n is n + m |
| SemanticsLemmas.SubVariable | src/eval.rs:110-121 | `(- x m)` with x bound to n is n - m |
| SemanticsLemmas.AddOfListElement | src/eval.rs:110-121 | `(+ x m)` with x bound to a list is nil |
| SemanticsLemmas.DefBindsInteger | src/eval.rs:86-91 | `(def x n)` binds x to n and is nil |
| SemanticsLemmas.VariableThenInteger | src/eval.rs:4-28 | the argument list `(x m)` evaluates to x's value followed by m |
| SemanticsLemmas.LetBindsTheTail | src/eval.rs:66-85 | `(let- (x n) (+ x m))` is nil, because x is bound to the list `(n)`; the environment is unchanged afterwards |
| SemanticsLemmas.CountDown | src/eval.rs:92-109 | `(while x (def x (- x 1)))` from k ends with x bound to 0 and is nil |
| SemanticsLemmas.Decrement | src/eval.rs:86-91 | `(def x (- x 1))` rebinds x from k to k - 1 and is nil |

## Left out

- src/main.rs is not part of this model: the terminal loop, reading lines and printing results are I/O.
- The pool and the reader and evaluator are modelled apart. The reader and evaluator work on `Value` trees, not on pool handles. So the model does not capture the panic of a full pool inside `parse`, `eval`, `eval_list`, `add` or `sub`.
- Pointer identity in `eval_list` becomes value equality. On the tree model both branches give the same value.
- Builtins.Add: does not model the 64-bit overflow of `result += car`, because integers are unbounded here (in Rust it panics in debug builds and wraps in release builds).
- Builtins.Sub: does not model the overflow of `-car` on the smallest integer, or of `result -= car`, for the same reason.
- Pools.Pool.Alloc: the cursor `alloced` is unbounded here; the source's `usize` would overflow only after 2^64 allocations.
- Pools.Pool.Alloc: with `N == 0` the source panics on `% N`; the model returns `None`.
- Builtins.Registry.constructor: requires a capacity of at least 2; heapless's map demands a capacity above 1 (a power of two), so smaller registries cannot be built.
- The `Context` passed to every primitive is left out. `add` and `sub` ignore it, and a primitive is a pure function from its argument list to a value.
- Recursion depth and `while` passes are bounded by a fuel parameter. `OutOfFuel` stands for an evaluation that has not finished. A program that loops for ever gives `OutOfFuel` for every fuel.
- The `Drop` of a cell does not run the payload's destructor in place. The model clears the cell and drops a Cons payload's two handles, car first, as `drop_in_place` does.
- The `unsafe` code, `UnsafeCell`, `Sync`, and the zeroed initial memory become plain fields and arrays. Concurrency is not modelled.
- The combinators `space0`, `tag`, `i64`, `split_at_position` and `alt` come from the nom library, whose source is not part of this model. They follow nom 7: `alt` tries the next alternative only after an error; `split_at_position` is incomplete when the input runs out; `i64` is the complete version and rejects overflow.
- `Diverges` stands for the panic of the first allocation that finds the pool full. Before a stuck character other than a dot that is `new_symbol` (src/pool.rs:109). After a dot whose tail fails it can also be `new_integer` (src/pool.rs:98) or `new_cons` (src/pool.rs:114), called by `cons_pair` while it reads the element after the dot. In every case, the reader is modelled without the pool, so it does not count the empty symbols each level of the non-consuming recursion keeps alive, and stops that recursion as soon as it sees no progress.
- ParserLemmas.ParseShow: the round trip leaves out values that contain the empty symbol, because its written form is empty: it reads back only in some positions (`()` is the list of it), not wherever it occurs in a value.
- `Number` and `String` values are never produced by the reader. Evaluating one panics, as the last arm of `eval` does; there is no arithmetic on them.
- `Debug` formatting is left out.

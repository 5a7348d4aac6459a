/**
 * The bounded reference-counted pool (src/pool.rs): `N` cells, each a count and an optional
 * payload, and a cursor `alloced` that rotates the start of the search for a free cell.
 * A handle (`RcValue`) is the index of its cell; the payloads of Cons cells hold two handles
 * themselves. The ghost multiset `handles` records the handles held outside the pool, so that
 * every count can be accounted for.
 */
module Pools {
  import opened Wrappers
  import Values

  /** What a cell stores: a value whose Cons children are handles into the same pool. */
  datatype Payload =
    | Integer(i: int)
    | Number(x: Values.Float)
    | String(text: string)
    | Symbol(name: string)
    | Cons(car: nat, cdr: nat)

  /** The handles a payload owns. */
  function Children(p: Payload): multiset<nat> {
    if p.Cons? then multiset{p.car, p.cdr} else multiset{}
  }

  /** How many handles to cell `i` the contents `o` hold. */
  function Uses(o: Option<Payload>, i: nat): nat {
    if o.Some? then Children(o.value)[i] else 0
  }

  /** How many handles to cell `i` all the contents `cs` hold together. */
  function Refs(cs: seq<Option<Payload>>, i: nat): nat {
    if cs == [] then 0 else Refs(cs[..|cs| - 1], i) + Uses(cs[|cs| - 1], i)
  }

  /** Replacing the contents of one cell changes the references by the difference of the two. */
  lemma {:induction false} RefsUpdate(cs: seq<Option<Payload>>, j: nat, o: Option<Payload>, i: nat)
    requires j < |cs|
    ensures Refs(cs[j := o], i) + Uses(cs[j], i) == Refs(cs, i) + Uses(o, i)
    decreases |cs|
  {
    var last := |cs| - 1;
    assert cs[j := o][..last] == if j == last then cs[..last] else cs[..last][j := o];
    if j < last {
      RefsUpdate(cs[..last], j, o, i);
    }
  }

  /** Empty cells hold no references. */
  lemma {:induction false} RefsOfEmpty(cs: seq<Option<Payload>>, i: nat)
    requires forall j :: 0 <= j < |cs| ==> cs[j] == None
    ensures Refs(cs, i) == 0
    decreases |cs|
  {
    if cs != [] {
      RefsOfEmpty(cs[..|cs| - 1], i);
    }
  }

  /**
   * The accounting of the pool: a cell is free exactly when its count is 0, a count is the number
   * of handles to the cell held outside plus those held inside other cells, and every handle,
   * inside or out, names a cell of the pool.
   */
  ghost predicate Accounted(rc: seq<nat>, cell: seq<Option<Payload>>, handles: multiset<nat>) {
    |rc| == |cell|
    && (forall i :: 0 <= i < |rc| ==> (rc[i] == 0 <==> cell[i] == None))
    && (forall i {:trigger rc[i]} :: 0 <= i < |rc| ==> rc[i] == handles[i] + Refs(cell, i))
    && (forall h :: h in handles ==> h < |rc|)
    && (forall i :: 0 <= i < |cell| && cell[i].Some? ==> forall c :: c in Children(cell[i].value) ==> c < |rc|)
  }

  /** The first cell in `lo..hi` with count 0. */
  function FirstFree(rc: seq<nat>, lo: nat, hi: nat): (r: Option<nat>)
    requires lo <= hi <= |rc|
    ensures r.Some? ==> lo <= r.value < hi && rc[r.value] == 0 && forall j :: lo <= j < r.value ==> rc[j] > 0
    ensures r.None? ==> forall j :: lo <= j < hi ==> rc[j] > 0
    decreases hi - lo
  {
    if lo == hi then None else if rc[lo] == 0 then Some(lo) else FirstFree(rc, lo + 1, hi)
  }

  /** The cell `alloc` takes when its search starts at `start`: the first free one from `start`
   *  to the end, otherwise the first free one before `start`, otherwise none. */
  function Choose(rc: seq<nat>, start: nat): (r: Option<nat>)
    requires start <= |rc|
    ensures r.Some? ==> r.value < |rc| && rc[r.value] == 0
    ensures r.Some? && r.value >= start ==> forall j :: start <= j < r.value ==> rc[j] > 0
    ensures r.Some? && r.value < start ==>
      (forall j :: start <= j < |rc| ==> rc[j] > 0) && (forall j :: 0 <= j < r.value ==> rc[j] > 0)
  {
    var above := FirstFree(rc, start, |rc|);
    if above.Some? then above else FirstFree(rc, 0, start)
  }

  /** `alloc` fails exactly when every cell is in use. */
  lemma ChooseFailsOnlyWhenFull(rc: seq<nat>, start: nat)
    requires start <= |rc|
    ensures Choose(rc, start).None? <==> forall j :: 0 <= j < |rc| ==> rc[j] > 0
  {
    if forall j :: 0 <= j < |rc| ==> rc[j] > 0 {
      NoneFree(rc, start, |rc|);
      NoneFree(rc, 0, start);
    }
  }

  lemma {:induction false} NoneFree(rc: seq<nat>, lo: nat, hi: nat)
    requires lo <= hi <= |rc| && forall j :: lo <= j < hi ==> rc[j] > 0
    ensures FirstFree(rc, lo, hi) == None
    decreases hi - lo
  {
    if lo < hi {
      NoneFree(rc, lo + 1, hi);
    }
  }

  /** The total of all counts. */
  function Sum(rc: seq<nat>): nat {
    if rc == [] then 0 else Sum(rc[..|rc| - 1]) + rc[|rc| - 1]
  }

  /** The number of cells in use that hold a Cons. */
  function ConsCells(cell: seq<Option<Payload>>): nat {
    if cell == [] then 0
    else ConsCells(cell[..|cell| - 1]) + (if cell[|cell| - 1].Some? && cell[|cell| - 1].value.Cons? then 1 else 0)
  }

  /** How many elements of `m` are below `k`. */
  function CountBelow(m: multiset<nat>, k: nat): nat {
    if k == 0 then 0 else CountBelow(m, k - 1) + m[k - 1]
  }

  /** The references held by `cell` to the cells below `k`. */
  function RefsBelow(cell: seq<Option<Payload>>, k: nat): nat {
    if k == 0 then 0 else RefsBelow(cell, k - 1) + Refs(cell, k - 1)
  }

  /**
   * Conservation: the counts add up to the handles held outside the pool plus the two that every
   * Cons cell in use holds, so every count is some handle's and no handle is counted twice.
   */
  lemma SumOfCounts(rc: seq<nat>, cell: seq<Option<Payload>>, handles: multiset<nat>)
    requires Accounted(rc, cell, handles)
    ensures Sum(rc) == |handles| + 2 * ConsCells(cell)
  {
    SumSplits(rc, cell, handles, |rc|);
    assert rc[..|rc|] == rc;
    CountAll(handles, |rc|);
    RefsAll(cell, |rc|);
  }

  lemma {:induction false} SumSplits(rc: seq<nat>, cell: seq<Option<Payload>>, handles: multiset<nat>, k: nat)
    requires Accounted(rc, cell, handles) && k <= |rc|
    ensures Sum(rc[..k]) == CountBelow(handles, k) + RefsBelow(cell, k)
  {
    if k > 0 {
      assert rc[..k][..k - 1] == rc[..k - 1];
      SumSplits(rc, cell, handles, k - 1);
    }
  }

  lemma {:induction false} CountAll(m: multiset<nat>, k: nat)
    requires forall x :: x in m ==> x < k
    ensures CountBelow(m, k) == |m|
    decreases |m|
  {
    if m != multiset{} {
      var x :| x in m;
      CountAll(m - multiset{x}, k);
      CountAdd(m - multiset{x}, x, k);
      assert m - multiset{x} + multiset{x} == m;
    } else {
      CountEmpty(k);
    }
  }

  lemma {:induction false} CountEmpty(k: nat)
    ensures CountBelow(multiset{}, k) == 0
  {
    if k > 0 {
      CountEmpty(k - 1);
    }
  }

  lemma {:induction false} CountAdd(m: multiset<nat>, x: nat, k: nat)
    ensures CountBelow(m + multiset{x}, k) == CountBelow(m, k) + (if x < k then 1 else 0)
  {
    if k > 0 {
      CountAdd(m, x, k - 1);
    }
  }

  lemma {:induction false} RefsAll(cell: seq<Option<Payload>>, k: nat)
    requires forall i :: 0 <= i < |cell| && cell[i].Some? ==> forall c :: c in Children(cell[i].value) ==> c < k
    ensures RefsBelow(cell, k) == 2 * ConsCells(cell)
    decreases |cell|
  {
    if cell == [] {
      RefsOfNothing(k);
    } else {
      var init, last := cell[..|cell| - 1], cell[|cell| - 1];
      RefsAll(init, k);
      RefsOfLast(cell, k);
      if last.Some? {
        CountAll(Children(last.value), k);
      }
    }
  }

  lemma {:induction false} RefsOfNothing(k: nat)
    ensures RefsBelow([], k) == 0
  {
    if k > 0 {
      RefsOfNothing(k - 1);
    }
  }

  lemma {:induction false} RefsOfLast(cell: seq<Option<Payload>>, k: nat)
    requires cell != []
    ensures var last := cell[|cell| - 1];
      RefsBelow(cell, k) == RefsBelow(cell[..|cell| - 1], k) + (if last.Some? then CountBelow(Children(last.value), k) else 0)
  {
    if k > 0 {
      RefsOfLast(cell, k - 1);
    }
  }

  /** A handle held outside keeps its cell in use. */
  lemma CountsHandles(rc: seq<nat>, cell: seq<Option<Payload>>, handles: multiset<nat>, h: nat)
    requires Accounted(rc, cell, handles) && h in handles
    ensures h < |rc| && rc[h] >= handles[h] >= 1 && cell[h].Some?
  {
  }

  /** Clone keeps the accounting: one more handle and one more count at the same cell. */
  lemma CloneAccounted(rc: seq<nat>, cell: seq<Option<Payload>>, handles: multiset<nat>, h: nat)
    requires Accounted(rc, cell, handles) && h in handles
    ensures Accounted(rc[h := rc[h] + 1], cell, handles + multiset{h})
  {
  }

  /** Dropping a handle to a cell that stays in use keeps the accounting. */
  lemma DropAccounted(rc: seq<nat>, cell: seq<Option<Payload>>, handles: multiset<nat>, h: nat)
    requires Accounted(rc, cell, handles) && h in handles && rc[h] > 1
    ensures Accounted(rc[h := rc[h] - 1], cell, handles - multiset{h})
  {
  }

  /** Dropping the last handle to a cell empties it; the handles its payload held are handed out. */
  lemma ReleaseAccounted(rc: seq<nat>, cell: seq<Option<Payload>>, handles: multiset<nat>, h: nat)
    requires Accounted(rc, cell, handles) && h in handles && rc[h] == 1
    ensures cell[h].Some?
    ensures Accounted(rc[h := 0], cell[h := None], handles - multiset{h} + Children(cell[h].value))
  {
    var handles' := handles - multiset{h} + Children(cell[h].value);
    forall i | 0 <= i < |rc|
      ensures rc[h := 0][i] == handles'[i] + Refs(cell[h := None], i)
    {
      RefsUpdate(cell, h, None, i);
    }
  }

  /** Writing a payload into a free cell keeps the accounting, with one new handle to that cell. */
  lemma FillAccounted(rc: seq<nat>, cell: seq<Option<Payload>>, handles: multiset<nat>, k: nat, value: Payload)
    requires Accounted(rc, cell, handles) && k < |rc| && rc[k] == 0 && Children(value) <= handles
    ensures Accounted(rc[k := 1], cell[k := Some(value)], handles - Children(value) + multiset{k})
  {
    FillCounts(rc, cell, handles, k, value);
  }

  lemma FillCounts(rc: seq<nat>, cell: seq<Option<Payload>>, handles: multiset<nat>, k: nat, value: Payload)
    requires Accounted(rc, cell, handles) && k < |rc| && rc[k] == 0 && Children(value) <= handles
    ensures forall i :: 0 <= i < |rc| ==>
      rc[k := 1][i] == (handles - Children(value) + multiset{k})[i] + Refs(cell[k := Some(value)], i)
  {
    var handles' := handles - Children(value) + multiset{k};
    forall i | 0 <= i < |rc|
      ensures rc[k := 1][i] == handles'[i] + Refs(cell[k := Some(value)], i)
    {
      RefsUpdate(cell, k, Some(value), i);
    }
  }

  lemma RemoveBoth(m: multiset<nat>, a: nat, b: nat)
    ensures m - multiset{a} - multiset{b} == m - multiset{a, b}
  {
  }

  lemma AddThenRemove(m: multiset<nat>, c: multiset<nat>)
    ensures m + c - c == m
  {
  }

  /**
   * Acyclicity: every Cons cell in use ranks strictly above both of its children, so following
   * cars and cdrs through the pool always reaches lower ranks and never comes back.
   */
  ghost predicate Ranked(cell: seq<Option<Payload>>, rank: seq<nat>) {
    |rank| == |cell| && forall i :: 0 <= i < |cell| ==> RanksAbove(cell[i], rank, rank[i])
  }

  /** The contents `o` of a cell of rank `r` hold only handles to cells of lower rank. */
  ghost predicate RanksAbove(o: Option<Payload>, rank: seq<nat>, r: nat) {
    o.Some? && o.value.Cons? ==>
      o.value.car < |rank| && o.value.cdr < |rank| && rank[o.value.car] < r && rank[o.value.cdr] < r
  }

  /** The rank a freshly filled cell gets: one above its children's, 0 for an atom. */
  function RankOf(value: Payload, rank: seq<nat>): (r: nat)
    requires value.Cons? ==> value.car < |rank| && value.cdr < |rank|
    ensures value.Cons? ==> rank[value.car] < r && rank[value.cdr] < r
  {
    if value.Cons? then
      var a, b := rank[value.car], rank[value.cdr];
      1 + (if a < b then b else a)
    else 0
  }

  /** A chain of cells in which each cell in use holds the next one as its car or its cdr. */
  ghost predicate Path(cell: seq<Option<Payload>>, p: seq<nat>) {
    |p| < 2 || (p[0] < |cell| && cell[p[0]].Some? && p[1] in Children(cell[p[0]].value) && Path(cell, p[1..]))
  }

  /** Along a chain of two or more cells the rank strictly decreases. */
  lemma {:induction false} RankDescends(cell: seq<Option<Payload>>, rank: seq<nat>, p: seq<nat>)
    requires Ranked(cell, rank) && Path(cell, p) && |p| >= 2
    ensures p[0] < |rank| && p[|p| - 1] < |rank| && rank[p[|p| - 1]] < rank[p[0]]
    decreases |p|
  {
    if |p| > 2 {
      RankDescends(cell, rank, p[1..]);
    }
  }

  /** No chain of Cons cells leads from a cell back to itself. */
  lemma NoCycle(cell: seq<Option<Payload>>, rank: seq<nat>, p: seq<nat>)
    requires Ranked(cell, rank) && Path(cell, p) && |p| >= 2
    ensures p[0] != p[|p| - 1]
  {
    RankDescends(cell, rank, p);
  }

  /** A cell that no payload refers to is not the child of any cell. */
  lemma {:induction false} Unreferenced(cs: seq<Option<Payload>>, i: nat)
    requires Refs(cs, i) == 0
    ensures forall j :: 0 <= j < |cs| && cs[j].Some? ==> i !in Children(cs[j].value)
    decreases |cs|
  {
    if cs != [] {
      var init := cs[..|cs| - 1];
      Unreferenced(init, i);
      assert forall j :: 0 <= j < |init| ==> cs[j] == init[j];
    }
  }

  /** Filling a free cell keeps the ranking: nothing points at the free cell, and the new cell
   *  ranks above the children it takes over. */
  lemma FillRanked(rc: seq<nat>, cell: seq<Option<Payload>>, handles: multiset<nat>, rank: seq<nat>, k: nat, value: Payload)
    requires Accounted(rc, cell, handles) && Ranked(cell, rank)
    requires k < |rc| && rc[k] == 0 && Children(value) <= handles
    ensures value.Cons? ==> value.car < |rank| && value.cdr < |rank|
    ensures Ranked(cell[k := Some(value)], rank[k := RankOf(value, rank)])
  {
    assert handles[k] == 0 && Refs(cell, k) == 0;
    Unreferenced(cell, k);
    if value.Cons? {
      assert value.car in handles && value.cdr in handles;
    }
    RankedUpdate(cell, rank, k, value);
  }

  /** Writing a cell that no cell points at, with children other than itself, keeps the ranking. */
  lemma RankedUpdate(cell: seq<Option<Payload>>, rank: seq<nat>, k: nat, value: Payload)
    requires Ranked(cell, rank) && k < |cell|
    requires forall j :: 0 <= j < |cell| && cell[j].Some? ==> k !in Children(cell[j].value)
    requires k !in Children(value) && (value.Cons? ==> value.car < |rank| && value.cdr < |rank|)
    ensures Ranked(cell[k := Some(value)], rank[k := RankOf(value, rank)])
  {
    var cell1, rank1 := cell[k := Some(value)], rank[k := RankOf(value, rank)];
    forall i | 0 <= i < |cell1|
      ensures RanksAbove(cell1[i], rank1, rank1[i])
    {
      if i != k {
        assert RanksAbove(cell[i], rank, rank[i]);
        if cell[i].Some? {
          assert k !in Children(cell[i].value);
        }
      }
    }
  }

  /** The pool's invariant on its contents: the counts are accounted for and there is no cycle. */
  ghost predicate Sound(rc: seq<nat>, cell: seq<Option<Payload>>, handles: multiset<nat>, rank: seq<nat>) {
    Accounted(rc, cell, handles) && Ranked(cell, rank)
  }

  /** Filling a free cell keeps the invariant. */
  lemma FillSound(rc: seq<nat>, cell: seq<Option<Payload>>, handles: multiset<nat>, rank: seq<nat>, k: nat, value: Payload)
    requires Sound(rc, cell, handles, rank) && k < |rc| && rc[k] == 0 && Children(value) <= handles
    ensures value.Cons? ==> value.car < |rank| && value.cdr < |rank|
    ensures Sound(rc[k := 1], cell[k := Some(value)], handles - Children(value) + multiset{k}, rank[k := RankOf(value, rank)])
  {
    FillAccounted(rc, cell, handles, k, value);
    FillRanked(rc, cell, handles, rank, k, value);
  }

  /** Emptying a cell keeps the ranking. */
  lemma ReleaseRanked(cell: seq<Option<Payload>>, rank: seq<nat>, h: nat)
    requires Ranked(cell, rank) && h < |cell|
    ensures Ranked(cell[h := None], rank)
  {
  }

  /** The cells in use. */
  ghost function Live(rc: seq<nat>): set<nat> {
    set i | 0 <= i < |rc| && rc[i] > 0
  }

  /** No count grows and no cell gets new contents: what dropping does to the pool. */
  ghost predicate Shrinks(rc0: seq<nat>, cell0: seq<Option<Payload>>, rc1: seq<nat>, cell1: seq<Option<Payload>>) {
    |rc1| == |rc0| && |cell1| == |cell0|
    && (forall i :: 0 <= i < |rc0| ==> rc1[i] <= rc0[i])
    && (forall i :: 0 <= i < |cell0| && cell1[i].Some? ==> cell1[i] == cell0[i])
  }

  lemma ShrinksTransitive(rc0: seq<nat>, cell0: seq<Option<Payload>>, rc1: seq<nat>, cell1: seq<Option<Payload>>,
                          rc2: seq<nat>, cell2: seq<Option<Payload>>)
    requires Shrinks(rc0, cell0, rc1, cell1) && Shrinks(rc1, cell1, rc2, cell2)
    ensures Shrinks(rc0, cell0, rc2, cell2)
  {
  }

  /** Shrinking never brings a cell into use. */
  lemma ShrinksLive(rc0: seq<nat>, cell0: seq<Option<Payload>>, rc1: seq<nat>, cell1: seq<Option<Payload>>)
    requires Shrinks(rc0, cell0, rc1, cell1)
    ensures Live(rc1) <= Live(rc0) && |Live(rc1)| <= |Live(rc0)|
  {
    SubsetCardinality(Live(rc1), Live(rc0));
  }

  /** Freeing a cell in use is a shrink that takes one cell out of use. */
  lemma ReleaseShrinks(rc: seq<nat>, cell: seq<Option<Payload>>, h: nat)
    requires |rc| == |cell| && h < |rc| && rc[h] > 0
    ensures Shrinks(rc, cell, rc[h := 0], cell[h := None])
    ensures Live(rc[h := 0]) == Live(rc) - {h} && |Live(rc[h := 0])| < |Live(rc)|
  {
    assert h in Live(rc);
  }

  lemma {:induction false} SubsetCardinality(a: set<nat>, b: set<nat>)
    requires a <= b
    ensures |a| <= |b|
    decreases |b|
  {
    if a != {} {
      var x :| x in a;
      SubsetCardinality(a - {x}, b - {x});
    }
  }

  class Pool {
    const n: nat
    const rc: array<nat>
    const cell: array<Option<Payload>>
    var alloced: nat
    ghost var handles: multiset<nat>
    /** The order in which the cells in use were filled, as far as acyclicity needs it. */
    ghost var rank: seq<nat>

    ghost predicate Valid()
      reads this, rc, cell
    {
      rc.Length == n && cell.Length == n && Sound(rc[..], cell[..], handles, rank)
    }

    /** The contents of the pool hold no cycle: no chain of Cons cells returns to its start. */
    lemma Acyclic(p: seq<nat>)
      requires Valid() && Path(cell[..], p) && |p| >= 2
      ensures p[0] != p[|p| - 1]
    {
      NoCycle(cell[..], rank, p);
    }

    /** `Pool::new`: every cell free, the cursor at 0, no handle out. */
    constructor (n: nat)
      ensures Valid() && fresh(rc) && fresh(cell)
      ensures this.n == n && alloced == 0 && handles == multiset{}
      ensures forall i :: 0 <= i < n ==> rc[i] == 0 && cell[i] == None
    {
      this.n := n;
      rc := new nat[n](_ => 0);
      cell := new Option<Payload>[n](_ => None);
      alloced := 0;
      handles := multiset{};
      rank := seq(n, _ => 0);
      new;
      forall i | 0 <= i < n
        ensures Refs(cell[..], i) == 0
      {
        RefsOfEmpty(cell[..], i);
      }
    }

    /** `Deref`: the payload of a handle's cell, which is never uninitialised. */
    function Deref(h: nat): (p: Payload)
      requires Valid() && h in handles
      reads this, rc, cell
      ensures h < cell.Length && cell[h] == Some(p)
    {
      assert h < rc.Length && rc[h] >= handles[h] > 0;
      cell[h].value
    }

    /** `Clone`: one more handle to the same cell, one more in its count. */
    method Clone(h: nat)
      requires Valid() && h in handles
      modifies this, rc
      ensures Valid()
      ensures rc[..] == old(rc[..])[h := old(rc[h]) + 1] && cell[..] == old(cell[..])
      ensures handles == old(handles) + multiset{h} && alloced == old(alloced)
    {
      CloneAccounted(rc[..], cell[..], handles, h);
      rc[h] := rc[h] + 1;
      handles := handles + multiset{h};
    }

    /**
     * `Drop`: one handle fewer. When the count reaches 0 the cell is freed and the handles its
     * payload owned are dropped in turn, car first; no cell is allocated meanwhile.
     */
    method Drop(h: nat)
      requires Valid() && h in handles
      modifies this, rc, cell
      ensures Valid()
      ensures handles == old(handles) - multiset{h} && alloced == old(alloced)
      ensures old(rc[h]) > 1 ==> rc[..] == old(rc[..])[h := old(rc[h]) - 1] && cell[..] == old(cell[..])
      ensures old(rc[h]) == 1 ==> rc[h] == 0 && cell[h] == None
      ensures Shrinks(old(rc[..]), old(cell[..]), rc[..], cell[..])
      decreases |Live(rc[..])|, 1
    {
      CountsHandles(rc[..], cell[..], handles, h);
      if rc[h] > 1 {
        Decrement(h);
      } else {
        DropLast(h);
      }
    }

    /** The last handle to a cell: the cell is freed, then a Cons payload's handles are dropped. */
    method DropLast(h: nat)
      requires Valid() && h in handles && rc[h] == 1
      modifies this, rc, cell
      ensures Valid()
      ensures handles == old(handles) - multiset{h} && alloced == old(alloced)
      ensures rc[h] == 0 && cell[h] == None
      ensures Shrinks(old(rc[..]), old(cell[..]), rc[..], cell[..])
      decreases |Live(rc[..])|, 0
    {
      ghost var rc0, cell0 := rc[..], cell[..];
      var contents := Release(h);
      ReleaseShrinks(rc0, cell0, h);
      if contents.Cons? {
        ghost var rc1, cell1 := rc[..], cell[..];
        DropChildren(contents.car, contents.cdr);
        ShrinksTransitive(rc0, cell0, rc1, cell1, rc[..], cell[..]);
        AddThenRemove(old(handles) - multiset{h}, Children(contents));
      }
    }

    /** Dropping a freed Cons payload: its car handle, then its cdr handle. */
    method DropChildren(car: nat, cdr: nat)
      requires Valid() && multiset{car, cdr} <= handles
      modifies this, rc, cell
      ensures Valid()
      ensures handles == old(handles) - multiset{car, cdr} && alloced == old(alloced)
      ensures Shrinks(old(rc[..]), old(cell[..]), rc[..], cell[..])
      decreases |Live(rc[..])|, 2
    {
      ghost var rc0, cell0, handles0 := rc[..], cell[..], handles;
      Drop(car);
      ghost var rc1, cell1 := rc[..], cell[..];
      ShrinksLive(rc0, cell0, rc1, cell1);
      Drop(cdr);
      ShrinksTransitive(rc0, cell0, rc1, cell1, rc[..], cell[..]);
      RemoveBoth(handles0, car, cdr);
    }

    /** A count that stays positive: only the count and the handle go. */
    method Decrement(h: nat)
      requires Valid() && h in handles && rc[h] > 1
      modifies this, rc
      ensures Valid() && alloced == old(alloced)
      ensures rc[..] == old(rc[..])[h := old(rc[h]) - 1] && handles == old(handles) - multiset{h}
    {
      DropAccounted(rc[..], cell[..], handles, h);
      rc[h] := rc[h] - 1;
      handles := handles - multiset{h};
    }

    /** A count that reaches 0: the cell is emptied and its payload's handles pass to the caller. */
    method Release(h: nat) returns (contents: Payload)
      requires Valid() && h in handles && rc[h] == 1
      modifies this, rc, cell
      ensures Valid() && alloced == old(alloced) && contents == old(cell[h].value)
      ensures rc[..] == old(rc[..])[h := 0] && cell[..] == old(cell[..])[h := None]
      ensures handles == old(handles) - multiset{h} + Children(contents)
    {
      contents := cell[h].value;
      ReleaseAccounted(rc[..], cell[..], handles, h);
      ReleaseRanked(cell[..], rank, h);
      rc[h] := 0;
      cell[h] := None;
      handles := handles - multiset{h} + Children(contents);
    }

    /** Writing a payload into a free cell: count 1, the payload's handles move in, one new handle out. */
    method Fill(k: nat, value: Payload)
      requires Valid() && k < n && rc[k] == 0 && Children(value) <= handles
      modifies this, rc, cell
      ensures Valid() && alloced == old(alloced)
      ensures rc[..] == old(rc[..])[k := 1] && cell[..] == old(cell[..])[k := Some(value)]
      ensures rc[k] == 1 && cell[k] == Some(value)
      ensures handles == old(handles) - Children(value) + multiset{k}
    {
      FillSound(rc[..], cell[..], handles, rank, k, value);
      rc[k] := 1;
      cell[k] := Some(value);
      handles := handles - Children(value) + multiset{k};
      rank := rank[k := RankOf(value, rank)];
    }

    /**
     * `alloc`: the cursor moves on by one in every case; the search starts at the new cursor
     * modulo `N` and takes the cell `Choose` names. On failure nothing else changes.
     */
    method Alloc(value: Payload) returns (r: Option<nat>)
      requires Valid() && Children(value) <= handles
      modifies this, rc, cell
      ensures Valid() && alloced == old(alloced) + 1
      ensures r == if n == 0 then None else Choose(old(rc[..]), alloced % n)
      ensures r.None? ==> rc[..] == old(rc[..]) && cell[..] == old(cell[..]) && handles == old(handles)
      ensures r.Some? ==> rc[..] == old(rc[..])[r.value := 1] && cell[..] == old(cell[..])[r.value := Some(value)]
      ensures r.Some? ==> r.value < n && rc[r.value] == 1 && cell[r.value] == Some(value)
      ensures r.Some? ==> handles == old(handles) - Children(value) + multiset{r.value}
    {
      alloced := alloced + 1;
      if n == 0 {
        return None;
      }
      var start := alloced % n;
      r := FindFree(start, n);
      if r.None? {
        r := FindFree(0, start);
      }
      assert r == Choose(rc[..], start);
      if r.Some? {
        Fill(r.value, value);
      }
    }

    /** One of the two scans of `alloc`: the first cell of `lo..hi` whose count is 0. */
    method FindFree(lo: nat, hi: nat) returns (r: Option<nat>)
      requires lo <= hi <= rc.Length
      ensures r == FirstFree(rc[..], lo, hi)
    {
      for i := lo to hi
        invariant FirstFree(rc[..], lo, hi) == FirstFree(rc[..], i, hi)
      {
        if rc[i] == 0 {
          return Some(i);
        }
      }
      return None;
    }

    /** `new_integer`: `None` is the panic of a full pool. */
    method NewInteger(i: int) returns (r: Option<nat>)
      requires Valid()
      modifies this, rc, cell
      ensures Valid() && alloced == old(alloced) + 1
      ensures r == if n == 0 then None else Choose(old(rc[..]), alloced % n)
      ensures r.None? ==> rc[..] == old(rc[..]) && cell[..] == old(cell[..]) && handles == old(handles)
      ensures r.Some? ==> rc[..] == old(rc[..])[r.value := 1] && cell[..] == old(cell[..])[r.value := Some(Integer(i))]
      ensures r.Some? ==> cell[r.value] == Some(Integer(i)) && rc[r.value] == 1
      ensures r.Some? ==> handles == old(handles) + multiset{r.value}
    {
      r := Alloc(Integer(i));
    }

    /** `new_symbol`. */
    method NewSymbol(name: string) returns (r: Option<nat>)
      requires Valid()
      modifies this, rc, cell
      ensures Valid() && alloced == old(alloced) + 1
      ensures r == if n == 0 then None else Choose(old(rc[..]), alloced % n)
      ensures r.None? ==> rc[..] == old(rc[..]) && cell[..] == old(cell[..]) && handles == old(handles)
      ensures r.Some? ==> rc[..] == old(rc[..])[r.value := 1] && cell[..] == old(cell[..])[r.value := Some(Symbol(name))]
      ensures r.Some? ==> cell[r.value] == Some(Symbol(name)) && rc[r.value] == 1
      ensures r.Some? ==> handles == old(handles) + multiset{r.value}
    {
      r := Alloc(Symbol(name));
    }

    /** `new_cons`: the two handles passed in move into the new cell. */
    method NewCons(car: nat, cdr: nat) returns (r: Option<nat>)
      requires Valid() && multiset{car, cdr} <= handles
      modifies this, rc, cell
      ensures Valid() && alloced == old(alloced) + 1
      ensures r == if n == 0 then None else Choose(old(rc[..]), alloced % n)
      ensures r.None? ==> rc[..] == old(rc[..]) && cell[..] == old(cell[..]) && handles == old(handles)
      ensures r.Some? ==> rc[..] == old(rc[..])[r.value := 1] && cell[..] == old(cell[..])[r.value := Some(Cons(car, cdr))]
      ensures r.Some? ==> cell[r.value] == Some(Cons(car, cdr)) && rc[r.value] == 1
      ensures r.Some? ==> handles == old(handles) - multiset{car, cdr} + multiset{r.value}
    {
      r := Alloc(Cons(car, cdr));
    }
  }
}

/** Range scans: `BTree::get_range` (`src/btree/tree.rs`). */
module Scans {
  import opened Common
  import opened Schemas
  import opened Pages
  import opened Trees
  import opened Stores
  import opened Focus
  import opened Contents
  import opened StoredRows
  import opened Tables
  import opened Lookups

  datatype Bound = Unbounded | Included(key: Key) | Excluded(key: Key)

  predicate BeforeStart(row: Row, start: Bound) {
    match start
    case Unbounded => false
    case Included(k) => KeyLess(RowKey(row), k)
    case Excluded(k) => !KeyLess(k, RowKey(row))
  }

  predicate PastEnd(row: Row, end: Bound) {
    match end
    case Unbounded => false
    case Included(k) => KeyLess(k, RowKey(row))
    case Excluded(k) => !KeyLess(RowKey(row), k)
  }

  /** What a range asks of a key. */
  predicate InRange(k: Key, start: Bound, end: Bound) {
    && (match start
        case Unbounded => true
        case Included(b) => b == k || KeyLess(b, k)
        case Excluded(b) => b != k && KeyLess(b, k))
    && (match end
        case Unbounded => true
        case Included(b) => k == b || KeyLess(k, b)
        case Excluded(b) => k != b && KeyLess(k, b))
  }

  lemma {:induction false} RangeTests(row: Row, start: Bound, end: Bound)
    ensures InRange(RowKey(row), start, end) <==> !BeforeStart(row, start) && !PastEnd(row, end)
  {
    hide RowKey;
    var k := RowKey(row);
    if start.Included? && Rank(start.key) == Rank(k) {
      RankInjective(start.key, k);
    }
    if end.Included? && Rank(end.key) == Rank(k) {
      RankInjective(end.key, k);
    }
  }

  /** The rows of a list that lie in the range and pass the filter, in order. */
  function Select(rows: seq<Row>, start: Bound, end: Bound, f: Row -> bool): seq<Row> {
    if rows == [] then []
    else
      var rest := Select(rows[1..], start, end, f);
      if InRange(RowKey(rows[0]), start, end) && f(rows[0]) then [rows[0]] + rest else rest
  }

  lemma {:induction false} SelectAppend(a: seq<Row>, b: seq<Row>, start: Bound, end: Bound, f: Row -> bool)
    ensures Select(a + b, start, end, f) == Select(a, start, end, f) + Select(b, start, end, f)
  {
    hide RowKey, InRange;
    if a == [] {
      assert a + b == b;
    } else {
      assert (a + b)[1..] == a[1..] + b;
      SelectAppend(a[1..], b, start, end, f);
    }
  }

  lemma {:induction false} SelectOne(r: Row, start: Bound, end: Bound, f: Row -> bool)
    ensures Select([r], start, end, f) == if InRange(RowKey(r), start, end) && f(r) then [r] else []
  {
    hide RowKey, InRange;
    assert [r][1..] == [];
  }

  lemma {:induction false} SelectNone(rows: seq<Row>, start: Bound, end: Bound, f: Row -> bool)
    requires forall r :: r in rows ==> BeforeStart(r, start) || PastEnd(r, end)
    ensures Select(rows, start, end, f) == []
  {
    hide BeforeStart, PastEnd, RowKey, InRange;
    if rows != [] {
      assert rows[0] in rows;
      RangeTests(rows[0], start, end);
      assert forall r :: r in rows[1..] ==> r in rows;
      SelectNone(rows[1..], start, end, f);
    }
  }

  lemma {:induction false} SelectHas(rows: seq<Row>, start: Bound, end: Bound, f: Row -> bool, r: Row)
    ensures r in Select(rows, start, end, f) <==> r in rows && InRange(RowKey(r), start, end) && f(r)
  {
    hide RowKey, InRange;
    if rows != [] {
      SelectHas(rows[1..], start, end, f, r);
      assert rows == [rows[0]] + rows[1..];
    }
  }

  lemma {:induction false} SelectSorted(rows: seq<Row>, start: Bound, end: Bound, f: Row -> bool)
    requires SortedRows(rows)
    ensures SortedRows(Select(rows, start, end, f))
  {
    hide RowKey, InRange;
    if rows != [] {
      var rest := Select(rows[1..], start, end, f);
      SelectSorted(rows[1..], start, end, f);
      forall i | 0 <= i < |rest|
        ensures KeyLess(RowKey(rows[0]), RowKey(rest[i]))
      {
        SelectHas(rows[1..], start, end, f, rest[i]);
        var j :| 0 <= j < |rows[1..]| && rows[1..][j] == rest[i];
        assert rows[j + 1] == rest[i];
      }
    }
  }

  /** Among sorted rows, everything from a row past the end on is past the end. */
  lemma {:induction false} PastEndStays(rows: seq<Row>, i: nat, end: Bound)
    requires SortedRows(rows) && i < |rows| && PastEnd(rows[i], end)
    ensures forall r :: r in rows[i..] ==> PastEnd(r, end)
  {
    hide RowKey;
    forall r | r in rows[i..]
      ensures PastEnd(r, end)
    {
      var j :| 0 <= j < |rows[i..]| && rows[i..][j] == r;
      if j > 0 {
        assert KeyLess(RowKey(rows[i]), RowKey(rows[i + j]));
      }
    }
  }

  /** The inner loop of a scan: one leaf's rows. It is `done` when it met a row past the end. */
  method ScanLeaf(rows: seq<Row>, start: Bound, end: Bound, f: Row -> bool, soFar: seq<Row>)
    returns (out: seq<Row>, done: bool)
    requires SortedRows(rows)
    ensures out == soFar + Select(rows, start, end, f)
    ensures done <==> exists i :: 0 <= i < |rows| && !BeforeStart(rows[i], start) && PastEnd(rows[i], end)
  {
    hide RowKey, InRange, BeforeStart, PastEnd, Select;
    out := soFar;
    assert Select([], start, end, f) == [] by { SelectNone([], start, end, f); }
    for i := 0 to |rows|
      invariant out == soFar + Select(rows[..i], start, end, f)
      invariant forall j :: 0 <= j < i ==> BeforeStart(rows[j], start) || !PastEnd(rows[j], end)
    {
      var row := rows[i];
      RangeTests(row, start, end);
      assert rows[..i + 1] == rows[..i] + [row];
      SelectAppend(rows[..i], [row], start, end, f);
      SelectOne(row, start, end, f);
      if !BeforeStart(row, start) {
        if PastEnd(row, end) {
          PastEndStays(rows, i, end);
          SelectNone(rows[i..], start, end, f);
          assert rows == rows[..i] + rows[i..];
          SelectAppend(rows[..i], rows[i..], start, end, f);
          return out, true;
        }
        if f(row) {
          out := out + [row];
        }
      }
    }
    assert rows[..|rows|] == rows;
    done := false;
  }

  /** The leaf where a scan begins has nothing of the range to its left. */
  ghost predicate StartsHere(c: Ctx, start: Bound) {
    match start
    case Unbounded => LeavesBefore(c) == []
    case Included(k) => KeyFits(c, k)
    case Excluded(k) => KeyFits(c, k)
  }

  function StartIndex(keys: seq<Key>, start: Bound): (i: nat)
    ensures i <= |keys|
  {
    if start.Unbounded? then 0 else FindChildIndex(keys, start.key)
  }

  lemma {:induction false} StartAtRoot(start: Bound)
    ensures StartsHere(Top, start)
  {
    if !start.Unbounded? {
      RootFits(start.key);
    }
  }

  lemma {:induction false} StartRoute(s: Schema, pages: Store, m: PageId, c: Ctx, t: Tree, h: nat, fl: seq<PageId>,
                                      start: Bound)
    requires Sound(s, pages, m, c, t, h, fl) && t.NodeT? && StartsHere(c, start)
    ensures |t.kids| == |t.keys| + 1 && h > 0
    ensures var i := StartIndex(t.keys, start); var c' := KidCtx(c, t, i);
      StartsHere(c', start) && Sound(s, pages, m, c', t.kids[i], h - 1, fl)
        && AllLeaves(c', t.kids[i]) == AllLeaves(c, t)
  {
    hide Sound, AllLeaves, FindChildIndex, KeyFits;
    if start.Unbounded? {
      NodeHasKid(s, pages, m, c, t, h, fl);
      FocusDown(s, pages, m, c, t, h, fl, 0);
      FirstKidBefore(c, t);
    } else {
      Route(s, pages, m, c, t, h, fl, start.key);
    }
  }

  lemma {:induction false} FirstKidBefore(c: Ctx, t: Tree)
    requires t.NodeT? && t.kids != []
    ensures LeavesBefore(KidCtx(c, t, 0)) == LeavesBefore(c)
  {
    assert t.kids[..0] == [];
    assert LeavesOf([]) == [];
  }

  lemma {:induction false} NodeHasKid(s: Schema, pages: Store, m: PageId, c: Ctx, t: Tree, h: nat, fl: seq<PageId>)
    requires Sound(s, pages, m, c, t, h, fl) && t.NodeT?
    ensures |t.kids| == |t.keys| + 1
  {
  }

  /** No row to the left of the first leaf belongs to the range. */
  lemma {:induction false} NothingBefore(s: Schema, c: Ctx, h: nat, start: Bound, end: Bound, f: Row -> bool)
    requires CtxWf(s, c, h) && StartsHere(c, start)
    ensures Select(RowsOf(LeavesBefore(c)), start, end, f) == []
  {
    hide RowKey, CtxWf, Lo, Hi, LeavesBefore, RowsOf;
    var rows := RowsOf(LeavesBefore(c));
    if start.Unbounded? {
      NoRows();
    } else {
      forall r | r in rows
        ensures BeforeStart(r, start)
      {
        BeforeBelow(s, c, h, r);
      }
    }
    SelectNone(rows, start, end, f);
  }

  lemma {:induction false} NoRows()
    ensures RowsOf([]) == []
  {
  }

  /** Everything known about the leaf at position `n` of the chain. */
  lemma {:induction false} ChainLeaf(pages: Store, ls: seq<Tree>, n: nat)
    requires Chain(pages, ls) && n < |ls|
    ensures ls[n].id in pages && pages[ls[n].id].body.Leaf? && pages[ls[n].id].body.next == IdAt(ls, n + 1)
  {
    assert Linked(pages, ls, n);
  }

  lemma {:induction false} RowsUpTo(ls: seq<Tree>, n: nat)
    requires n < |ls| && ls[n].LeafT?
    ensures RowsOf(ls[..n + 1]) == RowsOf(ls[..n]) + ls[n].rows
    ensures RowsOf(ls) == RowsOf(ls[..n]) + ls[n].rows + RowsOf(ls[n + 1..])
  {
    assert ls[..n + 1] == ls[..n] + [ls[n]];
    RowsOfAppend(ls[..n], [ls[n]]);
    LeafRows(ls[n]);
    assert ls == ls[..n + 1] + ls[n + 1..];
    RowsOfAppend(ls[..n + 1], ls[n + 1..]);
  }

  /** A row past the end in the leaf at `n` means that the rest of the chain is past the end. */
  lemma {:induction false} RestPastEnd(ls: seq<Tree>, n: nat, i: nat, start: Bound, end: Bound, f: Row -> bool)
    requires n < |ls| && ls[n].LeafT? && i < |ls[n].rows| && SortedRows(RowsOf(ls)) && PastEnd(ls[n].rows[i], end)
    ensures Select(RowsOf(ls), start, end, f) == Select(RowsOf(ls[..n + 1]), start, end, f)
  {
    hide PastEnd, SortedRows, RowsOf, Select;
    RowsUpTo(ls, n);
    var all, a, b := RowsOf(ls), RowsOf(ls[..n + 1]), RowsOf(ls[n + 1..]);
    var at := |RowsOf(ls[..n])| + i;
    assert all[at] == ls[n].rows[i];
    PastEndStays(all, at, end);
    assert all == a + b;
    forall r | r in b
      ensures PastEnd(r, end)
    {
      var j :| 0 <= j < |b| && b[j] == r;
      assert all[at..][|a| + j - at] == r;
    }
    SelectNone(b, start, end, f);
    SelectAppend(a, b, start, end, f);
  }

  lemma {:induction false} SoundChain(s: Schema, pages: Store, m: PageId, c: Ctx, t: Tree, h: nat, fl: seq<PageId>)
    requires Sound(s, pages, m, c, t, h, fl)
    ensures Chain(pages, AllLeaves(c, t)) && SortedRows(RowsOf(AllLeaves(c, t)))
  {
    hide AllLeaves, RowsOf, SortedRows, Wf, CtxWf, RepT, RepCtx, Space, Chain;
    FocusSorted(s, c, t, h);
  }

  lemma {:induction false} RepLeaves(s: Schema, pages: Store, m: PageId, t: Tree, h: nat, fl: seq<PageId>, n: nat)
    requires Sound(s, pages, m, Top, t, h, fl) && n < |AllLeaves(Top, t)|
    ensures var l := AllLeaves(Top, t)[n];
      l.LeafT? && l.id in pages && pages[l.id].body.Leaf? && pages[l.id].body.records == l.rows
  {
    assert AllLeaves(Top, t) == Leaves(t);
    hide Wf, RepT, Chain, Space, Leaves;
    RepLeaf(pages, t, AllLeaves(Top, t)[n]);
  }

  lemma {:induction false} RepLeaf(pages: Store, t: Tree, l: Tree)
    requires RepT(pages, t) && l in Leaves(t)
    ensures l.LeafT? && l.id in pages && pages[l.id].body.Leaf? && pages[l.id].body.records == l.rows
    decreases t, 1
  {
    if t.NodeT? {
      RepLeafOf(pages, t.kids, l);
    }
  }

  lemma {:induction false} RepLeafOf(pages: Store, ts: seq<Tree>, l: Tree)
    requires RepAll(pages, ts) && l in LeavesOf(ts)
    ensures l.LeafT? && l.id in pages && pages[l.id].body.Leaf? && pages[l.id].body.records == l.rows
    decreases ts, 0
  {
    if l in Leaves(ts[0]) {
      RepLeaf(pages, ts[0], l);
    } else {
      RepLeafOf(pages, ts[1..], l);
    }
  }

  /** Going down to the leaf where the scan begins. */
  method FindStart(tb: Table, start: Bound) returns (page: Page, ghost n: nat)
    requires tb.Valid()
    ensures n < |AllLeaves(Top, tb.tree)| && AllLeaves(Top, tb.tree)[n].id in tb.pages
    ensures page == tb.pages[AllLeaves(Top, tb.tree)[n].id]
    ensures forall end, f :: Select(RowsOf(AllLeaves(Top, tb.tree)[..n]), start, end, f) == []
  {
    hide Sound, AllLeaves, StartsHere, RowsOf, FindChildIndex, CtxWf, Wf, Select, LeavesBefore, LeavesAfter, Leaves;
    ghost var c, t, h := Top, tb.tree, tb.height;
    FocusPage(tb.schema, tb.pages, tb.m, c, t, h, tb.free);
    StartAtRoot(start);
    var root := tb.RootId();
    page := tb.pages[root];
    while page.body.Internal?
      invariant Sound(tb.schema, tb.pages, tb.m, c, t, h, tb.free) && StartsHere(c, start)
      invariant AllLeaves(c, t) == AllLeaves(Top, tb.tree)
      invariant t.id in tb.pages && page == tb.pages[t.id]
      decreases h
    {
      FocusPage(tb.schema, tb.pages, tb.m, c, t, h, tb.free);
      StartRoute(tb.schema, tb.pages, tb.m, c, t, h, tb.free, start);
      var i := StartIndex(page.body.keys, start);
      c, t, h := KidCtx(c, t, i), t.kids[i], h - 1;
      FocusPage(tb.schema, tb.pages, tb.m, c, t, h, tb.free);
      page := tb.pages[page.body.children[i]];
    }
    FocusPage(tb.schema, tb.pages, tb.m, c, t, h, tb.free);
    n := |LeavesBefore(c)|;
    FocusLeafAt(c, t);
    forall end, f
      ensures Select(RowsOf(AllLeaves(Top, tb.tree)[..n]), start, end, f) == []
    {
      NothingBefore(tb.schema, c, h, start, end, f);
    }
  }

  lemma {:induction false} FocusLeafAt(c: Ctx, t: Tree)
    requires t.LeafT?
    ensures var ls, n := AllLeaves(c, t), |LeavesBefore(c)|; n < |ls| && ls[n] == t && ls[..n] == LeavesBefore(c)
  {
    hide LeavesBefore, LeavesAfter;
  }

  /** `get_range` collects exactly the rows of the table in the range that pass the filter. */
  method GetRange(tb: Table, start: Bound, end: Bound, f: Row -> bool) returns (out: seq<Row>)
    requires tb.Valid()
    ensures SortedRows(out)
    ensures forall r :: r in out <==>
      RowKey(r) in tb.Contents() && tb.Contents()[RowKey(r)] == r && InRange(RowKey(r), start, end) && f(r)
    ensures out == Select(RowsOf(AllLeaves(Top, tb.tree)), start, end, f)
    ensures forall r :: r in out <==> r in RowsStored(tb.pages) && InRange(RowKey(r), start, end) && f(r)
  {
    hide MapOf, RowsStored;
    hide Sound, AllLeaves, RowsOf, Select, ToMap, SortedRows, InRange, RowKey, Chain, BeforeStart, PastEnd, IdAt;
    ghost var ls := AllLeaves(Top, tb.tree);
    SoundChain(tb.schema, tb.pages, tb.m, Top, tb.tree, tb.height, tb.free);
    var page;
    ghost var n;
    page, n := FindStart(tb, start);
    out := [];
    var more := true;
    ghost var count: nat := n;
    RepLeaves(tb.schema, tb.pages, tb.m, tb.tree, tb.height, tb.free, n);
    while more
      invariant 0 <= count <= |ls| && out == Select(RowsOf(ls[..count]), start, end, f)
      invariant more ==> n == count < |ls| && ls[n].LeafT? && ls[n].id in tb.pages && page == tb.pages[ls[n].id]
      invariant more ==> page.body.Leaf? && page.body.records == ls[n].rows
      invariant !more ==> out == Select(RowsOf(ls), start, end, f)
      decreases more, |ls| - count
    {
      LeafSortedIn(ls, n);
      var done;
      out, done := ScanLeaf(page.body.records, start, end, f, out);
      RowsUpTo(ls, n);
      SelectAppend(RowsOf(ls[..n]), ls[n].rows, start, end, f);
      ChainLeaf(tb.pages, ls, n);
      count := n + 1;
      if done {
        ghost var i :| 0 <= i < |ls[n].rows| && PastEnd(ls[n].rows[i], end);
        RestPastEnd(ls, n, i, start, end, f);
        more := false;
      } else {
        NextAt(ls, n);
        match page.body.next {
          case None =>
            more := false;
          case Some(next) =>
            n := n + 1;
            RepLeaves(tb.schema, tb.pages, tb.m, tb.tree, tb.height, tb.free, n);
            page := tb.pages[next];
        }
      }
    }
    SelectMeaning(RowsOf(ls), start, end, f);
    TableMeans(tb);
    MapHas(tb.Contents(), RowsStored(tb.pages));
  }

  lemma {:induction false} NextAt(ls: seq<Tree>, n: nat)
    requires n < |ls|
    ensures IdAt(ls, n + 1) == if n + 1 < |ls| then Some(ls[n + 1].id) else None
    ensures n + 1 == |ls| ==> ls[..n + 1] == ls
  {
  }

  lemma {:induction false} LeafSortedIn(ls: seq<Tree>, n: nat)
    requires n < |ls| && ls[n].LeafT? && SortedRows(RowsOf(ls))
    ensures SortedRows(ls[n].rows)
  {
    hide RowsOf, RowKey;
    RowsUpTo(ls, n);
    var a := RowsOf(ls[..n]);
    forall i, j | 0 <= i < j < |ls[n].rows|
      ensures KeyLess(RowKey(ls[n].rows[i]), RowKey(ls[n].rows[j]))
    {
      assert RowsOf(ls)[|a| + i] == ls[n].rows[i] && RowsOf(ls)[|a| + j] == ls[n].rows[j];
    }
  }

  /** Selecting from sorted rows is selecting from their map. */
  lemma {:induction false} SelectMeaning(rows: seq<Row>, start: Bound, end: Bound, f: Row -> bool)
    requires SortedRows(rows)
    ensures var out := Select(rows, start, end, f);
      && SortedRows(out)
      && forall r :: r in out <==>
          RowKey(r) in ToMap(rows) && ToMap(rows)[RowKey(r)] == r && InRange(RowKey(r), start, end) && f(r)
  {
    hide RowKey, InRange, Select, ToMap, SortedRows;
    SelectSorted(rows, start, end, f);
    forall r
      ensures r in Select(rows, start, end, f) <==>
        RowKey(r) in ToMap(rows) && ToMap(rows)[RowKey(r)] == r && InRange(RowKey(r), start, end) && f(r)
    {
      SelectHas(rows, start, end, f, r);
      if r in rows {
        var i :| 0 <= i < |rows| && rows[i] == r;
        ToMapAt(rows, i);
      } else if RowKey(r) in ToMap(rows) {
        var i := ToMapFrom(rows, RowKey(r));
        ToMapAt(rows, i);
      }
    }
  }

  lemma {:induction false} SelectAll(rows: seq<Row>, f: Row -> bool)
    requires forall r :: f(r)
    ensures Select(rows, Unbounded, Unbounded, f) == rows
  {
    if rows != [] {
      SelectAll(rows[1..], f);
      assert rows == [rows[0]] + rows[1..];
    }
  }

  /** `get_all` gives all rows that pass the filter. */
  method GetAll(tb: Table, f: Row -> bool) returns (out: seq<Row>)
    requires tb.Valid()
    ensures SortedRows(out)
    ensures forall r :: r in out <==> RowKey(r) in tb.Contents() && tb.Contents()[RowKey(r)] == r && f(r)
    ensures (forall r :: f(r)) ==> out == RowsOf(AllLeaves(Top, tb.tree))
  {
    hide ToMap, RowsOf, AllLeaves, Sound, SortedRows, RowKey, Select;
    if forall r :: f(r) {
      SelectAll(RowsOf(AllLeaves(Top, tb.tree)), f);
    }
    out := GetRange(tb, Unbounded, Unbounded, f);
  }
}

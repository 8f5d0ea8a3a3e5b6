/** Looking a key up by the separators of a tree, whether or not the tree is in order. */
module Finding {
  import opened Common
  import opened Schemas
  import opened Pages
  import opened Trees
  import opened Stores
  import opened Focus
  import opened Contents

  /** Every internal page has one child more than keys. */
  ghost predicate Branching(t: Tree)
    decreases t
  {
    t.NodeT? ==> |t.kids| == |t.keys| + 1 && forall i :: 0 <= i < |t.kids| ==> Branching(t.kids[i])
  }

  /** The row that the descent of `get` comes to. */
  function Find(t: Tree, k: Key): Option<Row>
    decreases t
  {
    match t
    case LeafT(_, rows) => RowFound(rows, k)
    case NodeT(_, keys, kids) =>
      if FindChildIndex(keys, k) < |kids| then Find(kids[FindChildIndex(keys, k)], k) else None
  }

  function RowFound(rows: seq<Row>, k: Key): Option<Row> {
    match Search(RecordKeys(rows), k)
    case Hit(i) => Some(rows[i])
    case Miss(_) => None
  }

  /** The first row with key `k`. */
  function RowWith(rows: seq<Row>, k: Key): (r: Option<Row>)
    ensures r.Some? ==> r.value in rows && RowKey(r.value) == k
    ensures r.None? ==> forall x :: x in rows ==> RowKey(x) != k
  {
    if rows == [] then None
    else if RowKey(rows[0]) == k then Some(rows[0])
    else RowWith(rows[1..], k)
  }

  lemma {:induction false} RowWithAppend(a: seq<Row>, b: seq<Row>, k: Key)
    ensures RowWith(a + b, k) == if RowWith(a, k).Some? then RowWith(a, k) else RowWith(b, k)
  {
    hide RowKey;
    if a == [] {
      assert a + b == b;
    } else {
      assert (a + b)[1..] == a[1..] + b;
      RowWithAppend(a[1..], b, k);
    }
  }

  /** Among sorted rows it is what their map holds. */
  lemma {:induction false} RowWithIsLookup(rows: seq<Row>, k: Key)
    requires SortedRows(rows)
    ensures RowWith(rows, k) == if k in ToMap(rows) then Some(ToMap(rows)[k]) else None
  {
    hide RowKey, ToMap, SortedRows, RowWith;
    var r := RowWith(rows, k);
    if r.Some? {
      var i :| 0 <= i < |rows| && rows[i] == r.value;
      ToMapAt(rows, i);
    } else if k in ToMap(rows) {
      var i := ToMapFrom(rows, k);
    }
  }

  lemma {:induction false} LeafFound(rows: seq<Row>, k: Key)
    requires Sorted(RecordKeys(rows))
    ensures RowFound(rows, k) == RowWith(rows, k)
  {
    hide RowKey, Search, RowWith;
    var r := RowWith(rows, k);
    match Search(RecordKeys(rows), k)
    case Hit(i) =>
      assert rows[i] in rows && RowKey(rows[i]) == k;
      var j :| 0 <= j < |rows| && rows[j] == r.value;
      assert RecordKeys(rows)[i] == RecordKeys(rows)[j];
    case Miss(_) =>
      NotAmong(rows, k);
  }

  /** In a sound tree the descent finds exactly the row with that key, if there is one. */
  lemma {:induction false} FindWf(s: Schema, t: Tree, lo: Option<Key>, hi: Option<Key>, h: nat, k: Key)
    requires Wf(s, t, lo, hi, h)
    ensures Find(t, k) == RowWith(Rows(t), k)
    decreases t
  {
    hide ValidRow, ValidKey, KeyBytes, LeafBytes, RowKey, FindChildIndex, RowFound, RowWith, RowsIn;
    if t.LeafT? {
      LeafRows(t);
      LeafFound(t.rows, k);
    } else {
      var i := FindChildIndex(t.keys, k);
      FindWf(s, t.kids[i], KidLo(t.keys, i, lo), KidHi(t.keys, i, hi), h - 1, k);
      forall j | 0 <= j < |t.kids| && j != i
        ensures RowWith(Rows(t.kids[j]), k) == None
      {
        OtherChild(s, t, lo, hi, h, k, j);
      }
      OnlyHere(t.kids, i, k);
    }
  }

  lemma {:induction false} ChildBounds(keys: seq<Key>, k: Key, i: nat)
    requires Sorted(keys) && i == FindChildIndex(keys, k)
    ensures forall j :: 0 <= j < i ==> !KeyLess(k, keys[j])
    ensures forall j :: i <= j < |keys| ==> KeyLess(k, keys[j])
  {
  }

  /** No other child than the routed one has the key. */
  lemma {:induction false} OtherChild(s: Schema, t: Tree, lo: Option<Key>, hi: Option<Key>, h: nat, k: Key, j: nat)
    requires t.NodeT? && Wf(s, t, lo, hi, h) && j < |t.kids| && j != FindChildIndex(t.keys, k)
    ensures RowWith(Rows(t.kids[j]), k) == None
  {
    hide ValidKey, KeyBytes, RowKey, FindChildIndex, RowWith;
    var i := FindChildIndex(t.keys, k);
    ChildBounds(t.keys, k, i);
    RowsSorted(s, t.kids[j], KidLo(t.keys, j, lo), KidHi(t.keys, j, hi), h - 1);
    hide Wf;
    OutOfRange(Rows(t.kids[j]), KidLo(t.keys, j, lo), KidHi(t.keys, j, hi), k);
  }

  lemma {:induction false} OutOfRange(rows: seq<Row>, lo: Option<Key>, hi: Option<Key>, k: Key)
    requires RowsIn(rows, lo, hi) && !(AtLeast(lo, k) && Below(k, hi))
    ensures RowWith(rows, k) == None
  {
    hide RowKey, RowWith;
    forall x | x in rows
      ensures RowKey(x) != k
    {
      var i :| 0 <= i < |rows| && rows[i] == x;
      assert AtLeast(lo, RowKey(rows[i])) && Below(RowKey(rows[i]), hi);
    }
  }

  lemma {:induction false} OnlyHere(ts: seq<Tree>, i: nat, k: Key)
    requires i < |ts| && forall j :: 0 <= j < |ts| && j != i ==> RowWith(Rows(ts[j]), k) == None
    ensures RowWith(RowsOf(LeavesOf(ts)), k) == RowWith(Rows(ts[i]), k)
  {
    hide RowWith, RowKey;
    RowsOfAppend(Leaves(ts[0]), LeavesOf(ts[1..]));
    RowWithAppend(Rows(ts[0]), RowsOf(LeavesOf(ts[1..])), k);
    if i > 0 {
      OnlyHere(ts[1..], i - 1, k);
    } else {
      NotHere(ts[1..], k);
    }
  }

  lemma {:induction false} NotHere(ts: seq<Tree>, k: Key)
    requires forall j :: 0 <= j < |ts| ==> RowWith(Rows(ts[j]), k) == None
    ensures RowWith(RowsOf(LeavesOf(ts)), k) == None
  {
    hide RowKey;
    if ts != [] {
      RowsOfAppend(Leaves(ts[0]), LeavesOf(ts[1..]));
      RowWithAppend(Rows(ts[0]), RowsOf(LeavesOf(ts[1..])), k);
      NotHere(ts[1..], k);
    }
  }

  lemma {:induction false} WfBranching(s: Schema, t: Tree, lo: Option<Key>, hi: Option<Key>, h: nat)
    requires Wf(s, t, lo, hi, h)
    ensures Branching(t)
    decreases t
  {
    hide LeafOk, KeysOk;
    if t.NodeT? {
      forall i | 0 <= i < |t.kids|
        ensures Branching(t.kids[i])
      {
        WfBranching(s, t.kids[i], KidLo(t.keys, i, lo), KidHi(t.keys, i, hi), h - 1);
      }
    }
  }

  // ------------------------------------------------------------------- through a context

  /** The descent for `k` comes to the hole. */
  ghost predicate RoutesHere(c: Ctx, k: Key) {
    c.Down? ==> FindChildIndex(c.keys, k) == |c.left| && RoutesHere(c.up, k)
  }

  lemma {:induction false} FindThrough(c: Ctx, t: Tree, k: Key)
    requires RoutesHere(c, k)
    ensures Find(Plug(c, t), k) == Find(t, k)
    decreases c
  {
    hide FindChildIndex;
    if c.Down? {
      FindThrough(c.up, NodeT(c.id, c.keys, c.left + [t] + c.right), k);
    }
  }

  lemma {:induction false} FindElsewhere(c: Ctx, t: Tree, t': Tree, k: Key)
    requires !RoutesHere(c, k)
    ensures Find(Plug(c, t), k) == Find(Plug(c, t'), k)
    decreases c
  {
    hide FindChildIndex;
    var n, n' := NodeT(c.id, c.keys, c.left + [t] + c.right), NodeT(c.id, c.keys, c.left + [t'] + c.right);
    if RoutesHere(c.up, k) {
      FindThrough(c.up, n, k);
      FindThrough(c.up, n', k);
    } else {
      FindElsewhere(c.up, n, n', k);
    }
  }

  /** In a sound context, a key within the bounds of the hole is routed to it. */
  lemma {:induction false} FitsRoutes(s: Schema, c: Ctx, h: nat, k: Key)
    requires CtxWf(s, c, h) && KeyFits(c, k)
    ensures RoutesHere(c, k)
    decreases c
  {
    hide ValidKey, KeyBytes, SidesOk;
    if c.Down? {
      var i := FindChildIndex(c.keys, k);
      ChildBounds(c.keys, k, i);
      hide FindChildIndex;
      FitsUp(s, c, h, k);
      FitsRoutes(s, c.up, h + 1, k);
    }
  }

  lemma {:induction false} FitsUp(s: Schema, c: Ctx, h: nat, k: Key)
    requires CtxWf(s, c, h) && c.Down? && KeyFits(c, k)
    ensures KeyFits(c.up, k)
  {
    hide ValidKey, KeyBytes, SidesOk;
  }

  lemma {:induction false} PlugBranching(c: Ctx, t: Tree)
    requires Branching(t) && BranchingCtx(c)
    ensures Branching(Plug(c, t))
    decreases c
  {
    if c.Down? {
      PlugBranching(c.up, NodeT(c.id, c.keys, c.left + [t] + c.right));
    }
  }

  ghost predicate BranchingCtx(c: Ctx) {
    c.Down? ==>
      && |c.left| + |c.right| == |c.keys| && BranchingCtx(c.up)
      && (forall i :: 0 <= i < |c.left| ==> Branching(c.left[i]))
      && (forall i :: 0 <= i < |c.right| ==> Branching(c.right[i]))
  }

  lemma {:induction false} CtxBranching(s: Schema, c: Ctx, h: nat)
    requires CtxWf(s, c, h)
    ensures BranchingCtx(c)
    decreases c
  {
    hide KeysOk, Wf;
    if c.Down? {
      CtxBranching(s, c.up, h + 1);
      forall i | 0 <= i < |c.left|
        ensures Branching(c.left[i])
      {
        WfBranching(s, c.left[i], KidLo(c.keys, i, Lo(c.up)), KidHi(c.keys, i, Hi(c.up)), h);
      }
      forall i | 0 <= i < |c.right|
        ensures Branching(c.right[i])
      {
        var n := |c.left| + 1 + i;
        WfBranching(s, c.right[i], KidLo(c.keys, n, Lo(c.up)), KidHi(c.keys, n, Hi(c.up)), h);
      }
    }
  }

  // --------------------------------------------------------------------- spelled out by pages

  /** The pages spell out this tree with chained leaves and exact accounting; its keys need not be in
      order. */
  ghost predicate Spelled(s: Schema, pages: Store, m: PageId, t: Tree, fl: seq<PageId>) {
    && Branching(t) && RepT(pages, t) && Chain(pages, Leaves(t))
    && Space(pages, m, Ids(t), fl) && MetaNames(pages, m, t.id, s)
  }

  lemma {:induction false} SoundIsSpelled(s: Schema, pages: Store, m: PageId, t: Tree, h: nat, fl: seq<PageId>)
    requires Sound(s, pages, m, Top, t, h, fl)
    ensures Spelled(s, pages, m, t, fl)
  {
    hide Wf, RepT, Chain, Space, Branching, Leaves, Ids;
    WfBranching(s, t, None, None, h);
    assert AllLeaves(Top, t) == Leaves(t);
    assert CtxIds(Top) + Ids(t) == Ids(t);
  }

  /** On a sound table the descent answers what the map holds. */
  lemma {:induction false} FindIsLookup(s: Schema, t: Tree, h: nat, k: Key)
    requires Wf(s, t, None, None, h)
    ensures Find(t, k) == if k in ContentsOf(Top, t) then Some(ContentsOf(Top, t)[k]) else None
  {
    hide Wf, Leaves, RowsOf, ToMap, SortedRows, RowWith, Find;
    FindWf(s, t, None, None, h, k);
    FocusSorted(s, Top, t, h);
    assert AllLeaves(Top, t) == Leaves(t);
    RowWithIsLookup(Rows(t), k);
  }
}

/** The search tree that a set of pages spells out, and the place in it where an operation works.
    `Tree` is the shape below a page; `Ctx` is everything around it, innermost page first. */
module Trees {
  import opened Common
  import opened Schemas
  import opened Pages

  datatype Tree =
    | LeafT(id: PageId, rows: seq<Row>)
    | NodeT(id: PageId, keys: seq<Key>, kids: seq<Tree>)

  datatype Ctx =
    | Top
    | Down(up: Ctx, id: PageId, keys: seq<Key>, left: seq<Tree>, right: seq<Tree>)

  // ------------------------------------------------------------------ key ranges

  /** `k` is at or above an optional lower bound. */
  predicate AtLeast(lo: Option<Key>, k: Key) {
    lo.Some? ==> !KeyLess(k, lo.value)
  }

  predicate Above(lo: Option<Key>, k: Key) {
    lo.Some? ==> KeyLess(lo.value, k)
  }

  predicate Below(k: Key, hi: Option<Key>) {
    hi.Some? ==> KeyLess(k, hi.value)
  }

  function KidLo(keys: seq<Key>, i: nat, lo: Option<Key>): Option<Key>
    requires i <= |keys|
  {
    if i == 0 then lo else Some(keys[i - 1])
  }

  function KidHi(keys: seq<Key>, i: nat, hi: Option<Key>): Option<Key>
    requires i <= |keys|
  {
    if i == |keys| then hi else Some(keys[i])
  }

  // ---------------------------------------------------------------- well-formedness

  /** The contents of a leaf with keys in [lo, hi). */
  ghost predicate LeafOk(s: Schema, rows: seq<Row>, lo: Option<Key>, hi: Option<Key>) {
    && LeafBytes(rows) <= LEAF_USABLE
    && Sorted(RecordKeys(rows))
    && (forall i :: 0 <= i < |rows| ==> ValidRow(s, rows[i]))
    && (forall i :: 0 <= i < |rows| ==> AtLeast(lo, RowKey(rows[i])) && Below(RowKey(rows[i]), hi))
  }

  /** The separators of an internal page, strictly inside (lo, hi). */
  ghost predicate KeysOk(s: Schema, keys: seq<Key>, lo: Option<Key>, hi: Option<Key>) {
    && KeyBytes(keys) <= INTERNAL_USABLE
    && Sorted(keys)
    && (forall i :: 0 <= i < |keys| ==> ValidKey(s, keys[i]))
    && (forall i :: 0 <= i < |keys| ==> Above(lo, keys[i]) && Below(keys[i], hi))
  }

  /** A search tree of height `h` with all its keys in [lo, hi), every page within its budget. */
  ghost predicate Wf(s: Schema, t: Tree, lo: Option<Key>, hi: Option<Key>, h: nat)
    decreases t
  {
    match t
    case LeafT(_, rows) => h == 0 && LeafOk(s, rows, lo, hi)
    case NodeT(_, keys, kids) =>
      && h > 0
      && KeysOk(s, keys, lo, hi)
      && |kids| == |keys| + 1
      && forall i :: 0 <= i < |kids| ==> Wf(s, kids[i], KidLo(keys, i, lo), KidHi(keys, i, hi), h - 1)
  }

  function Lo(c: Ctx): Option<Key> {
    if c.Top? then None
    else if 0 < |c.left| <= |c.keys| then Some(c.keys[|c.left| - 1])
    else Lo(c.up)
  }

  function Hi(c: Ctx): Option<Key> {
    if c.Top? then None
    else if |c.left| < |c.keys| then Some(c.keys[|c.left|])
    else Hi(c.up)
  }

  /** The siblings around a hole at position |left|. */
  ghost predicate SidesOk(s: Schema, keys: seq<Key>, left: seq<Tree>, right: seq<Tree>,
                          lo: Option<Key>, hi: Option<Key>, h: nat)
    requires |left| + |right| == |keys|
  {
    && (forall i :: 0 <= i < |left| ==> Wf(s, left[i], KidLo(keys, i, lo), KidHi(keys, i, hi), h))
    && (forall i :: 0 <= i < |right| ==>
          Wf(s, right[i], KidLo(keys, |left| + 1 + i, lo), KidHi(keys, |left| + 1 + i, hi), h))
  }

  /** A context whose hole takes a tree of height `h` with keys in [Lo, Hi). */
  ghost predicate CtxWf(s: Schema, c: Ctx, h: nat) {
    match c
    case Top => true
    case Down(up, _, keys, left, right) =>
      && KeysOk(s, keys, Lo(up), Hi(up))
      && |left| + |right| == |keys|
      && SidesOk(s, keys, left, right, Lo(up), Hi(up), h)
      && CtxWf(s, up, h + 1)
  }

  function Plug(c: Ctx, t: Tree): Tree {
    if c.Top? then t else Plug(c.up, NodeT(c.id, c.keys, c.left + [t] + c.right))
  }

  function Depth(c: Ctx): nat {
    if c.Top? then 0 else 1 + Depth(c.up)
  }

  /** Filling the hole of a sound context with a sound tree gives a sound tree. */
  lemma {:induction false} PlugWf(s: Schema, c: Ctx, t: Tree, h: nat)
    requires CtxWf(s, c, h) && Wf(s, t, Lo(c), Hi(c), h)
    ensures Wf(s, Plug(c, t), None, None, h + Depth(c))
    decreases c
  {
    hide Wf, KeysOk, SidesOk;
    if c.Down? {
      NodeWf(s, c, t, h);
      PlugWf(s, c.up, NodeT(c.id, c.keys, c.left + [t] + c.right), h + 1);
    }
  }

  lemma {:induction false} NodeWf(s: Schema, c: Ctx, t: Tree, h: nat)
    requires c.Down? && CtxWf(s, c, h) && Wf(s, t, Lo(c), Hi(c), h)
    ensures Wf(s, NodeT(c.id, c.keys, c.left + [t] + c.right), Lo(c.up), Hi(c.up), h + 1)
  {
    hide KeysOk, Wf, KidLo, KidHi, SidesOk, Lo, Hi;
    HoleBounds(c);
    AllKids(s, c.keys, c.left, t, c.right, Lo(c.up), Hi(c.up), h);
    NodeFromKids(s, c.id, c.keys, c.left + [t] + c.right, Lo(c.up), Hi(c.up), h);
  }

  lemma {:induction false} HoleBounds(c: Ctx)
    requires c.Down? && |c.left| + |c.right| == |c.keys|
    ensures Lo(c) == KidLo(c.keys, |c.left|, Lo(c.up)) && Hi(c) == KidHi(c.keys, |c.left|, Hi(c.up))
  {
  }

  /** The children beside a hole and the one in it. */
  lemma {:induction false} AllKids(s: Schema, keys: seq<Key>, left: seq<Tree>, t: Tree, right: seq<Tree>,
                                   lo: Option<Key>, hi: Option<Key>, h: nat)
    requires |left| + |right| == |keys| && SidesOk(s, keys, left, right, lo, hi, h)
    requires Wf(s, t, KidLo(keys, |left|, lo), KidHi(keys, |left|, hi), h)
    ensures var kids := left + [t] + right;
      forall i :: 0 <= i < |kids| ==> Wf(s, kids[i], KidLo(keys, i, lo), KidHi(keys, i, hi), h)
  {
    hide Wf, KidLo, KidHi;
    var kids := left + [t] + right;
    forall i | 0 <= i < |kids|
      ensures Wf(s, kids[i], KidLo(keys, i, lo), KidHi(keys, i, hi), h)
    {
      if i > |left| {
        var j := i - |left| - 1;
        assert kids[i] == right[j] && |left| + 1 + j == i;
      }
    }
  }

  lemma {:induction false} NodeFromKids(s: Schema, id: PageId, keys: seq<Key>, kids: seq<Tree>, lo: Option<Key>,
                                        hi: Option<Key>, h: nat)
    requires |kids| == |keys| + 1 && KeysOk(s, keys, lo, hi)
    requires forall i :: 0 <= i < |kids| ==> Wf(s, kids[i], KidLo(keys, i, lo), KidHi(keys, i, hi), h)
    ensures Wf(s, NodeT(id, keys, kids), lo, hi, h + 1)
  {
    hide KeysOk, KidLo, KidHi;
  }

  /** Stepping down to child `i` of a sound node. */
  lemma {:induction false} StepDown(s: Schema, c: Ctx, t: Tree, h: nat, i: nat)
    requires t.NodeT? && CtxWf(s, c, h) && Wf(s, t, Lo(c), Hi(c), h) && i < |t.kids|
    ensures h > 0 && |t.kids| == |t.keys| + 1
    ensures var c' := Down(c, t.id, t.keys, t.kids[..i], t.kids[i + 1..]);
      CtxWf(s, c', h - 1) && Wf(s, t.kids[i], Lo(c'), Hi(c'), h - 1) && Plug(c', t.kids[i]) == Plug(c, t)
      && Lo(c') == KidLo(t.keys, i, Lo(c)) && Hi(c') == KidHi(t.keys, i, Hi(c))
  {
    hide KeysOk, Wf, KidLo, KidHi, CtxWf, SidesOk, Lo, Hi, Plug;
    KidsWf(s, t, Lo(c), Hi(c), h);
    SidesAround(s, t.keys, t.kids, Lo(c), Hi(c), h - 1, i);
    StepBounds(c, t, i);
    PlugDown(c, t, i);
    CtxDown(s, c, t.id, t.keys, t.kids[..i], t.kids[i + 1..], h - 1);
  }

  lemma {:induction false} PlugDown(c: Ctx, t: Tree, i: nat)
    requires t.NodeT? && i < |t.kids|
    ensures Plug(Down(c, t.id, t.keys, t.kids[..i], t.kids[i + 1..]), t.kids[i]) == Plug(c, t)
  {
    assert t.kids[..i] + [t.kids[i]] + t.kids[i + 1..] == t.kids;
  }

  lemma {:induction false} CtxDown(s: Schema, c: Ctx, id: PageId, keys: seq<Key>, left: seq<Tree>, right: seq<Tree>,
                                   h: nat)
    requires CtxWf(s, c, h + 1) && KeysOk(s, keys, Lo(c), Hi(c)) && |left| + |right| == |keys|
    requires SidesOk(s, keys, left, right, Lo(c), Hi(c), h)
    ensures CtxWf(s, Down(c, id, keys, left, right), h)
  {
    hide KeysOk, SidesOk, Lo, Hi;
  }

  lemma {:induction false} KidsWf(s: Schema, t: Tree, lo: Option<Key>, hi: Option<Key>, h: nat)
    requires t.NodeT? && Wf(s, t, lo, hi, h)
    ensures h > 0 && |t.kids| == |t.keys| + 1 && KeysOk(s, t.keys, lo, hi)
    ensures forall i :: 0 <= i < |t.kids| ==> Wf(s, t.kids[i], KidLo(t.keys, i, lo), KidHi(t.keys, i, hi), h - 1)
  {
    hide KeysOk, KidLo, KidHi;
  }

  /** The children beside one of them are in order. */
  lemma {:induction false} SidesAround(s: Schema, keys: seq<Key>, kids: seq<Tree>, lo: Option<Key>, hi: Option<Key>,
                                       h: nat, i: nat)
    requires |kids| == |keys| + 1 && i < |kids|
    requires forall j :: 0 <= j < |kids| ==> Wf(s, kids[j], KidLo(keys, j, lo), KidHi(keys, j, hi), h)
    ensures SidesOk(s, keys, kids[..i], kids[i + 1..], lo, hi, h)
  {
    hide Wf, KidLo, KidHi;
    var right := kids[i + 1..];
    forall j | 0 <= j < |right|
      ensures Wf(s, right[j], KidLo(keys, i + 1 + j, lo), KidHi(keys, i + 1 + j, hi), h)
    {
      assert right[j] == kids[i + 1 + j];
    }
  }

  lemma {:induction false} StepBounds(c: Ctx, t: Tree, i: nat)
    requires t.NodeT? && |t.kids| == |t.keys| + 1 && i < |t.kids|
    ensures var c' := Down(c, t.id, t.keys, t.kids[..i], t.kids[i + 1..]);
      Lo(c') == KidLo(t.keys, i, Lo(c)) && Hi(c') == KidHi(t.keys, i, Hi(c))
  {
  }

  // --------------------------------------------------------------------- contents

  /** The leaves below a tree, in key order. */
  function Leaves(t: Tree): (ls: seq<Tree>)
    ensures forall i :: 0 <= i < |ls| ==> ls[i].LeafT?
    decreases t
  {
    if t.LeafT? then [t] else LeavesOf(t.kids)
  }

  function LeavesOf(ts: seq<Tree>): (ls: seq<Tree>)
    ensures forall i :: 0 <= i < |ls| ==> ls[i].LeafT?
    decreases ts
  {
    if ts == [] then [] else Leaves(ts[0]) + LeavesOf(ts[1..])
  }

  lemma {:induction false} LeavesOfAppend(a: seq<Tree>, b: seq<Tree>)
    ensures LeavesOf(a + b) == LeavesOf(a) + LeavesOf(b)
  {
    if a == [] {
      assert a + b == b;
    } else {
      assert (a + b)[1..] == a[1..] + b;
      LeavesOfAppend(a[1..], b);
    }
  }

  lemma {:induction false} LeavesOfMiddle(a: seq<Tree>, t: Tree, b: seq<Tree>)
    ensures LeavesOf(a + [t] + b) == LeavesOf(a) + Leaves(t) + LeavesOf(b)
  {
    hide LeavesOf, Leaves;
    LeavesOfAppend(a + [t], b);
    LeavesOfAppend(a, [t]);
    LeavesOfOne(t);
  }

  lemma {:induction false} LeavesOfOne(t: Tree)
    ensures LeavesOf([t]) == Leaves(t)
  {
    hide Leaves;
    assert [t][1..] == [];
    assert LeavesOf([]) == [];
  }

  function LeavesBefore(c: Ctx): seq<Tree> {
    if c.Top? then [] else LeavesBefore(c.up) + LeavesOf(c.left)
  }

  function LeavesAfter(c: Ctx): seq<Tree> {
    if c.Top? then [] else LeavesOf(c.right) + LeavesAfter(c.up)
  }

  lemma {:induction false} PlugLeaves(c: Ctx, t: Tree)
    ensures Leaves(Plug(c, t)) == LeavesBefore(c) + Leaves(t) + LeavesAfter(c)
    decreases c
  {
    if c.Down? {
      var n := NodeT(c.id, c.keys, c.left + [t] + c.right);
      PlugLeaves(c.up, n);
      NodeLeavesAre(c, t);
      hide Leaves, LeavesOf, Plug;
      AroundAround(LeavesBefore(c.up), LeavesOf(c.left), Leaves(t), LeavesOf(c.right), LeavesAfter(c.up));
    }
  }

  lemma {:induction false} NodeLeavesAre(c: Ctx, t: Tree)
    requires c.Down?
    ensures Leaves(NodeT(c.id, c.keys, c.left + [t] + c.right)) == LeavesOf(c.left) + Leaves(t) + LeavesOf(c.right)
    ensures LeavesBefore(c) == LeavesBefore(c.up) + LeavesOf(c.left)
    ensures LeavesAfter(c) == LeavesOf(c.right) + LeavesAfter(c.up)
    ensures Plug(c, t) == Plug(c.up, NodeT(c.id, c.keys, c.left + [t] + c.right))
  {
    LeavesOfMiddle(c.left, t, c.right);
    hide LeavesOf;
  }

  lemma {:induction false} AroundAround<T>(a: seq<T>, b: seq<T>, c: seq<T>, d: seq<T>, e: seq<T>)
    ensures a + (b + c + d) + e == (a + b) + c + (d + e)
  {
  }

  /** All rows of a list of leaves, in order. */
  function RowsOf(ls: seq<Tree>): seq<Row> {
    if ls == [] then []
    else (if ls[0].LeafT? then ls[0].rows else []) + RowsOf(ls[1..])
  }

  lemma {:induction false} RowsOfAppend(a: seq<Tree>, b: seq<Tree>)
    ensures RowsOf(a + b) == RowsOf(a) + RowsOf(b)
  {
    if a == [] {
      assert a + b == b;
    } else {
      assert (a + b)[1..] == a[1..] + b;
      RowsOfAppend(a[1..], b);
    }
  }

  function Rows(t: Tree): seq<Row> { RowsOf(Leaves(t)) }

  // ------------------------------------------------------------------------ pages

  /** Every page of a tree, counted as often as it occurs. */
  function Ids(t: Tree): multiset<PageId>
    decreases t
  {
    if t.LeafT? then multiset{t.id} else multiset{t.id} + IdsOf(t.kids)
  }

  function IdsOf(ts: seq<Tree>): multiset<PageId>
    decreases ts
  {
    if ts == [] then multiset{} else Ids(ts[0]) + IdsOf(ts[1..])
  }

  lemma {:induction false} IdsOfAppend(a: seq<Tree>, b: seq<Tree>)
    ensures IdsOf(a + b) == IdsOf(a) + IdsOf(b)
  {
    if a == [] {
      assert a + b == b;
    } else {
      assert (a + b)[1..] == a[1..] + b;
      IdsOfAppend(a[1..], b);
    }
  }

  lemma {:induction false} IdsOfMiddle(a: seq<Tree>, t: Tree, b: seq<Tree>)
    ensures IdsOf(a + [t] + b) == IdsOf(a) + Ids(t) + IdsOf(b)
  {
    IdsOfAppend(a + [t], b);
    IdsOfAppend(a, [t]);
    assert [t][1..] == [];
    assert IdsOf([t]) == Ids(t) + IdsOf([]);
  }

  function CtxIds(c: Ctx): multiset<PageId> {
    if c.Top? then multiset{} else CtxIds(c.up) + multiset{c.id} + IdsOf(c.left) + IdsOf(c.right)
  }

  lemma {:induction false} PlugIds(c: Ctx, t: Tree)
    ensures Ids(Plug(c, t)) == CtxIds(c) + Ids(t)
    decreases c
  {
    if c.Down? {
      PlugIds(c.up, NodeT(c.id, c.keys, c.left + [t] + c.right));
      IdsOfMiddle(c.left, t, c.right);
    }
  }

  // ------------------------------------------------------------ at least one key

  /** Every internal page has at least one key, so every page but the root has a sibling. */
  ghost predicate Keyed(t: Tree)
    decreases t
  {
    t.NodeT? ==> |t.keys| >= 1 && forall i :: 0 <= i < |t.kids| ==> Keyed(t.kids[i])
  }

  ghost predicate KeyedAll(ts: seq<Tree>) {
    forall i :: 0 <= i < |ts| ==> Keyed(ts[i])
  }

  ghost predicate KeyedCtx(c: Ctx) {
    c.Down? ==> |c.keys| >= 1 && KeyedAll(c.left) && KeyedAll(c.right) && KeyedCtx(c.up)
  }

  lemma {:induction false} KeyedPlug(c: Ctx, t: Tree)
    requires KeyedCtx(c) && Keyed(t)
    ensures Keyed(Plug(c, t))
    decreases c
  {
    if c.Down? {
      var n := NodeT(c.id, c.keys, c.left + [t] + c.right);
      assert KeyedAll(n.kids);
      KeyedPlug(c.up, n);
    }
  }
}

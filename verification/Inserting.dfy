/** Steps of `BTree::insert` and `split_and_insert` (`src/btree/tree.rs`) as changes to the tree. */
module Inserting {
  import opened Common
  import opened Schemas
  import opened Pages
  import opened Trees
  import opened Stores
  import opened Focus
  import opened Contents
  import opened Chains
  import opened Splitting

  /** No page occurs twice. */
  ghost predicate Distinct(ids: multiset<PageId>) {
    forall id :: id in ids ==> ids[id] == 1
  }

  /** New rows for the leaf in focus. */
  lemma {:induction false} ReplaceLeaf(s: Schema, pages: Store, c: Ctx, t: Tree, h: nat, rows: seq<Row>, p: Page)
    requires Shape(s, pages, c, t, h) && t.LeafT? && Distinct(CtxIds(c) + Ids(t))
    requires LeafOk(s, rows, Lo(c), Hi(c)) && t.id in pages && pages[t.id].body.Leaf?
    requires p == pages[t.id].(body := pages[t.id].body.(records := rows))
    ensures Shape(s, pages[t.id := p], c, LeafT(t.id, rows), h)
  {
    hide CtxWf, RepCtx, LeafOk, CtxIds;
    var pages' := pages[t.id := p];
    assert (CtxIds(c) + Ids(t))[t.id] == CtxIds(c)[t.id] + 1;
    RepCtxFrame(pages, pages', c, t.id);
    var ls, ls' := AllLeaves(c, t), AllLeaves(c, LeafT(t.id, rows));
    assert RootIds(ls) == RootIds(ls');
    forall i | 0 <= i < |ls|
      ensures SameLinks(pages, pages', ls[i].id)
    {
      assert Linked(pages, ls, i);
    }
    ChainFrame(pages, pages', ls, ls');
  }

  // ---------------------------------------------------------------- a split in progress

  function PairLeaves(c: Ctx, l: Tree, r: Tree): seq<Tree> {
    LeavesBefore(c) + (Leaves(l) + Leaves(r)) + LeavesAfter(c)
  }

  /** The hole of `c` has been split into `l` and `r`; `sep` and `r` still have to be entered in the
      page above. */
  ghost predicate Pending(s: Schema, pages: Store, c: Ctx, l: Tree, sep: Key, r: Tree, h: nat) {
    && CtxWf(s, c, h)
    && Wf(s, l, Lo(c), Some(sep), h) && Wf(s, r, Some(sep), Hi(c), h)
    && ValidKey(s, sep) && Above(Lo(c), sep) && Below(sep, Hi(c))
    && RepCtx(pages, c, l.id) && RepT(pages, l) && RepT(pages, r)
    && Chain(pages, PairLeaves(c, l, r))
  }

  /** The leaf that follows `p` gets `p` as its left neighbour. */
  function RelinkNext(pages: Store, p: Page): Store {
    if p.body.Leaf? && p.body.next.Some? && p.body.next.value in pages && pages[p.body.next.value].body.Leaf?
    then
      var n := p.body.next.value;
      pages[n := pages[n].(body := pages[n].body.(prev := Some(p.id)))]
    else pages
  }

  lemma {:induction false} Neighbours(pages: Store, a: seq<Tree>, t: Tree, b: seq<Tree>)
    requires Chain(pages, a + [t] + b)
    ensures Links(pages, t.id, IdAt(a, |a| - 1), IdAt(b, 0))
    ensures b != [] ==> Links(pages, b[0].id, Some(t.id), IdAt(b, 1))
    ensures forall i :: 0 <= i < |a| ==> SameLinks(pages, pages, a[i].id)
    ensures forall i :: 0 <= i < |b| ==> SameLinks(pages, pages, b[i].id)
  {
    var ls := a + [t] + b;
    assert Linked(pages, ls, |a|);
    if b != [] {
      assert ls[|a| + 1] == b[0];
      assert Linked(pages, ls, |a| + 1);
      assert IdAt(ls, |a| + 2) == IdAt(b, 1);
    }
    forall i | 0 <= i < |a|
      ensures SameLinks(pages, pages, a[i].id)
    {
      assert Linked(pages, ls, i);
    }
    forall i | 0 <= i < |b|
      ensures SameLinks(pages, pages, b[i].id)
    {
      assert Linked(pages, ls, |a| + 1 + i);
    }
  }

  lemma {:induction false} DistinctAround(a: seq<Tree>, t: Tree, b: seq<Tree>)
    requires DistinctIds(a + [t] + b)
    ensures forall i :: 0 <= i < |a| ==> a[i].id != t.id && (b != [] ==> a[i].id != b[0].id)
    ensures forall i :: 0 <= i < |b| ==> b[i].id != t.id && (0 < i ==> b[i].id != b[0].id)
  {
    var ls := a + [t] + b;
    forall i | 0 <= i < |a|
      ensures a[i].id != t.id && (b != [] ==> a[i].id != b[0].id)
    {
      assert ls[i] == a[i] && ls[|a|] == t;
      assert b != [] ==> ls[|a| + 1] == b[0];
    }
    forall i | 0 <= i < |b|
      ensures b[i].id != t.id && (0 < i ==> b[i].id != b[0].id)
    {
      assert ls[|a| + 1 + i] == b[i] && ls[|a|] == t && ls[|a| + 1] == b[0];
    }
  }

  /** The chain after leaf `t` got a new right neighbour. */
  lemma {:induction false} SplitChain(pages: Store, a: seq<Tree>, t: Tree, b: seq<Tree>, l: Page, r: Page, lt: Tree,
                                      rt: Tree)
    requires Chain(pages, a + [t] + b) && DistinctIds(a + [t] + b) && t.id in pages && pages[t.id].body.Leaf?
    requires r.id != t.id && (forall i :: 0 <= i < |a| ==> a[i].id != r.id)
    requires (forall i :: 0 <= i < |b| ==> b[i].id != r.id)
    requires l.id == t.id && l.body.Leaf? && l.body.next == Some(r.id) && l.body.prev == pages[t.id].body.prev
    requires r.body.Leaf? && r.body.next == pages[t.id].body.next && r.body.prev == Some(t.id)
    requires lt.id == t.id && rt.id == r.id
    ensures Chain(RelinkNext(pages[t.id := l][r.id := r], r), a + [lt, rt] + b)
  {
    hide Chain, DistinctIds;
    Neighbours(pages, a, t, b);
    DistinctAround(a, t, b);
    var pages3 := RelinkNext(pages[t.id := l][r.id := r], r);
    ChainSplit(pages, pages3, a, t, lt, rt, b);
  }

  /** Splitting the leaf in focus, before the new row goes in. */
  lemma {:induction false} SplitLeaf(s: Schema, pages: Store, c: Ctx, t: Tree, h: nat, at: nat, l: Page, r: Page)
    requires Shape(s, pages, c, t, h) && t.LeafT? && 0 < at < |t.rows| && t.id in pages && pages[t.id].body.Leaf?
    requires r.id !in CtxIds(c) + Ids(t) && Distinct(CtxIds(c) + Ids(t))
    requires l == pages[t.id].(body := Leaf(t.rows[..at], Some(r.id), pages[t.id].body.prev)) && l.id == t.id
    requires r.body == Leaf(t.rows[at..], pages[t.id].body.next, Some(t.id))
    ensures Pending(s, RelinkNext(pages[t.id := l][r.id := r], r), c,
                    LeafT(t.id, t.rows[..at]), RowKey(t.rows[at]), LeafT(r.id, t.rows[at..]), h)
  {
    hide RepT, CtxWf, RepCtx, LeafOk, CtxIds, Lo, Hi, Chain, ValidKey, AllLeaves, PairLeaves, RelinkNext;
    LeafPartOk(s, t.rows, Lo(c), Hi(c), at);
    FocusSplitChain(pages, c, t, l, r, LeafT(t.id, t.rows[..at]), LeafT(r.id, t.rows[at..]));
    SplitLeafRep(pages, c, t, l, r, at);
  }

  lemma {:induction false} SplitLeafRep(pages: Store, c: Ctx, t: Tree, l: Page, r: Page, at: nat)
    requires RepCtx(pages, c, t.id) && RepT(pages, t) && Chain(pages, AllLeaves(c, t))
    requires t.LeafT? && 0 < at < |t.rows|
    requires r.id !in CtxIds(c) + Ids(t) && Distinct(CtxIds(c) + Ids(t))
    requires l == pages[t.id].(body := Leaf(t.rows[..at], Some(r.id), pages[t.id].body.prev))
    requires r.body == Leaf(t.rows[at..], pages[t.id].body.next, Some(t.id))
    ensures var pages3 := RelinkNext(pages[t.id := l][r.id := r], r);
      RepCtx(pages3, c, t.id) && RepT(pages3, LeafT(t.id, t.rows[..at])) && RepT(pages3, LeafT(r.id, t.rows[at..]))
  {
    hide RepCtx, CtxIds, Chain, AllLeaves;
    var pages3 := RelinkNext(pages[t.id := l][r.id := r], r);
    NextIsElsewhere(pages, c, t);
    assert (CtxIds(c) + Ids(t))[t.id] == CtxIds(c)[t.id] + 1;
    RepCtxFrame(pages, pages3, c, t.id);
  }

  lemma {:induction false} FocusSplitChain(pages: Store, c: Ctx, t: Tree, l: Page, r: Page, lt: Tree, rt: Tree)
    requires t.LeafT? && Chain(pages, AllLeaves(c, t)) && t.id in pages && pages[t.id].body.Leaf?
    requires r.id !in CtxIds(c) + Ids(t) && Distinct(CtxIds(c) + Ids(t))
    requires l.id == t.id && l.body.Leaf? && l.body.next == Some(r.id) && l.body.prev == pages[t.id].body.prev
    requires r.body.Leaf? && r.body.next == pages[t.id].body.next && r.body.prev == Some(t.id)
    requires lt.LeafT? && rt.LeafT? && lt.id == t.id && rt.id == r.id
    ensures Chain(RelinkNext(pages[t.id := l][r.id := r], r), PairLeaves(c, lt, rt))
  {
    hide LeavesBefore, LeavesAfter, Chain, CtxIds;
    var a, b := LeavesBefore(c), LeavesAfter(c);
    LeavesDistinct(c, t);
    assert AllLeaves(c, t) == a + [t] + b;
    forall i | 0 <= i < |a|
      ensures a[i].id != r.id
    {
      LeafIdInCtx(c, a[i]);
    }
    forall i | 0 <= i < |b|
      ensures b[i].id != r.id
    {
      LeafIdInCtx(c, b[i]);
    }
    SplitChain(pages, a, t, b, l, r, lt, rt);
    assert PairLeaves(c, lt, rt) == a + [lt, rt] + b;
  }

  lemma {:induction false} NextIsElsewhere(pages: Store, c: Ctx, t: Tree)
    requires t.LeafT? && Chain(pages, AllLeaves(c, t)) && Distinct(CtxIds(c) + Ids(t))
    requires t.id in pages && pages[t.id].body.Leaf?
    ensures pages[t.id].body.next.Some? ==>
      var n := pages[t.id].body.next.value;
      n in CtxIds(c) && n != t.id && n in pages && pages[n].body.Leaf? && pages[n].id == n
  {
    hide LeavesBefore, LeavesAfter, Chain, CtxIds;
    assert AllLeaves(c, t) == LeavesBefore(c) + [t] + LeavesAfter(c);
    Neighbours(pages, LeavesBefore(c), t, LeavesAfter(c));
    if LeavesAfter(c) != [] {
      var n := LeavesAfter(c)[0];
      LeafIdInCtx(c, n);
      assert (CtxIds(c) + Ids(t))[n.id] == CtxIds(c)[n.id] + Ids(t)[n.id];
    }
  }

  /** New rows for one of the two leaves of a split in progress. */
  lemma {:induction false} PendingLeaf(s: Schema, pages: Store, c: Ctx, l: Tree, sep: Key, r: Tree, h: nat, left: bool,
                                       rows: seq<Row>, p: Page)
    requires Pending(s, pages, c, l, sep, r, h) && l.LeafT? && r.LeafT?
    requires Distinct(CtxIds(c) + Ids(l) + Ids(r))
    requires var x := if left then l else r;
      && LeafOk(s, rows, if left then Lo(c) else Some(sep), if left then Some(sep) else Hi(c))
      && x.id in pages && pages[x.id].body.Leaf? && p == pages[x.id].(body := pages[x.id].body.(records := rows))
    ensures Pending(s, pages[(if left then l else r).id := p], c,
                    if left then LeafT(l.id, rows) else l, sep, if left then r else LeafT(r.id, rows), h)
  {
    hide CtxWf, RepCtx, LeafOk, CtxIds, ValidKey, Lo, Hi;
    var x := if left then l else r;
    var pages' := pages[x.id := p];
    var ids := CtxIds(c) + Ids(l) + Ids(r);
    assert ids[l.id] == CtxIds(c)[l.id] + 1 + Ids(r)[l.id];
    assert ids[r.id] == CtxIds(c)[r.id] + Ids(l)[r.id] + 1;
    RepCtxFrame(pages, pages', c, l.id);
    var l', r' := if left then LeafT(l.id, rows) else l, if left then r else LeafT(r.id, rows);
    var ls, ls' := PairLeaves(c, l, r), PairLeaves(c, l', r');
    assert RootIds(ls) == RootIds(ls');
    forall i | 0 <= i < |ls|
      ensures SameLinks(pages, pages', ls[i].id)
    {
      assert Linked(pages, ls, i);
    }
    ChainFrame(pages, pages', ls, ls');
  }

  // ------------------------------------------------------- entering the separator above

  /** Pages outside the tree may change freely. */
  lemma {:induction false} PendingFrame(s: Schema, pages: Store, pages': Store, c: Ctx, l: Tree, sep: Key, r: Tree,
                                        h: nat)
    requires Pending(s, pages, c, l, sep, r, h)
    requires forall id :: id in CtxIds(c) + Ids(l) + Ids(r) && id in pages ==> id in pages' && pages'[id] == pages[id]
    ensures Pending(s, pages', c, l, sep, r, h)
  {
    hide Wf, CtxWf, RepT, RepCtx, CtxIds, Ids, ValidKey, Lo, Hi, PairLeaves;
    RepCtxFrame(pages, pages', c, l.id);
    RepFrame(pages, pages', l);
    RepFrame(pages, pages', r);
    var ls := PairLeaves(c, l, r);
    forall i | 0 <= i < |ls|
      ensures Linked(pages', ls, i)
    {
      assert Linked(pages, ls, i);
      LeafIdInPair(c, l, r, ls[i]);
    }
  }

  lemma {:induction false} LeafIdInPair(c: Ctx, l: Tree, r: Tree, x: Tree)
    requires x in PairLeaves(c, l, r)
    ensures x.id in CtxIds(c) + Ids(l) + Ids(r)
  {
    if x in Leaves(l) {
      LeafIdIn(l, x);
    } else if x in Leaves(r) {
      LeafIdIn(r, x);
    } else {
      LeafIdInCtx(c, x);
    }
  }

  lemma {:induction false} LeavesOfTwo(l: Tree, r: Tree)
    ensures LeavesOf([l, r]) == Leaves(l) + Leaves(r) && IdsOf([l, r]) == Ids(l) + Ids(r)
  {
    hide Leaves, Ids;
    assert [l, r][1..] == [r] && [r][1..] == [];
    assert LeavesOf([r]) == Leaves(r) + LeavesOf([]) && IdsOf([r]) == Ids(r) + IdsOf([]);
    assert LeavesOf([]) == [] && IdsOf([]) == multiset{};
  }

  /** The root itself was split: a new root over the two halves. */
  lemma {:induction false} PendingTop(s: Schema, pages: Store, l: Tree, sep: Key, r: Tree, h: nat, p: Page)
    requires Pending(s, pages, Top, l, sep, r, h)
    requires p.id !in Ids(l) + Ids(r) && p.body == Internal([sep], [l.id, r.id])
    ensures Shape(s, pages[p.id := p], Top, NodeT(p.id, [sep], [l, r]), h + 1)
    ensures AllLeaves(Top, NodeT(p.id, [sep], [l, r])) == PairLeaves(Top, l, r)
    ensures Ids(NodeT(p.id, [sep], [l, r])) == Ids(l) + Ids(r) + multiset{p.id}
  {
    hide Wf, RepT, Chain, Leaves, Ids;
    var t := NodeT(p.id, [sep], [l, r]);
    PendingFrame(s, pages, pages[p.id := p], Top, l, sep, r, h);
    LeavesOfTwo(l, r);
    NodeIds(t);
    NodeLeaves(t);
    RootIsSound(s, p.id, l, sep, r, h);
    RootIsSpelled(pages[p.id := p], p.id, l, sep, r);
  }

  lemma {:induction false} NodeIds(t: Tree)
    requires t.NodeT?
    ensures Ids(t) == multiset{t.id} + IdsOf(t.kids)
  {
  }

  lemma {:induction false} NodeLeaves(t: Tree)
    requires t.NodeT?
    ensures Leaves(t) == LeavesOf(t.kids)
  {
  }

  lemma {:induction false} RootIsSound(s: Schema, id: PageId, l: Tree, sep: Key, r: Tree, h: nat)
    requires Wf(s, l, None, Some(sep), h) && Wf(s, r, Some(sep), None, h) && ValidKey(s, sep)
    ensures Wf(s, NodeT(id, [sep], [l, r]), None, None, h + 1)
  {
    assert KeysOk(s, [sep], None, None) by {
      KeyBytesOne(sep);
    }
    hide KeysOk, ValidKey;
    KidsAllOk(s, id, [sep], [l, r], None, None, h, -1);
  }

  lemma {:induction false} RootIsSpelled(pages: Store, id: PageId, l: Tree, sep: Key, r: Tree)
    requires RepT(pages, l) && RepT(pages, r)
    requires id in pages && pages[id].id == id && pages[id].body == Internal([sep], [l.id, r.id])
    ensures RepT(pages, NodeT(id, [sep], [l, r]))
  {
    assert RootIds([l, r]) == [l.id, r.id];
  }

  /** The page-level effect of entering (sep, r) after child `i`. */
  lemma {:induction false} InsertKidPage(s: Schema, p: Page, id: PageId, keys: seq<Key>, kids: seq<Tree>, i: nat,
                                         l: Tree, sep: Key, r: Tree,
                      lo: Option<Key>, hi: Option<Key>)
    requires i <= |keys| && |kids| == |keys| + 1 && p.body == Internal(keys, RootIds(kids)) && kids[i].id == l.id
    requires Sorted(keys) && ValidKey(s, sep)
    requires Above(KidLo(keys, i, lo), sep) && Below(sep, KidHi(keys, i, hi))
    requires KeyBytes(keys) + InternalEntrySize(sep) <= INTERNAL_USABLE
    ensures var t := WithKid(id, keys, kids, i, l, sep, r);
      InternalInsert(p, sep, r.id) == Ok(p.(body := Internal(t.keys, RootIds(t.kids))))
  {
    SearchGap(keys, sep, i, lo, hi);
    hide Search, Sorted, KidLo, KidHi, KeyBytes;
    var t := WithKid(id, keys, kids, i, l, sep, r);
    assert RootIds(t.kids) == RootIds(kids)[..i + 1] + [r.id] + RootIds(kids)[i + 1..];
  }

  /** The children of a page once a split below it is entered. */
  function Pairs(c: Ctx, l: Tree, r: Tree): seq<Tree>
    requires c.Down?
  {
    c.left + [l, r] + c.right
  }

  lemma {:induction false} PairsLeaves(c: Ctx, l: Tree, r: Tree)
    requires c.Down?
    ensures LeavesBefore(c.up) + LeavesOf(Pairs(c, l, r)) + LeavesAfter(c.up) == PairLeaves(c, l, r)
    ensures CtxIds(c.up) + multiset{c.id} + IdsOf(Pairs(c, l, r)) == CtxIds(c) + Ids(l) + Ids(r)
  {
    LeavesOfTwo(l, r);
    LeavesOfAppend(c.left + [l, r], c.right);
    LeavesOfAppend(c.left, [l, r]);
    IdsOfAppend(c.left + [l, r], c.right);
    IdsOfAppend(c.left, [l, r]);
    Regroup(LeavesBefore(c.up), LeavesOf(c.left), Leaves(l) + Leaves(r), LeavesOf(c.right), LeavesAfter(c.up));
  }

  /** What a pending split means for the page above: a gap at position |left|, all children but the
      split one in place. */
  lemma {:induction false} PendingGap(s: Schema, c: Ctx, l: Tree, sep: Key, r: Tree, h: nat)
    requires c.Down? && CtxWf(s, c, h) && Above(Lo(c), sep) && Below(sep, Hi(c))
    ensures KeysOk(s, c.keys, Lo(c.up), Hi(c.up)) && CtxWf(s, c.up, h + 1)
    ensures |c.left| <= |c.keys| && |c.left + [l] + c.right| == |c.keys| + 1
    ensures Lo(c) == KidLo(c.keys, |c.left|, Lo(c.up)) && Hi(c) == KidHi(c.keys, |c.left|, Hi(c.up))
    ensures KidsBut(s, c.keys, c.left + [l] + c.right, Lo(c.up), Hi(c.up), h, |c.left|)
  {
    hide KeysOk, Wf;
    var kids := c.left + [l] + c.right;
    forall j | 0 <= j < |kids| && j != |c.left|
      ensures Wf(s, kids[j], KidLo(c.keys, j, Lo(c.up)), KidHi(c.keys, j, Hi(c.up)), h)
    {
      if j > |c.left| {
        assert kids[j] == c.right[j - |c.left| - 1];
      }
    }
  }

  /** All children of the page above, each spelled out. */
  lemma {:induction false} PendingRep(pages: Store, c: Ctx, l: Tree, r: Tree)
    requires c.Down? && RepCtx(pages, c, l.id) && RepT(pages, l) && RepT(pages, r)
    ensures RepAll(pages, Pairs(c, l, r)) && RepCtx(pages, c.up, c.id)
    ensures c.id in pages && pages[c.id].id == c.id
    ensures pages[c.id].body == Internal(c.keys, RootIds(c.left + [l] + c.right))
  {
    hide RepT, RepAll, RootIds;
    RootIdsMiddle(c.left, l, c.right);
    RepAllPair(pages, l, r);
    RepAllAppend(pages, c.left, [l, r]);
    RepAllAppend(pages, c.left + [l, r], c.right);
  }

  lemma {:induction false} RepAllPair(pages: Store, l: Tree, r: Tree)
    requires RepT(pages, l) && RepT(pages, r)
    ensures RepAll(pages, [l, r])
  {
  }

  lemma {:induction false} RepAllAppend(pages: Store, a: seq<Tree>, b: seq<Tree>)
    requires RepAll(pages, a) && RepAll(pages, b)
    ensures RepAll(pages, a + b)
  {
    hide RepT;
  }

  lemma {:induction false} NodeRep(pages: Store, id: PageId, keys: seq<Key>, kids: seq<Tree>)
    requires RepAll(pages, kids) && id in pages && pages[id].id == id && pages[id].body == Internal(keys, RootIds(kids))
    ensures RepT(pages, NodeT(id, keys, kids))
  {
  }

  /** The separator fits into the page above: the split ends there. */
  lemma {:induction false} PendingInsert(s: Schema, pages: Store, c: Ctx, l: Tree, sep: Key, r: Tree, h: nat)
    requires c.Down? && Pending(s, pages, c, l, sep, r, h) && Distinct(CtxIds(c) + Ids(l) + Ids(r))
    requires KeyBytes(c.keys) + InternalEntrySize(sep) <= INTERNAL_USABLE
    ensures |c.left + [l] + c.right| == |c.keys| + 1 && |c.left| <= |c.keys| && c.id in pages
    ensures InternalInsert(pages[c.id], sep, r.id).Ok?
    ensures var t := WithKid(c.id, c.keys, c.left + [l] + c.right, |c.left|, l, sep, r);
      && Shape(s, pages[c.id := InternalInsert(pages[c.id], sep, r.id).value], c.up, t, h + 1)
      && AllLeaves(c.up, t) == PairLeaves(c, l, r)
      && CtxIds(c.up) + Ids(t) == CtxIds(c) + Ids(l) + Ids(r)
  {
    hide Wf, RepT, Chain, Leaves, Ids, ValidKey, KeyBytes, InternalEntrySize, InternalInsert, PairLeaves, AllLeaves;
    hide CtxWf, RepCtx, LeavesOf, IdsOf, CtxIds, KidsBut, RepAll, Lo, Hi, KidLo, KidHi, Above, Below, LeavesBefore;
    hide LeavesAfter;
    var i, kids := |c.left|, c.left + [l] + c.right;
    PendingGap(s, c, l, sep, r, h);
    PendingRep(pages, c, l, r);
    PairsLeaves(c, l, r);
    var t := WithKid(c.id, c.keys, kids, i, l, sep, r);
    assert t.kids == Pairs(c, l, r);
    WithKidOk(s, c.id, c.keys, kids, i, l, sep, r, Lo(c.up), Hi(c.up), h);
    InsertKidPage(s, pages[c.id], c.id, c.keys, kids, i, l, sep, r, Lo(c.up), Hi(c.up));
    NodeIds(t);
    NodeLeaves(t);
    assert CtxIds(c.up) + Ids(t) == CtxIds(c) + Ids(l) + Ids(r);
    AllLeavesAre(c.up, t);
    assert AllLeaves(c.up, t) == PairLeaves(c, l, r);
    WriteNode(s, pages, c.up, t, h + 1, InternalInsert(pages[c.id], sep, r.id).value);
  }

  lemma {:induction false} AllLeavesAre(c: Ctx, t: Tree)
    ensures AllLeaves(c, t) == LeavesBefore(c) + Leaves(t) + LeavesAfter(c)
  {
  }

  /** Writing the page of the node in focus makes the focus sound, once its children are. */
  lemma {:induction false} WriteNode(s: Schema, pages: Store, c: Ctx, t: Tree, h: nat, p: Page)
    requires t.NodeT? && CtxWf(s, c, h) && Wf(s, t, Lo(c), Hi(c), h)
    requires RepCtx(pages, c, t.id) && RepAll(pages, t.kids) && Chain(pages, AllLeaves(c, t))
    requires Distinct(CtxIds(c) + Ids(t)) && t.id in pages && pages[t.id].body.Internal?
    requires p.id == t.id && p.body == Internal(t.keys, RootIds(t.kids))
    ensures Shape(s, pages[t.id := p], c, t, h)
  {
    hide Wf, CtxWf, RepT, RepAll, RepCtx, CtxIds, IdsOf, Lo, Hi, AllLeaves;
    var pages' := pages[t.id := p];
    var ids := CtxIds(c) + Ids(t);
    assert ids[t.id] == CtxIds(c)[t.id] + 1 + IdsOf(t.kids)[t.id];
    RepCtxFrame(pages, pages', c, t.id);
    RepAllFrame(pages, pages', t.kids);
    NodeRep(pages', t.id, t.keys, t.kids);
    var ls := AllLeaves(c, t);
    forall i | 0 <= i < |ls|
      ensures Linked(pages', ls, i)
    {
      assert Linked(pages, ls, i);
    }
  }

  /** The two halves of the page above, with the pending pair entered in the one it belongs to. */
  function SplitParent(c: Ctx, l: Tree, sep: Key, r: Tree, at: nat, newId: PageId): (Tree, Tree)
    requires c.Down? && |c.left| + |c.right| == |c.keys| && at < |c.keys|
  {
    var i, kids := |c.left|, c.left + [l] + c.right;
    if i <= at then
      (WithKid(c.id, c.keys[..at], kids[..at + 1], i, l, sep, r), NodeT(newId, c.keys[at + 1..], kids[at + 1..]))
    else
      (NodeT(c.id, c.keys[..at], kids[..at + 1]),
       WithKid(newId, c.keys[at + 1..], kids[at + 1..], i - at - 1, l, sep, r))
  }

  lemma {:induction false} SplitParentKids(c: Ctx, l: Tree, sep: Key, r: Tree, at: nat, newId: PageId)
    requires c.Down? && |c.left| + |c.right| == |c.keys| && at < |c.keys|
    ensures var (a, b) := SplitParent(c, l, sep, r, at, newId);
      a.NodeT? && b.NodeT? && a.id == c.id && b.id == newId && a.kids + b.kids == Pairs(c, l, r)
  {
    hide Spliced, WithKid;
    var i, kids := |c.left|, c.left + [l] + c.right;
    if i <= at {
      KidsOfWithKid(c.id, c.keys[..at], kids[..at + 1], i, l, sep, r);
      SpliceLeft(c.left, l, c.right, [l, r], at);
    } else {
      KidsOfWithKid(newId, c.keys[at + 1..], kids[at + 1..], i - at - 1, l, sep, r);
      SpliceRight(c.left, l, c.right, [l, r], at);
    }
  }

  lemma {:induction false} KidsOfWithKid(
    id: PageId, keys: seq<Key>, kids: seq<Tree>, i: nat, l: Tree, sep: Key, r: Tree)
    requires |kids| == |keys| + 1 && i <= |keys|
    ensures var t := WithKid(id, keys, kids, i, l, sep, r); t.NodeT? && t.id == id && t.kids == Spliced(kids, i, [l, r])
  {
  }

  /** `s` with `pair` in the place of the element at `i`. */
  function Spliced<T>(s: seq<T>, i: nat, pair: seq<T>): seq<T>
    requires i < |s|
  {
    s[..i] + pair + s[i + 1..]
  }

  lemma {:induction false} SpliceLeft<T>(left: seq<T>, x: T, right: seq<T>, pair: seq<T>, at: nat)
    requires |left| <= at < |left| + |right|
    ensures
      var kids := left + [x] + right;
      Spliced(kids[..at + 1], |left|, pair) + kids[at + 1..] == left + pair + right
  {
    var i, kids := |left|, left + [x] + right;
    assert kids[..at + 1][..i] == left;
    assert kids[..at + 1][i + 1..] == right[..at - i];
    assert kids[at + 1..] == right[at - i..];
    assert right[..at - i] + right[at - i..] == right;
  }

  lemma {:induction false} SpliceRight<T>(left: seq<T>, x: T, right: seq<T>, pair: seq<T>, at: nat)
    requires at < |left|
    ensures var kids := left + [x] + right;
      kids[..at + 1] + Spliced(kids[at + 1..], |left| - at - 1, pair) == left + pair + right
  {
    var i, kids := |left|, left + [x] + right;
    assert kids[..at + 1] == left[..at + 1];
    assert kids[at + 1..][..i - at - 1] == left[at + 1..];
    assert kids[at + 1..][i - at..] == right;
    assert left[..at + 1] + left[at + 1..] == left;
  }

  /** On which side of the promoted key the pending separator lies. */
  lemma {:induction false} GapSide(keys: seq<Key>, sep: Key, i: nat, at: nat, lo: Option<Key>, hi: Option<Key>)
    requires Sorted(keys) && i <= |keys| && at < |keys|
    requires Above(KidLo(keys, i, lo), sep) && Below(sep, KidHi(keys, i, hi))
    ensures KeyLess(keys[at], sep) <==> at < i
    ensures i <= at ==> KidLo(keys[..at], i, lo) == KidLo(keys, i, lo)
    ensures i <= at ==> KidHi(keys[..at], i, Some(keys[at])) == KidHi(keys, i, hi)
    ensures at < i ==> KidLo(keys[at + 1..], i - at - 1, Some(keys[at])) == KidLo(keys, i, lo)
    ensures at < i ==> KidHi(keys[at + 1..], i - at - 1, hi) == KidHi(keys, i, hi)
  {
  }

  lemma {:induction false} SplitParentWf(s: Schema, c: Ctx, l: Tree, sep: Key, r: Tree, h: nat, at: nat, newId: PageId)
    requires c.Down? && CtxWf(s, c, h) && Above(Lo(c), sep) && Below(sep, Hi(c)) && ValidKey(s, sep)
    requires Wf(s, l, Lo(c), Some(sep), h) && Wf(s, r, Some(sep), Hi(c), h) && at < |c.keys|
    requires KeyBytes(c.keys[..at]) + InternalEntrySize(sep) <= INTERNAL_USABLE
    requires KeyBytes(c.keys[at + 1..]) + InternalEntrySize(sep) <= INTERNAL_USABLE
    ensures |c.left| + |c.right| == |c.keys|
    ensures var (a, b) := SplitParent(c, l, sep, r, at, newId);
      && Wf(s, a, Lo(c.up), Some(c.keys[at]), h + 1) && Wf(s, b, Some(c.keys[at]), Hi(c.up), h + 1)
      && ValidKey(s, c.keys[at]) && Above(Lo(c.up), c.keys[at]) && Below(c.keys[at], Hi(c.up))
  {
    hide Wf, ValidKey, KeyBytes, InternalEntrySize, Lo, Hi, KidLo, KidHi, Above, Below, KidsBut, SidesOk, Sorted;
    var i, kids := |c.left|, c.left + [l] + c.right;
    var lo, hi, k := Lo(c.up), Hi(c.up), c.keys[at];
    PendingGap(s, c, l, sep, r, h);
    GapSide(c.keys, sep, i, at, lo, hi);
    hide CtxWf;
    KeysPartOk(s, c.keys, lo, hi, at);
    KidsPartOk(s, c.keys, kids, lo, hi, h, i, at);
    hide KeysOk;
    if i <= at {
      WithKidOk(s, c.id, c.keys[..at], kids[..at + 1], i, l, sep, r, lo, Some(k), h);
      KidsAllOk(s, newId, c.keys[at + 1..], kids[at + 1..], Some(k), hi, h, i - at - 1);
    } else {
      KidsAllOk(s, c.id, c.keys[..at], kids[..at + 1], lo, Some(k), h, i);
      WithKidOk(s, newId, c.keys[at + 1..], kids[at + 1..], i - at - 1, l, sep, r, Some(k), hi, h);
    }
  }

  /** The pages of the two halves after the split and the insertion. */
  function SplitParentPages(p: Page, newId: PageId, sep: Key, rid: PageId): Result<(Page, Key, Page), PageError> {
    match SplitPage(p, newId)
    case Err(e) => Err(e)
    case Ok((lp, promoted, rp)) =>
      if KeyLess(promoted, sep) then
        match InternalInsert(rp, sep, rid)
        case Err(e) => Err(e)
        case Ok(rp') => Ok((lp, promoted, rp'))
      else
        match InternalInsert(lp, sep, rid)
        case Err(e) => Err(e)
        case Ok(lp') => Ok((lp', promoted, rp))
  }

  lemma {:induction false} RootIdsSlices(kids: seq<Tree>, at: nat)
    requires at < |kids|
    ensures RootIds(kids)[..at + 1] == RootIds(kids[..at + 1]) && RootIds(kids)[at + 1..] == RootIds(kids[at + 1..])
  {
  }

  lemma {:induction false} SplitParentSpelled(s: Schema, p: Page, c: Ctx, l: Tree, sep: Key, r: Tree, h: nat,
                                              newId: PageId)
    requires c.Down? && CtxWf(s, c, h) && Above(Lo(c), sep) && Below(sep, Hi(c)) && ValidKey(s, sep)
    requires p.id == c.id && p.body == Internal(c.keys, RootIds(c.left + [l] + c.right))
    requires 3 <= |c.keys|
    requires var at := SplitOff(KeySizes(c.keys), 2);
      && KeyBytes(c.keys[..at]) + InternalEntrySize(sep) <= INTERNAL_USABLE
      && KeyBytes(c.keys[at + 1..]) + InternalEntrySize(sep) <= INTERNAL_USABLE
    ensures |c.left| + |c.right| == |c.keys|
    ensures var at := SplitOff(KeySizes(c.keys), 2);
      var (a, b) := SplitParent(c, l, sep, r, at, newId);
      SplitParentPages(p, newId, sep, r.id) ==
      Ok((p.(body := Internal(a.keys, RootIds(a.kids))), c.keys[at], Page(newId, 0, Internal(b.keys, RootIds(b.kids)))))
  {
    hide Wf, ValidKey, KeyBytes, InternalEntrySize, KidsBut, SidesOk, RootIds, InternalInsert, SplitOff, KeySizes, Lo;
    hide Hi, KidLo, KidHi, Above, Below, Sorted;
    var at := SplitOff(KeySizes(c.keys), 2);
    var i, kids := |c.left|, c.left + [l] + c.right;
    var lo, hi, k := Lo(c.up), Hi(c.up), c.keys[at];
    PendingGap(s, c, l, sep, r, h);
    GapSide(c.keys, sep, i, at, lo, hi);
    KeysPartOk(s, c.keys, lo, hi, at);
    RootIdsSlices(kids, at);
    assert kids[i] == l;
    if i <= at {
      InsertKidPage(s, p.(body := Internal(c.keys[..at], RootIds(kids[..at + 1]))), c.id, c.keys[..at], kids[..at + 1],
          i, l, sep, r, lo, Some(k));
    } else {
      InsertKidPage(s, Page(newId, 0, Internal(c.keys[at + 1..], RootIds(kids[at + 1..]))), newId, c.keys[at + 1..],
          kids[at + 1..], i - at - 1, l, sep, r, Some(k), hi);
    }
  }

  /** The separator does not fit above: that page splits too, and the split moves up one page. */
  lemma {:induction false} PendingSplit(s: Schema, pages: Store, c: Ctx, l: Tree, sep: Key, r: Tree, h: nat,
                                        newId: PageId)
    requires c.Down? && Pending(s, pages, c, l, sep, r, h) && Distinct(CtxIds(c) + Ids(l) + Ids(r))
    requires newId !in CtxIds(c) + Ids(l) + Ids(r) && newId in pages && pages[newId].body.Free?
    requires KeyBytes(c.keys) + InternalEntrySize(sep) > INTERNAL_USABLE
    ensures |c.left| + |c.right| == |c.keys| && 4 <= |c.keys| && c.id in pages
    ensures SplitParentPages(pages[c.id], newId, sep, r.id).Ok?
    ensures var (lp, promoted, rp) := SplitParentPages(pages[c.id], newId, sep, r.id).value;
      var (a, b) := SplitParent(c, l, sep, r, SplitOff(KeySizes(c.keys), 2), newId);
      && a.id == c.id && b.id == newId && lp.id == c.id && rp.id == newId
      && Pending(s, pages[c.id := lp][newId := rp], c.up, a, promoted, b, h + 1)
      && PairLeaves(c.up, a, b) == PairLeaves(c, l, r)
      && CtxIds(c.up) + Ids(a) + Ids(b) == CtxIds(c) + Ids(l) + Ids(r) + multiset{newId}
  {
    hide Wf, RepT, Chain, Leaves, Ids, ValidKey, KeyBytes, InternalEntrySize, PairLeaves, SplitParentPages, SplitParent;
    hide LeavesOf, IdsOf, CtxIds, KidsBut, RepAll, Lo, Hi, KidLo, KidHi, Above, Below, LeavesBefore, LeavesAfter;
    hide KeySizes, SplitOff;
    PendingGap(s, c, l, sep, r, h);
    PendingRep(pages, c, l, r);
    PairsLeaves(c, l, r);
    InternalSplitRoom(s, c.keys, sep);
    hide CtxWf, RepCtx, KeysOk;
    var at := SplitOff(KeySizes(c.keys), 2);
    SplitParentWf(s, c, l, sep, r, h, at, newId);
    SplitParentSpelled(s, pages[c.id], c, l, sep, r, h, newId);
    SplitParentKids(c, l, sep, r, at, newId);
    var (a, b) := SplitParent(c, l, sep, r, at, newId);
    NodeIds(a);
    NodeIds(b);
    NodeLeaves(a);
    NodeLeaves(b);
    LeavesOfAppend(a.kids, b.kids);
    IdsOfAppend(a.kids, b.kids);
    PairLeavesAre(c.up, a, b);
    var (lp, promoted, rp) := SplitParentPages(pages[c.id], newId, sep, r.id).value;
    RepAllParts(pages, a.kids, b.kids);
    DistinctPlus(CtxIds(c) + Ids(l) + Ids(r), newId);
    assert CtxIds(c.up) + Ids(a) + Ids(b) == CtxIds(c) + Ids(l) + Ids(r) + multiset{newId};
    WritePair(s, pages, c.up, a, promoted, b, h + 1, lp, rp);
  }

  lemma {:induction false} DistinctPlus(ids: multiset<PageId>, x: PageId)
    requires Distinct(ids) && x !in ids
    ensures Distinct(ids + multiset{x})
  {
  }

  lemma {:induction false} PairLeavesAre(c: Ctx, l: Tree, r: Tree)
    ensures PairLeaves(c, l, r) == LeavesBefore(c) + (Leaves(l) + Leaves(r)) + LeavesAfter(c)
  {
  }

  lemma {:induction false} RepAllParts(pages: Store, a: seq<Tree>, b: seq<Tree>)
    requires RepAll(pages, a + b)
    ensures RepAll(pages, a) && RepAll(pages, b)
  {
    hide RepT;
    assert forall i :: 0 <= i < |a| ==> a[i] == (a + b)[i];
    assert forall i :: 0 <= i < |b| ==> b[i] == (a + b)[|a| + i];
  }

  /** Writing the two halves of a split node. */
  lemma {:induction false} WritePair(s: Schema, pages: Store, c: Ctx, a: Tree, sep: Key, b: Tree, h: nat, lp: Page,
                                     rp: Page)
    requires a.NodeT? && b.NodeT? && CtxWf(s, c, h)
    requires Wf(s, a, Lo(c), Some(sep), h) && Wf(s, b, Some(sep), Hi(c), h)
    requires ValidKey(s, sep) && Above(Lo(c), sep) && Below(sep, Hi(c))
    requires RepCtx(pages, c, a.id) && RepAll(pages, a.kids) && RepAll(pages, b.kids)
    requires Chain(pages, PairLeaves(c, a, b))
    requires Distinct(CtxIds(c) + Ids(a) + Ids(b)) && a.id in pages && pages[a.id].body.Internal?
    requires b.id in pages ==> !pages[b.id].body.Leaf?
    requires lp.id == a.id && lp.body == Internal(a.keys, RootIds(a.kids))
    requires rp.id == b.id && rp.body == Internal(b.keys, RootIds(b.kids))
    ensures Pending(s, pages[a.id := lp][b.id := rp], c, a, sep, b, h)
  {
    hide Wf, CtxWf, RepT, RepAll, RepCtx, CtxIds, IdsOf, Lo, Hi, PairLeaves, ValidKey, Above, Below;
    var pages' := pages[a.id := lp][b.id := rp];
    var ids := CtxIds(c) + Ids(a) + Ids(b);
    assert ids[a.id] == CtxIds(c)[a.id] + 1 + IdsOf(a.kids)[a.id] + Ids(b)[a.id];
    assert ids[b.id] == CtxIds(c)[b.id] + 1 + IdsOf(b.kids)[b.id] + Ids(a)[b.id];
    RepCtxFrame(pages, pages', c, a.id);
    RepAllFrame(pages, pages', a.kids);
    RepAllFrame(pages, pages', b.kids);
    NodeRep(pages', a.id, a.keys, a.kids);
    NodeRep(pages', b.id, b.keys, b.kids);
    var ls := PairLeaves(c, a, b);
    forall i | 0 <= i < |ls|
      ensures Linked(pages', ls, i)
    {
      assert Linked(pages, ls, i);
    }
  }

  lemma {:induction false} PairLeafRows(c: Ctx, l: Tree, r: Tree)
    requires l.LeafT? && r.LeafT?
    ensures RowsOf(PairLeaves(c, l, r)) == RowsOf(LeavesBefore(c)) + (l.rows + r.rows) + RowsOf(LeavesAfter(c))
  {
    hide LeavesBefore, LeavesAfter;
    RowsOfAppend(LeavesBefore(c) + (Leaves(l) + Leaves(r)), LeavesAfter(c));
    RowsOfAppend(LeavesBefore(c), Leaves(l) + Leaves(r));
    RowsOfAppend(Leaves(l), Leaves(r));
    LeafRows(l);
    LeafRows(r);
  }
}

/** Steps of `BTree::rebalance` (`src/btree/tree.rs`) as changes to the tree. */
module Rebalancing {
  import opened Common
  import opened Schemas
  import opened Pages
  import opened Trees
  import opened Stores
  import opened Focus
  import opened Contents
  import opened Chains
  import opened Splitting
  import opened Inserting
  import opened Joining

  /** Two neighbouring children `l` and `r` of page `c.id` seen apart from it: everything is in place
      but the contents of that page. */
  ghost predicate Apart(s: Schema, pages: Store, c: Ctx, l: Tree, sep: Key, r: Tree, h: nat) {
    && c.Down? && CtxWf(s, c, h)
    && Wf(s, l, Lo(c), Some(sep), h) && Wf(s, r, Some(sep), Hi(c), h)
    && ValidKey(s, sep) && Above(Lo(c), sep) && Below(sep, Hi(c))
    && RepCtx(pages, c.up, c.id) && RepAll(pages, c.left) && RepAll(pages, c.right)
    && RepT(pages, l) && RepT(pages, r)
    && Chain(pages, PairLeaves(c, l, r))
  }

  lemma {:induction false} KidsAround(p: Tree, j: nat)
    requires p.NodeT? && |p.kids| == |p.keys| + 1 && j < |p.keys|
    ensures p.kids == p.kids[..j] + [p.kids[j], p.kids[j + 1]] + p.kids[j + 2..]
  {
  }

  /** Leaves and pages are the same whether two children are seen apart or in their page. */
  lemma {:induction false} ApartParts(up: Ctx, p: Tree, j: nat)
    requires p.NodeT? && |p.kids| == |p.keys| + 1 && j < |p.keys|
    ensures var c := PairCtx(up, p, j);
      && AllLeaves(up, p) == PairLeaves(c, p.kids[j], p.kids[j + 1])
      && CtxIds(up) + Ids(p) == CtxIds(c) + Ids(p.kids[j]) + Ids(p.kids[j + 1])
  {
    hide LeavesOf, IdsOf, CtxIds, LeavesBefore, LeavesAfter, Without, PairLeaves, AllLeaves;
    var c := PairCtx(up, p, j);
    KidsAround(p, j);
    assert Pairs(c, p.kids[j], p.kids[j + 1]) == p.kids;
    PairsLeaves(c, p.kids[j], p.kids[j + 1]);
    AllLeavesAre(up, p);
    NodeLeaves(p);
    NodeIds(p);
  }

  lemma {:induction false} RepNode(pages: Store, p: Tree)
    requires RepT(pages, p) && p.NodeT?
    ensures RepAll(pages, p.kids) && p.id in pages && pages[p.id].id == p.id
    ensures pages[p.id].body == Internal(p.keys, RootIds(p.kids))
  {
  }

  lemma {:induction false} RepAllSlices(pages: Store, ts: seq<Tree>, j: nat)
    requires RepAll(pages, ts) && j + 1 < |ts|
    ensures RepAll(pages, ts[..j]) && RepAll(pages, ts[j + 2..]) && RepT(pages, ts[j]) && RepT(pages, ts[j + 1])
  {
    hide RepT;
    var right := ts[j + 2..];
    assert forall i :: 0 <= i < |right| ==> right[i] == ts[j + 2 + i];
  }

  lemma {:induction false} TakeApart(s: Schema, pages: Store, up: Ctx, p: Tree, h: nat, j: nat)
    requires p.NodeT? && Shape(s, pages, up, p, h + 1) && j < |p.keys|
    ensures |p.kids| == |p.keys| + 1
    ensures Apart(s, pages, PairCtx(up, p, j), p.kids[j], p.keys[j], p.kids[j + 1], h)
  {
    hide Wf, CtxWf, RepCtx, RepT, RepAll, Lo, Hi, Above, Below, ValidKey, Chain, AllLeaves, PairLeaves, KeyBytes;
    hide InternalEntrySize, Without;
    PairWf(s, up, p, h, j);
    RepNode(pages, p);
    RepAllSlices(pages, p.kids, j);
    ApartParts(up, p, j);
  }

  // --------------------------------------------------------------------- entering again

  /** With the page's contents written back, the two children are in the tree again. */
  lemma {:induction false} EnterApart(s: Schema, pages: Store, c: Ctx, l: Tree, sep: Key, r: Tree, h: nat, pp: Page)
    requires Apart(s, pages, c, l, sep, r, h) && Distinct(CtxIds(c) + Ids(l) + Ids(r))
    requires KeyBytes(c.keys) + InternalEntrySize(sep) <= INTERNAL_USABLE
    requires c.id in pages && pages[c.id].body.Internal?
    requires |c.left| + |c.right| == |c.keys|
    requires var t := WithKid(c.id, c.keys, c.left + [l] + c.right, |c.left|, l, sep, r);
      pp.id == c.id && pp.body == Internal(t.keys, RootIds(t.kids))
    ensures var t := WithKid(c.id, c.keys, c.left + [l] + c.right, |c.left|, l, sep, r);
      && Shape(s, pages[c.id := pp], c.up, t, h + 1)
      && AllLeaves(c.up, t) == PairLeaves(c, l, r)
      && CtxIds(c.up) + Ids(t) == CtxIds(c) + Ids(l) + Ids(r)
  {
    hide Wf, RepT, Chain, Leaves, Ids, ValidKey, KeyBytes, InternalEntrySize, PairLeaves, AllLeaves;
    hide CtxWf, RepCtx, LeavesOf, IdsOf, CtxIds, KidsBut, RepAll, Lo, Hi, KidLo, KidHi, Above, Below, LeavesBefore;
    hide LeavesAfter, RootIds;
    var i, kids := |c.left|, c.left + [l] + c.right;
    PendingGap(s, c, l, sep, r, h);
    PairsLeaves(c, l, r);
    var t := WithKid(c.id, c.keys, kids, i, l, sep, r);
    assert t.kids == Pairs(c, l, r);
    WithKidOk(s, c.id, c.keys, kids, i, l, sep, r, Lo(c.up), Hi(c.up), h);
    RepAllPair(pages, l, r);
    RepAllAppend(pages, c.left, [l, r]);
    RepAllAppend(pages, c.left + [l, r], c.right);
    NodeIds(t);
    NodeLeaves(t);
    AllLeavesAre(c.up, t);
    assert CtxIds(c.up) + Ids(t) == CtxIds(c) + Ids(l) + Ids(r);
    WriteNode(s, pages, c.up, t, h + 1, pp);
  }

  // --------------------------------------------------------------------------- merging

  lemma {:induction false} JoinedParts(c: Ctx, l: Tree, sep: Key, r: Tree)
    requires l.LeafT? <==> r.LeafT?
    ensures Joined(l, sep, r).id == l.id
    ensures Ids(Joined(l, sep, r)) + multiset{r.id} == Ids(l) + Ids(r)
    ensures l.NodeT? ==> AllLeaves(c, Joined(l, sep, r)) == PairLeaves(c, l, r)
    ensures RowsOf(AllLeaves(c, Joined(l, sep, r))) == RowsOf(PairLeaves(c, l, r))
  {
    hide LeavesBefore, LeavesAfter;
    var t := Joined(l, sep, r);
    if l.NodeT? {
      LeavesOfAppend(l.kids, r.kids);
      IdsOfAppend(l.kids, r.kids);
    } else {
      RowsOfAppend(LeavesBefore(c) + Leaves(t), LeavesAfter(c));
      RowsOfAppend(LeavesBefore(c), Leaves(t));
      RowsOfAppend(LeavesBefore(c) + (Leaves(l) + Leaves(r)), LeavesAfter(c));
      RowsOfAppend(LeavesBefore(c), Leaves(l) + Leaves(r));
      RowsOfAppend(Leaves(l), Leaves(r));
      LeafRows(l);
      LeafRows(r);
      LeafRows(t);
    }
  }

  /** Links of a leaf pair inside the chain. */
  lemma {:induction false} PairLinks(pages: Store, c: Ctx, l: Tree, r: Tree)
    requires l.LeafT? && r.LeafT? && Chain(pages, PairLeaves(c, l, r))
    ensures Links(pages, l.id, IdAt(LeavesBefore(c), |LeavesBefore(c)| - 1), Some(r.id))
    ensures Links(pages, r.id, Some(l.id), IdAt(LeavesAfter(c), 0))
  {
    hide LeavesBefore, LeavesAfter;
    var a, b, ls := LeavesBefore(c), LeavesAfter(c), PairLeaves(c, l, r);
    assert ls == a + [l, r] + b;
    assert Linked(pages, ls, |a|) && Linked(pages, ls, |a| + 1);
    assert IdAt(ls, |a| - 1) == IdAt(a, |a| - 1) && IdAt(ls, |a| + 2) == IdAt(b, 0);
  }

  /** The store after a merge: the joined page, the emptied right page, the page above, and the link back
      from the next leaf. */
  function MergedStore(pages: Store, lp: Page, rp: Page, pp: Page): Store {
    RelinkNext(pages[lp.id := lp][rp.id := rp][pp.id := pp], lp)
  }

  lemma {:induction false} MergeLeafChain(pages: Store, c: Ctx, l: Tree, r: Tree, t: Tree, lp: Page, rp: Page, pp: Page)
    requires c.Down? && l.LeafT? && r.LeafT? && t.LeafT? && t.id == l.id && Chain(pages, PairLeaves(c, l, r))
    requires Distinct(CtxIds(c) + Ids(l) + Ids(r)) && l.id in pages && r.id in pages && pages[l.id].body.Leaf?
    requires pages[r.id].body.Leaf?
    requires lp.id == l.id && lp.body.Leaf? && lp.body.next == pages[r.id].body.next
    requires lp.body.prev == pages[l.id].body.prev
    requires rp.id == r.id && pp.id == c.id
    ensures Chain(MergedStore(pages, lp, rp, pp), AllLeaves(c, t))
    ensures lp.body.next.Some? ==>
      var n := lp.body.next.value; n in CtxIds(c) && n != c.id && n in pages && pages[n].body.Leaf? && pages[n].id == n
  {
    hide LeavesBefore, LeavesAfter, Chain, CtxIds;
    var a, b := LeavesBefore(c), LeavesAfter(c);
    assert PairLeaves(c, l, r) == a + [l, r] + b;
    PairIdsDistinct(c, l, r);
    PairLinks(pages, c, l, r);
    MergeNeighbours(pages, a, l, r, b);
    PairElsewhere(pages, c, l, r);
    var pages' := MergedStore(pages, lp, rp, pp);
    MergeDistinct(a, l, r, b);
    ChainMerge(pages, pages', a, l, r, t, b);
    assert AllLeaves(c, t) == a + [t] + b;
    if b != [] {
      LeafIdInCtx(c, b[0]);
    }
  }

  /** Leaves in a chain are pairwise different pages. */
  lemma {:induction false} PairIdsDistinct(c: Ctx, l: Tree, r: Tree)
    requires Distinct(CtxIds(c) + Ids(l) + Ids(r))
    ensures DistinctIds(PairLeaves(c, l, r))
    decreases c
  {
    var ls := PairLeaves(c, l, r);
    var ids := RootIds(ls);
    assert multiset(ids) <= CtxIds(c) + Ids(l) + Ids(r) by {
      hide CtxIds, Ids, LeavesBefore, LeavesAfter, Leaves, RootIds;
      CtxLeafIds(c);
      LeafIdsWithin(l);
      LeafIdsWithin(r);
      RootIdsAppend(LeavesBefore(c) + (Leaves(l) + Leaves(r)), LeavesAfter(c));
      RootIdsAppend(LeavesBefore(c), Leaves(l) + Leaves(r));
      RootIdsAppend(Leaves(l), Leaves(r));
    }
    hide PairLeaves, CtxIds, Ids;
    forall i, j | 0 <= i < j < |ls|
      ensures ls[i].id != ls[j].id
    {
      assert ids[i] in multiset(ids);
      DistinctFromCounts(ids, i, j);
    }
  }

  lemma {:induction false} CtxLeafIds(c: Ctx)
    ensures multiset(RootIds(LeavesBefore(c))) + multiset(RootIds(LeavesAfter(c))) <= CtxIds(c)
    decreases c
  {
    if c.Top? {
      assert RootIds([]) == [];
    } else {
      hide RootIds, LeavesOf, IdsOf;
      CtxLeafIds(c.up);
      LeafIdsWithinOf(c.left);
      LeafIdsWithinOf(c.right);
      RootIdsAppend(LeavesBefore(c.up), LeavesOf(c.left));
      RootIdsAppend(LeavesOf(c.right), LeavesAfter(c.up));
    }
  }

  lemma {:induction false} MergeNeighbours(pages: Store, a: seq<Tree>, l: Tree, r: Tree, b: seq<Tree>)
    requires Chain(pages, a + [l, r] + b)
    ensures b != [] ==> Links(pages, b[0].id, Some(r.id), IdAt(b, 1))
    ensures forall i :: 0 <= i < |a| ==> SameLinks(pages, pages, a[i].id)
    ensures forall i :: 0 <= i < |b| ==> SameLinks(pages, pages, b[i].id)
  {
    assert a + [l, r] + b == (a + [l]) + [r] + b;
    Neighbours(pages, a + [l], r, b);
    assert forall i :: 0 <= i < |a| ==> (a + [l])[i] == a[i];
  }

  lemma {:induction false} MergeDistinct(a: seq<Tree>, l: Tree, r: Tree, b: seq<Tree>)
    requires DistinctIds(a + [l, r] + b)
    ensures forall i :: 0 <= i < |a| ==> a[i].id != l.id && a[i].id != r.id && (b != [] ==> a[i].id != b[0].id)
    ensures forall i :: 0 <= i < |b| ==> b[i].id != l.id && b[i].id != r.id && (0 < i ==> b[i].id != b[0].id)
    ensures l.id != r.id
  {
    var ls := a + [l, r] + b;
    assert ls[|a|] == l && ls[|a| + 1] == r;
    assert forall i :: 0 <= i < |a| ==> ls[i] == a[i];
    assert forall i :: 0 <= i < |b| ==> ls[|a| + 2 + i] == b[i];
  }

  /** The page above is none of the leaves around the pair. */
  lemma {:induction false} PairElsewhere(pages: Store, c: Ctx, l: Tree, r: Tree)
    requires c.Down? && Distinct(CtxIds(c) + Ids(l) + Ids(r))
    ensures forall i :: 0 <= i < |LeavesBefore(c)| ==> LeavesBefore(c)[i].id != c.id
    ensures forall i :: 0 <= i < |LeavesAfter(c)| ==> LeavesAfter(c)[i].id != c.id
    ensures c.id !in Ids(l) + Ids(r)
  {
    var rest := CtxIds(c.up) + IdsOf(c.left) + IdsOf(c.right);
    var ids := CtxIds(c) + Ids(l) + Ids(r);
    assert ids[c.id] == rest[c.id] + 1 + Ids(l)[c.id] + Ids(r)[c.id];
    forall x | x in LeavesBefore(c) || x in LeavesAfter(c)
      ensures x.id != c.id
    {
      if x in LeavesBefore(c.up) || x in LeavesAfter(c.up) {
        LeafIdInCtx(c.up, x);
      } else if x in LeavesOf(c.left) {
        LeafIdInOf(c.left, x);
      } else {
        LeafIdInOf(c.right, x);
      }
    }
  }

  lemma {:induction false} AgreeMerged(pages: Store, lp: Page, rp: Page, pp: Page, ids: multiset<PageId>)
    requires lp.id !in ids && rp.id !in ids && pp.id !in ids
    ensures Agree(pages, MergedStore(pages, lp, rp, pp), ids)
  {
  }

  /** None of the three pages written by a merge occurs anywhere else in the tree. */
  lemma {:induction false} ApartIds(c: Ctx, l: Tree, r: Tree, id: PageId)
    requires c.Down? && Distinct(CtxIds(c) + Ids(l) + Ids(r)) && id in {c.id, l.id, r.id}
    ensures id !in CtxIds(c.up) && id !in IdsOf(c.left) && id !in IdsOf(c.right)
    ensures l.NodeT? ==> id !in IdsOf(l.kids)
    ensures r.NodeT? ==> id !in IdsOf(r.kids)
    ensures c.id != l.id && c.id != r.id && l.id != r.id
  {
    hide CtxIds, Ids, IdsOf, Distinct;
    OnceOnly(c, l, r, c.id);
    OnceOnly(c, l, r, l.id);
    OnceOnly(c, l, r, r.id);
  }

  /** No page is counted twice. */
  lemma {:induction false} OnceOnly(c: Ctx, l: Tree, r: Tree, x: PageId)
    requires c.Down? && Distinct(CtxIds(c) + Ids(l) + Ids(r))
    ensures CtxIds(c.up)[x] + One(x, c.id) + IdsOf(c.left)[x] + IdsOf(c.right)[x] + One(x, l.id) + Inside(l, x)
      + One(x, r.id) + Inside(r, x) <= 1
  {
    hide CtxIds, Ids, IdsOf;
    var a, b, d := CtxIds(c), Ids(l), Ids(r);
    assert (a + b + d)[x] == a[x] + b[x] + d[x];
    assert x in a + b + d || (a + b + d)[x] == 0;
    CtxCount(c, x);
    RootCount(l, x);
    RootCount(r, x);
  }

  function One(x: PageId, y: PageId): nat { if x == y then 1 else 0 }

  /** How often `x` occurs below the root of `t`. */
  ghost function Inside(t: Tree, x: PageId): nat { if t.NodeT? then IdsOf(t.kids)[x] else 0 }

  lemma {:induction false} CtxCount(c: Ctx, x: PageId)
    requires c.Down?
    ensures CtxIds(c)[x] == CtxIds(c.up)[x] + One(x, c.id) + IdsOf(c.left)[x] + IdsOf(c.right)[x]
  {
    hide IdsOf;
  }

  lemma {:induction false} RootCount(t: Tree, x: PageId)
    ensures Ids(t)[x] == One(x, t.id) + Inside(t, x)
  {
    hide IdsOf;
  }

  /** Merging two neighbours: the joined page takes their place, the right page is out of the tree. */
  lemma {:induction false} MergeApart(s: Schema, pages: Store, c: Ctx, l: Tree, sep: Key, r: Tree, h: nat, lp: Page,
                                      rp: Page, pp: Page)
    requires Apart(s, pages, c, l, sep, r, h) && Distinct(CtxIds(c) + Ids(l) + Ids(r))
    requires l.LeafT? <==> r.LeafT?
    requires l.LeafT? ==> LeafBytes(l.rows + r.rows) <= LEAF_USABLE
    requires l.NodeT? ==> KeyBytes(l.keys + [sep] + r.keys) <= INTERNAL_USABLE
    requires lp.id == l.id && rp.id == r.id && pp.id == c.id && l.id in pages && r.id in pages
    requires l.LeafT? ==>
      pages[l.id].body.Leaf? && pages[r.id].body.Leaf?
        && lp.body == Leaf(l.rows + r.rows, pages[r.id].body.next, pages[l.id].body.prev)
    requires l.NodeT? ==> lp.body == Internal(l.keys + [sep] + r.keys, RootIds(l.kids + r.kids))
    requires pp.body == Internal(c.keys, RootIds(c.left) + [l.id] + RootIds(c.right))
    ensures Shape(s, MergedStore(pages, lp, rp, pp), c, Joined(l, sep, r), h)
  {
    hide Wf, CtxWf, RepCtx, RepT, RepAll, Chain, LeafBytes, KeyBytes, CtxIds, Ids, IdsOf, Lo, Hi, Above, Below;
    hide ValidKey, PairLeaves, AllLeaves, RootIds;
    var t, pages' := Joined(l, sep, r), MergedStore(pages, lp, rp, pp);
    JoinWf(s, l, sep, r, Lo(c), Hi(c), h);
    MergeRep(pages, c, l, sep, r, lp, rp, pp);
    if l.LeafT? {
      MergeLeafChain(pages, c, l, r, t, lp, rp, pp);
    } else {
      JoinedParts(c, l, sep, r);
      MergeNodeChain(pages, c, l, sep, r, lp, rp, pp);
    }
  }

  lemma {:induction false} MergeNodeChain(pages: Store, c: Ctx, l: Tree, sep: Key, r: Tree, lp: Page, rp: Page,
                                          pp: Page)
    requires c.Down? && l.NodeT? && r.NodeT? && Chain(pages, PairLeaves(c, l, r)) && lp.body.Internal?
    requires RepT(pages, l) && RepT(pages, r) && Distinct(CtxIds(c) + Ids(l) + Ids(r))
    requires lp.id == l.id && rp.id == r.id && pp.id == c.id
    ensures Chain(MergedStore(pages, lp, rp, pp), PairLeaves(c, l, r))
  {
    hide PairLeaves, CtxIds, IdsOf, LeavesBefore, LeavesAfter;
    var pages', ls := MergedStore(pages, lp, rp, pp), PairLeaves(c, l, r);
    forall i | 0 <= i < |ls|
      ensures Linked(pages', ls, i)
    {
      assert Linked(pages, ls, i);
      NotTheParent(c, l, r, ls[i]);
    }
  }

  lemma {:induction false} NotTheParent(c: Ctx, l: Tree, r: Tree, x: Tree)
    requires c.Down? && Distinct(CtxIds(c) + Ids(l) + Ids(r)) && x in PairLeaves(c, l, r)
    ensures x.id != c.id
  {
    hide LeavesBefore, LeavesAfter, CtxIds, Ids, Leaves;
    PairElsewhere(map[], c, l, r);
    if x in Leaves(l) {
      LeafIdIn(l, x);
    } else if x in Leaves(r) {
      LeafIdIn(r, x);
    }
  }

  lemma {:induction false} MergeRep(pages: Store, c: Ctx, l: Tree, sep: Key, r: Tree, lp: Page, rp: Page, pp: Page)
    requires c.Down? && RepCtx(pages, c.up, c.id) && RepAll(pages, c.left) && RepAll(pages, c.right)
    requires RepT(pages, l) && RepT(pages, r) && Chain(pages, PairLeaves(c, l, r))
    requires Distinct(CtxIds(c) + Ids(l) + Ids(r))
    requires l.LeafT? <==> r.LeafT?
    requires lp.id == l.id && rp.id == r.id && pp.id == c.id && l.id in pages && r.id in pages
    requires l.LeafT? ==>
      pages[l.id].body.Leaf? && pages[r.id].body.Leaf?
        && lp.body == Leaf(l.rows + r.rows, pages[r.id].body.next, pages[l.id].body.prev)
    requires l.NodeT? ==> lp.body == Internal(l.keys + [sep] + r.keys, RootIds(l.kids + r.kids))
    requires pp.body == Internal(c.keys, RootIds(c.left) + [l.id] + RootIds(c.right))
    ensures RepCtx(MergedStore(pages, lp, rp, pp), c, l.id) && RepT(MergedStore(pages, lp, rp, pp), Joined(l, sep, r))
  {
    hide RepAll, Chain, CtxIds, Ids, IdsOf, PairLeaves, RootIds;
    var t, pages' := Joined(l, sep, r), MergedStore(pages, lp, rp, pp);
    ApartIds(c, l, r, c.id);
    ApartIds(c, l, r, l.id);
    ApartIds(c, l, r, r.id);
    AgreeMerged(pages, lp, rp, pp, CtxIds(c.up));
    AgreeMerged(pages, lp, rp, pp, IdsOf(c.left));
    AgreeMerged(pages, lp, rp, pp, IdsOf(c.right));
    RepCtxFrame(pages, pages', c.up, c.id);
    RepAllFrame(pages, pages', c.left);
    RepAllFrame(pages, pages', c.right);
    if l.LeafT? {
      MergeLeafChain(pages, c, l, r, t, lp, rp, pp);
    } else {
      RepNode(pages, l);
      RepNode(pages, r);
      AgreeMerged(pages, lp, rp, pp, IdsOf(l.kids));
      AgreeMerged(pages, lp, rp, pp, IdsOf(r.kids));
      RepAllFrame(pages, pages', l.kids);
      RepAllFrame(pages, pages', r.kids);
      RepAllAppend(pages', l.kids, r.kids);
      NodeRep(pages', l.id, l.keys + [sep] + r.keys, l.kids + r.kids);
    }
  }
}

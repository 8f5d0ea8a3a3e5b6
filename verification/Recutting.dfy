/** Borrowing as a change to the tree, and what the page operations of `rebalance` do to the tree. */
module Recutting {
  import opened Common
  import opened Schemas
  import opened Pages
  import opened Borrowing
  import opened Trees
  import opened Stores
  import opened Chains
  import opened Splitting
  import opened Inserting
  import opened Joining
  import opened Rebalancing

  lemma {:induction false} RecutParts(c: Ctx, l: Tree, sep: Key, r: Tree, k: nat)
    requires k < JoinedCount(l, r) && (l.NodeT? ==> |l.kids| == |l.keys| + 1) && (r.NodeT? ==> |r.kids| == |r.keys| + 1)
    ensures var (a, s', b) := Recut(l, sep, r, k);
      && a.id == l.id && b.id == r.id && (a.LeafT? <==> l.LeafT?) && (b.LeafT? <==> r.LeafT?)
      && Ids(a) + Ids(b) == Ids(l) + Ids(r)
      && RootIds(PairLeaves(c, a, b)) == RootIds(PairLeaves(c, l, r))
      && RowsOf(PairLeaves(c, a, b)) == RowsOf(PairLeaves(c, l, r))
  {
    if l.NodeT? {
      RecutNodeParts(c, l, sep, r, k);
    } else {
      RecutLeafParts(c, l, sep, r, k);
    }
  }

  lemma {:induction false} RecutNodeParts(c: Ctx, l: Tree, sep: Key, r: Tree, k: nat)
    requires l.NodeT? && r.NodeT? && k < JoinedCount(l, r) && |l.kids| == |l.keys| + 1 && |r.kids| == |r.keys| + 1
    ensures var (a, s', b) := Recut(l, sep, r, k);
      && a.NodeT? && b.NodeT? && a.kids + b.kids == l.kids + r.kids && a.id == l.id && b.id == r.id
      && Ids(a) + Ids(b) == Ids(l) + Ids(r) && PairLeaves(c, a, b) == PairLeaves(c, l, r)
  {
    hide LeavesBefore, LeavesAfter, LeavesOf, IdsOf;
    var (a, s', b) := Recut(l, sep, r, k);
    assert a.kids + b.kids == l.kids + r.kids;
    LeavesOfAppend(l.kids, r.kids);
    LeavesOfAppend(a.kids, b.kids);
    IdsOfAppend(l.kids, r.kids);
    IdsOfAppend(a.kids, b.kids);
    assert Leaves(a) + Leaves(b) == Leaves(l) + Leaves(r);
    NodeIds(a);
    NodeIds(b);
    NodeIds(l);
    NodeIds(r);
    assert IdsOf(a.kids) + IdsOf(b.kids) == IdsOf(l.kids) + IdsOf(r.kids);
    Swap(multiset{l.id}, multiset{r.id}, IdsOf(a.kids), IdsOf(b.kids), IdsOf(l.kids), IdsOf(r.kids));
  }

  lemma {:induction false} Swap(x: multiset<PageId>, y: multiset<PageId>, a: multiset<PageId>, b: multiset<PageId>,
                                l: multiset<PageId>, r: multiset<PageId>)
    requires a + b == l + r
    ensures (x + a) + (y + b) == (x + l) + (y + r)
  {
    calc {
      (x + a) + (y + b);
      x + y + (a + b);
      x + y + (l + r);
      (x + l) + (y + r);
    }
  }

  lemma {:induction false} RecutLeafParts(c: Ctx, l: Tree, sep: Key, r: Tree, k: nat)
    requires l.LeafT? && r.LeafT? && k < JoinedCount(l, r)
    ensures var (a, s', b) := Recut(l, sep, r, k);
      && a.LeafT? && b.LeafT? && a.id == l.id && b.id == r.id && Ids(a) == Ids(l) && Ids(b) == Ids(r)
      && RootIds(PairLeaves(c, a, b)) == RootIds(PairLeaves(c, l, r))
      && RowsOf(PairLeaves(c, a, b)) == RowsOf(PairLeaves(c, l, r))
  {
    hide LeavesBefore, LeavesAfter, RowsOf;
    var (a, s', b) := Recut(l, sep, r, k);
    PairLeafRows(c, a, b);
    PairLeafRows(c, l, r);
    assert a.rows + b.rows == l.rows + r.rows;
  }

  /** A page that holds tree `t`; for a leaf, with links as in `old_`. */
  ghost predicate Holds(p: Page, t: Tree, old_: Page) {
    && p.id == t.id
    && match t
       case LeafT(_, rows) => old_.body.Leaf? && p.body == old_.body.(records := rows)
       case NodeT(_, keys, kids) => p.body == Internal(keys, RootIds(kids))
  }

  /** Cutting two neighbours elsewhere, the page above still to be written. */
  lemma {:induction false} RecutApart(s: Schema, pages: Store, c: Ctx, l: Tree, sep: Key, r: Tree, h: nat, k: nat,
                                      lp: Page, rp: Page)
    requires Apart(s, pages, c, l, sep, r, h) && Distinct(CtxIds(c) + Ids(l) + Ids(r))
    requires k < JoinedCount(l, r) && (l.LeafT? ==> 0 < k) && (l.NodeT? ==> |l.kids| == |l.keys| + 1)
    requires (r.NodeT? ==> |r.kids| == |r.keys| + 1)
    requires var (a, s', b) := Recut(l, sep, r, k);
      && FitsTree(a) && FitsTree(b) && l.id in pages && r.id in pages
      && Holds(lp, a, pages[l.id]) && Holds(rp, b, pages[r.id])
    ensures var (a, s', b) := Recut(l, sep, r, k); Apart(s, pages[l.id := lp][r.id := rp], c, a, s', b, h)
  {
    hide Wf, CtxWf, RepCtx, RepT, RepAll, Chain, CtxIds, Ids, IdsOf, Lo, Hi, Above, Below, ValidKey, PairLeaves;
    hide RootIds, Recut, FitsTree, Holds;
    RecutWf(s, l, sep, r, Lo(c), Hi(c), h, k);
    RecutParts(c, l, sep, r, k);
    RecutRep(pages, c, l, sep, r, k, lp, rp);
  }

  lemma {:induction false} RecutRep(pages: Store, c: Ctx, l: Tree, sep: Key, r: Tree, k: nat, lp: Page, rp: Page)
    requires c.Down? && RepCtx(pages, c.up, c.id) && RepAll(pages, c.left) && RepAll(pages, c.right)
    requires RepT(pages, l) && RepT(pages, r) && Chain(pages, PairLeaves(c, l, r))
    requires Distinct(CtxIds(c) + Ids(l) + Ids(r))
    requires k < JoinedCount(l, r) && (l.NodeT? ==> |l.kids| == |l.keys| + 1) && (r.NodeT? ==> |r.kids| == |r.keys| + 1)
    requires var (a, s', b) := Recut(l, sep, r, k);
      l.id in pages && r.id in pages && Holds(lp, a, pages[l.id]) && Holds(rp, b, pages[r.id])
    ensures var pages' := pages[l.id := lp][r.id := rp]; var (a, s', b) := Recut(l, sep, r, k);
      && RepCtx(pages', c.up, c.id) && RepAll(pages', c.left) && RepAll(pages', c.right)
      && RepT(pages', a) && RepT(pages', b) && Chain(pages', PairLeaves(c, a, b))
  {
    hide RepAll, CtxIds, Ids, IdsOf, PairLeaves, RootIds, RepCtx, RepT, Recut, Chain;
    RecutParts(c, l, sep, r, k);
    RecutAround(pages, c, l, sep, r, k, lp, rp);
    RecutPair(pages, c, l, sep, r, k, lp, rp);
  }

  lemma {:induction false} RecutAround(pages: Store, c: Ctx, l: Tree, sep: Key, r: Tree, k: nat, lp: Page, rp: Page)
    requires c.Down? && RepCtx(pages, c.up, c.id) && RepAll(pages, c.left) && RepAll(pages, c.right)
    requires Chain(pages, PairLeaves(c, l, r)) && Distinct(CtxIds(c) + Ids(l) + Ids(r)) && RepT(pages, l)
    requires RepT(pages, r)
    requires k < JoinedCount(l, r) && (l.NodeT? ==> |l.kids| == |l.keys| + 1) && (r.NodeT? ==> |r.kids| == |r.keys| + 1)
    requires var (a, s', b) := Recut(l, sep, r, k);
      l.id in pages && r.id in pages && Holds(lp, a, pages[l.id]) && Holds(rp, b, pages[r.id])
    ensures var pages' := pages[l.id := lp][r.id := rp]; var (a, s', b) := Recut(l, sep, r, k);
      && RepCtx(pages', c.up, c.id) && RepAll(pages', c.left) && RepAll(pages', c.right)
      && Chain(pages', PairLeaves(c, a, b))
  {
    hide RepAll, CtxIds, Ids, IdsOf, PairLeaves, RootIds, RepCtx, Recut, RepT, Distinct, JoinedCount;
    var pages' := pages[l.id := lp][r.id := rp];
    var (a, s', b) := Recut(l, sep, r, k);
    ApartIds(c, l, r, l.id);
    ApartIds(c, l, r, r.id);
    RepCtxFrame(pages, pages', c.up, c.id);
    RepAllFrame(pages, pages', c.left);
    RepAllFrame(pages, pages', c.right);
    RecutParts(c, l, sep, r, k);
    var ls := PairLeaves(c, l, r);
    forall i | 0 <= i < |ls|
      ensures SameLinks(pages, pages', ls[i].id)
    {
      assert Linked(pages, ls, i);
      SameLinksHeld(pages, l, sep, r, k, lp, rp, ls[i].id);
    }
    ChainFrame(pages, pages', ls, PairLeaves(c, a, b));
  }

  /** Both pages stay of their kind, and keep their links. */
  lemma {:induction false} SameLinksHeld(pages: Store, l: Tree, sep: Key, r: Tree, k: nat, lp: Page, rp: Page,
                                         id: PageId)
    requires RepT(pages, l) && RepT(pages, r)
    requires k < JoinedCount(l, r) && (l.NodeT? ==> |l.kids| == |l.keys| + 1) && (r.NodeT? ==> |r.kids| == |r.keys| + 1)
    requires var (a, s', b) := Recut(l, sep, r, k); Holds(lp, a, pages[l.id]) && Holds(rp, b, pages[r.id])
    requires id in pages && pages[id].id == id && pages[id].body.Leaf?
    ensures SameLinks(pages, pages[l.id := lp][r.id := rp], id)
  {
    hide RowKey;
  }

  lemma {:induction false} RecutPair(pages: Store, c: Ctx, l: Tree, sep: Key, r: Tree, k: nat, lp: Page, rp: Page)
    requires c.Down? && RepT(pages, l) && RepT(pages, r) && Distinct(CtxIds(c) + Ids(l) + Ids(r))
    requires k < JoinedCount(l, r) && (l.NodeT? ==> |l.kids| == |l.keys| + 1) && (r.NodeT? ==> |r.kids| == |r.keys| + 1)
    requires var (a, s', b) := Recut(l, sep, r, k);
      l.id in pages && r.id in pages && Holds(lp, a, pages[l.id]) && Holds(rp, b, pages[r.id])
    ensures var pages' := pages[l.id := lp][r.id := rp]; var (a, s', b) := Recut(l, sep, r, k);
      RepT(pages', a) && RepT(pages', b)
  {
    hide RepAll, CtxIds, Ids, IdsOf, RootIds;
    var pages' := pages[l.id := lp][r.id := rp];
    var (a, s', b) := Recut(l, sep, r, k);
    ApartIds(c, l, r, l.id);
    ApartIds(c, l, r, r.id);
    if l.NodeT? {
      RepNode(pages, l);
      RepNode(pages, r);
      RepAllFrame(pages, pages', l.kids);
      RepAllFrame(pages, pages', r.kids);
      RepAllAppend(pages', l.kids, r.kids);
      assert a.kids + b.kids == l.kids + r.kids;
      RepAllParts(pages', a.kids, b.kids);
      NodeRep(pages', a.id, a.keys, a.kids);
      NodeRep(pages', b.id, b.keys, b.kids);
    }
  }

  // ----------------------------------------------------------- pages and trees of a pair

  /** The two pages of a pair, as the tree describes them. */
  ghost predicate PairPages(pl: Page, l: Tree, pr: Page, r: Tree) {
    && (l.LeafT? <==> r.LeafT?)
    && (l.LeafT? ==> pl.body.Leaf? && pl.body.records == l.rows && pr.body.Leaf? && pr.body.records == r.rows)
    && (l.NodeT? ==> pl.body == Internal(l.keys, RootIds(l.kids)) && pr.body == Internal(r.keys, RootIds(r.kids)))
    && (l.NodeT? ==> |l.kids| == |l.keys| + 1 && |r.kids| == |r.keys| + 1)
    && pl.id == l.id && pr.id == r.id
  }

  lemma {:induction false} ApartPages(s: Schema, pages: Store, c: Ctx, l: Tree, sep: Key, r: Tree, h: nat)
    requires Apart(s, pages, c, l, sep, r, h)
    ensures l.id in pages && r.id in pages && PairPages(pages[l.id], l, pages[r.id], r)
    ensures FitsTree(l) && FitsTree(r) && |c.left| + |c.right| == |c.keys|
    ensures l.LeafT? ==> LeafPair(pages[l.id], pages[r.id])
    ensures l.NodeT? ==> InternalPair(pages[l.id], sep, pages[r.id])
    ensures InternalEntrySize(sep) <= MAX_INTERNAL_ENTRY_SIZE
  {
    WfNode(s, l, Lo(c), Some(sep), h);
    WfNode(s, r, Some(sep), Hi(c), h);
    ValidKeySize(s, sep);
    hide CtxIds, LeafBytes, KeyBytes, ValidKey, ValidRow, RowsOk, KeysIn, KidsBut, RepCtx, RepAll, Lo, Hi, Above, Below;
    hide FitsTree, InternalEntrySize, Chain, PairLeaves;
    if l.LeafT? {
      PairLinks(pages, c, l, r);
      RowsJoin(s, l.rows, r.rows, Lo(c), sep, Hi(c));
      JoinedRowsOk(s, l.rows + r.rows, Lo(c), Hi(c));
    } else {
      KeysJoin(s, l.keys, r.keys, Lo(c), sep, Hi(c));
      JoinedKeysOk(s, l.keys + [sep] + r.keys, Lo(c), Hi(c));
    }
  }

  lemma {:induction false} JoinedRowsOk(s: Schema, rows: seq<Row>, lo: Option<Key>, hi: Option<Key>)
    requires RowsOk(s, rows, lo, hi)
    ensures Sorted(RecordKeys(rows)) && forall i :: 0 <= i < |rows| ==> LeafEntrySize(rows[i]) <= MAX_LEAF_ENTRY_SIZE
  {
  }

  lemma {:induction false} JoinedKeysOk(s: Schema, keys: seq<Key>, lo: Option<Key>, hi: Option<Key>)
    requires KeysIn(s, keys, lo, hi)
    ensures Sorted(keys) && forall i :: 0 <= i < |keys| ==> InternalEntrySize(keys[i]) <= MAX_INTERNAL_ENTRY_SIZE
  {
  }

  /** Whether two neighbours fit into one page. */
  predicate FitsJoined(l: Tree, sep: Key, r: Tree) {
    match (l, r)
    case (LeafT(_, a), LeafT(_, b)) => LeafBytes(a + b) <= LEAF_USABLE
    case (NodeT(_, a, _), NodeT(_, b, _)) => KeyBytes(a + [sep] + b) <= INTERNAL_USABLE
    case _ => false
  }

  predicate UnderfullTree(t: Tree) {
    match t
    case LeafT(_, rows) => LeafBytes(rows) < LEAF_UNDERFULL_BYTES
    case NodeT(_, keys, _) => KeyBytes(keys) < INTERNAL_UNDERFULL_BYTES
  }

  /** `can_merge_with` asks exactly whether the joined entries fit, and then the merge goes through. */
  lemma {:induction false} MergeSpelled(pl: Page, l: Tree, sep: Key, pr: Page, r: Tree)
    requires PairPages(pl, l, pr, r)
    requires l.LeafT? ==> LeafPair(pl, pr)
    requires l.NodeT? ==> InternalPair(pl, sep, pr)
    requires FitsTree(l)
    ensures CanMergeWith(pl, pr, sep) <==> FitsJoined(l, sep, r)
    ensures FitsJoined(l, sep, r) ==>
      && MergeFromRight(pl, pr, sep).Ok?
      && var (lp, rp) := MergeFromRight(pl, pr, sep).value;
         && lp.id == pl.id && rp == pr.(body := Free(None))
         && (l.LeafT? ==> lp.body == Leaf(l.rows + r.rows, pr.body.next, pl.body.prev))
         && (l.NodeT? ==> lp.body == Internal(l.keys + [sep] + r.keys, RootIds(l.kids + r.kids)))
  {
    hide LeafBytes, KeyBytes, LeafEntrySize, InternalEntrySize, RowKey;
    if l.LeafT? {
      LeafBytesAppend(l.rows, r.rows);
      var w := l.rows + r.rows;
      if l.rows != [] && r.rows != [] {
        assert KeyLess(RecordKeys(w)[|l.rows| - 1], RecordKeys(w)[|l.rows|]);
      }
    } else {
      KeyBytesMiddle(l.keys, sep, r.keys);
      var w := l.keys + [sep] + r.keys;
      assert w[|l.keys|] == sep;
      assert l.keys != [] ==> w[|l.keys| - 1] == l.keys[|l.keys| - 1];
      assert r.keys != [] ==> w[|l.keys| + 1] == r.keys[0];
      assert RootIds(l.kids + r.kids) == RootIds(l.kids) + RootIds(r.kids);
    }
  }

  /** A pair with an underfull side that cannot merge is starved, the underfull side being the lighter. */
  lemma {:induction false} StarvedPair(pl: Page, l: Tree, sep: Key, pr: Page, r: Tree)
    requires PairPages(pl, l, pr, r)
    requires l.LeafT? ==> LeafPair(pl, pr)
    requires l.NodeT? ==> InternalPair(pl, sep, pr)
    requires FitsTree(l) && FitsTree(r) && !FitsJoined(l, sep, r) && InternalEntrySize(sep) <= MAX_INTERNAL_ENTRY_SIZE
    ensures UnderfullTree(l) ==> LighterLeft(pl, sep, pr)
    ensures UnderfullTree(r) ==> LighterRight(pl, sep, pr)
  {
    hide LeafBytes, KeyBytes, LeafEntrySize, InternalEntrySize, LeafPair, InternalPair, RootIds;
    if l.LeafT? {
      LeafBytesAppend(l.rows, r.rows);
    } else {
      KeyBytesMiddle(l.keys, sep, r.keys);
    }
  }

  /** The pair of pages cut at `k` holds the pair of trees cut at `k`. */
  lemma {:induction false} CutSpelled(pl: Page, l: Tree, sep: Key, pr: Page, r: Tree, k: nat)
    requires PairPages(pl, l, pr, r) && Starved(pl, sep, pr) && k < |PairSizes(pl, sep, pr)|
    ensures k < JoinedCount(l, r) == |PairSizes(pl, sep, pr)|
    ensures var (a, b, s) := PairAt(pl, sep, pr, k); var (ta, s', tb) := Recut(l, sep, r, k);
      s == s' && Holds(a, ta, pl) && Holds(b, tb, pr) && (FitsPage(a) <==>
          FitsTree(ta)) && (FitsPage(b) <==> FitsTree(tb))
  {
    hide LeafBytes, KeyBytes, LeafEntrySize, InternalEntrySize, RowKey, Sorted;
    if l.NodeT? {
      var ks := l.kids + r.kids;
      RootIdsSlices(ks, k);
      assert RootIds(ks) == RootIds(l.kids) + RootIds(r.kids);
    }
  }

  lemma {:induction false} SearchHit(keys: seq<Key>, j: nat)
    requires Sorted(keys) && j < |keys|
    ensures Search(keys, keys[j]) == Hit(j)
  {
    var lb := LowerBound(keys, keys[j]);
    assert !(lb < j) && !(j < lb);
  }

  /** Removing the separator between children `j` and `j + 1` from a page removes child `j + 1`. */
  lemma {:induction false} RemoveSpelled(pp: Page, p: Tree, j: nat)
    requires p.NodeT? && pp.body == Internal(p.keys, RootIds(p.kids)) && |p.kids| == |p.keys| + 1 && j < |p.keys|
    requires Sorted(p.keys)
    ensures InternalRemove(pp, p.keys[j]) ==
      Ok((pp.(body := Internal(Without(p.keys, j), RootIds(p.kids[..j]) + [p.kids[j].id] + RootIds(p.kids[j + 2..]))),
          Some((p.keys[j], p.kids[j + 1].id))))
  {
    SearchHit(p.keys, j);
    hide Search, Sorted;
    assert RootIds(p.kids)[..j + 1] == RootIds(p.kids[..j]) + [p.kids[j].id];
    assert RootIds(p.kids)[j + 2..] == RootIds(p.kids[j + 2..]);
  }

  /** Replacing the separator between children `j` and `j + 1` of a page; it fits exactly when the
      other keys leave room for it. */
  lemma {:induction false} ReplaceSpelled(pp: Page, p: Tree, j: nat, new_: Key, a: Tree, b: Tree, lo: Option<Key>,
                                          hi: Option<Key>)
    requires p.NodeT? && pp.body == Internal(p.keys, RootIds(p.kids)) && |p.kids| == |p.keys| + 1 && j < |p.keys|
    requires Sorted(p.keys)
    requires Above(KidLo(p.keys, j, lo), new_) && Below(new_, KidHi(p.keys, j + 1, hi))
    requires a.id == p.kids[j].id && b.id == p.kids[j + 1].id && KeyBytes(p.keys) <= INTERNAL_USABLE
    requires KeyBytes(Without(p.keys, j)) + InternalEntrySize(p.keys[j]) == KeyBytes(p.keys)
    ensures ReplacementFits(pp, p.keys[j], new_) <==>
      KeyBytes(Without(p.keys, j)) + InternalEntrySize(new_) <= INTERNAL_USABLE
    ensures !ReplacementFits(pp, p.keys[j], new_) ==> InternalReplaceKey(pp, p.keys[j], new_) == Err(PageFull)
    ensures ReplacementFits(pp, p.keys[j], new_) ==>
      var t := WithKid(p.id, Without(p.keys, j), p.kids[..j] + [a] + p.kids[j + 2..], j, a, new_, b);
      InternalReplaceKey(pp, p.keys[j], new_) == Ok(pp.(body := Internal(t.keys, RootIds(t.kids))))
  {
    hide InternalReplaceKey, ReplacementFits, Above, Below, KidLo, KidHi, Sorted, KeyBytes, InternalEntrySize;
    hide Without, WithKid, RootIds;
    ReplaceAt(pp, j, new_, lo, hi);
    ReplaceRoom(pp, j, new_);
    SeparatorReplaced(p, j, new_, a, b);
  }

  /** A new key between its neighbours takes the place of the old one, if there is room. */
  lemma {:induction false} ReplaceAt(pp: Page, j: nat, new_: Key, lo: Option<Key>, hi: Option<Key>)
    requires pp.body.Internal? && j < |pp.body.keys| && Sorted(pp.body.keys)
    requires Above(KidLo(pp.body.keys, j, lo), new_) && Below(new_, KidHi(pp.body.keys, j + 1, hi))
    ensures InternalReplaceKey(pp, pp.body.keys[j], new_) ==
      if ReplacementFits(pp, pp.body.keys[j], new_)
      then Ok(pp.(body := pp.body.(keys := pp.body.keys[j := new_])))
      else Err(PageFull)
  {
    hide Search, Sorted, ReplacementFits;
    SearchHit(pp.body.keys, j);
  }

  lemma {:induction false} ReplaceRoom(pp: Page, j: nat, new_: Key)
    requires pp.body.Internal? && j < |pp.body.keys| && KeyBytes(pp.body.keys) <= INTERNAL_USABLE
    requires KeyBytes(Without(pp.body.keys, j)) + InternalEntrySize(pp.body.keys[j]) == KeyBytes(pp.body.keys)
    ensures ReplacementFits(pp, pp.body.keys[j], new_) <==>
      KeyBytes(Without(pp.body.keys, j)) + InternalEntrySize(new_) <= INTERNAL_USABLE
  {
    hide KeyBytes, InternalEntrySize, Without;
  }

  lemma {:induction false} SeparatorReplaced(p: Tree, j: nat, new_: Key, a: Tree, b: Tree)
    requires p.NodeT? && |p.kids| == |p.keys| + 1 && j < |p.keys| && a.id == p.kids[j].id && b.id == p.kids[j + 1].id
    ensures var t := WithKid(p.id, Without(p.keys, j), p.kids[..j] + [a] + p.kids[j + 2..], j, a, new_, b);
      t.NodeT? && t.keys == p.keys[j := new_] && RootIds(t.kids) == RootIds(p.kids)
  {
    var t := WithKid(p.id, Without(p.keys, j), p.kids[..j] + [a] + p.kids[j + 2..], j, a, new_, b);
    BackWith(p.keys, j, new_);
    PairInKids(p.kids, j, a, b);
    hide Without;
    assert |t.kids| == |p.kids|;
    forall i | 0 <= i < |t.kids|
      ensures t.kids[i].id == p.kids[i].id
    {
    }
  }

  /** Taking a key out and putting another in its place. */
  lemma {:induction false} BackWith(keys: seq<Key>, j: nat, k: Key)
    requires j < |keys|
    ensures Without(keys, j)[..j] + [k] + Without(keys, j)[j..] == keys[j := k]
  {
    var rest := Without(keys, j);
    assert rest[..j] == keys[..j];
    assert rest[j..] == keys[j + 1..];
  }

  lemma {:induction false} PairInKids(kids: seq<Tree>, j: nat, a: Tree, b: Tree)
    requires j + 1 < |kids|
    ensures var ks := kids[..j] + [a] + kids[j + 2..]; var all := ks[..j] + [a, b] + ks[j + 1..];
      && |all| == |kids| && all[j] == a && all[j + 1] == b
      && (forall i :: 0 <= i < |kids| && i != j && i != j + 1 ==> all[i] == kids[i])
  {
    var ks := kids[..j] + [a] + kids[j + 2..];
    assert ks[..j] == kids[..j];
    assert ks[j + 1..] == kids[j + 2..];
  }
}

/** What `BTree::delete` and `rebalance` (`src/btree/tree.rs`) do to a table, and when they go through. */
module Deleting {
  import opened Common
  import opened Schemas
  import opened Pages
  import opened Balancing
  import opened Borrowing
  import opened Trees
  import opened Stores
  import opened Focus
  import opened Splitting
  import opened Accounting
  import opened Inserting
  import opened Inserts
  import opened Joining
  import opened Rebalancing
  import opened Recutting

  // ------------------------------------------------------------------------- siblings

  datatype Side = OnLeft | OnRight

  datatype Sibling = Sibling(id: PageId, separator: Key, side: Side)

  /** `pick_sibling`: the right neighbour if there is one, else the left. */
  function PickSibling(parent: Page, idx: nat): Option<Sibling> {
    if !parent.body.Internal? then None
    else
      var keys, children := parent.body.keys, parent.body.children;
      if idx + 1 < |children| && idx < |keys| then Some(Sibling(children[idx + 1], keys[idx], OnRight))
      else if 1 <= idx <= |children| && idx <= |keys| then Some(Sibling(children[idx - 1], keys[idx - 1], OnLeft))
      else None
  }

  /** The position of the pair that the focus forms with its chosen sibling. */
  function PairIndex(c: Ctx): nat
    requires c.Down?
  {
    if c.right != [] || c.left == [] then |c.left| else |c.left| - 1
  }

  /** A page with at least one key has a sibling for each child. */
  lemma {:induction false} SiblingFound(p: Page, c: Ctx, t: Tree)
    requires c.Down? && |c.left| + |c.right| == |c.keys| && |c.keys| >= 1
    requires p.body == Internal(c.keys, RootIds(c.left + [t] + c.right))
    ensures var j, kids := PairIndex(c), c.left + [t] + c.right;
      && j < |c.keys|
      && PickSibling(p, |c.left|) ==
         Some(Sibling(kids[if c.right != [] then j + 1 else j].id, c.keys[j],
                      if c.right != [] then OnRight else OnLeft))
      && kids[if c.right != [] then j else j + 1] == t
  {
  }

  /** A page without keys has none. */
  lemma {:induction false} NoSibling(p: Page, c: Ctx, t: Tree)
    requires c.Down? && |c.left| + |c.right| == |c.keys| && c.keys == []
    requires p.body == Internal(c.keys, RootIds(c.left + [t] + c.right))
    ensures PickSibling(p, |c.left|) == None && PairIndex(c) >= |c.keys|
  {
  }

  // -------------------------------------------------------------------- held ancestors

  predicate DeleteSafeKeys(keys: seq<Key>) {
    KeyBytes(keys) + MAX_INTERNAL_ENTRY_SIZE <= INTERNAL_USABLE
    && INTERNAL_UNDERFULL_BYTES + MAX_INTERNAL_ENTRY_SIZE <= KeyBytes(keys)
  }

  /** The stack `anc` holds the pages right above the focus with the child positions taken. Where it
      ends, the page just below is the root or `safe`: losing a key does not make it underfull. */
  ghost predicate DeleteHeld(c: Ctx, anc: seq<(PageId, nat)>, safe: bool)
    decreases |anc|
  {
    if anc == [] then c.Top? || safe
    else
      c.Down? && anc[|anc| - 1] == (c.id, |c.left|) && DeleteHeld(c.up, anc[..|anc| - 1], DeleteSafeKeys(c.keys))
  }

  lemma {:induction false} DeleteHeldWithin(c: Ctx, anc: seq<(PageId, nat)>, safe: bool, pages: Store, hole: PageId)
    requires DeleteHeld(c, anc, safe) && RepCtx(pages, c, hole)
    ensures forall x :: x in anc ==> x.0 in CtxIds(c) && x.0 in pages && pages[x.0].body.Internal?
    decreases |anc|
  {
    hide DeleteSafeKeys, RepAll, RootIds;
    if anc != [] {
      DeleteHeldWithin(c.up, anc[..|anc| - 1], DeleteSafeKeys(c.keys), pages, c.id);
      assert anc == anc[..|anc| - 1] + [(c.id, |c.left|)];
    }
  }

  lemma {:induction false} DeleteHeldWeaken(c: Ctx, anc: seq<(PageId, nat)>, safe: bool, safe': bool)
    requires DeleteHeld(c, anc, safe) && (safe ==> safe')
    ensures DeleteHeld(c, anc, safe')
  {
  }

  /** Losing a key leaves a delete-safe page at or above the threshold. */
  lemma {:induction false} SafeLoses(keys: seq<Key>, j: nat, id: PageId, kids: seq<Tree>)
    requires DeleteSafeKeys(keys) && j < |keys| && InternalEntrySize(keys[j]) <= MAX_INTERNAL_ENTRY_SIZE
    requires KeyBytes(Without(keys, j)) + InternalEntrySize(keys[j]) == KeyBytes(keys)
    ensures !UnderfullTree(NodeT(id, Without(keys, j), kids))
  {
    hide KeyBytes, InternalEntrySize;
  }

  // ----------------------------------------------------------- when rebalancing succeeds

  function TreeSizes(l: Tree, sep: Key, r: Tree): seq<nat> {
    match (l, r)
    case (LeafT(_, a), LeafT(_, b)) => RowSizes(a + b)
    case (NodeT(_, a, _), NodeT(_, b, _)) => KeySizes(a + [sep] + b)
    case _ => []
  }

  function TreeGap(l: Tree): nat { if l.LeafT? then 0 else 1 }

  function TreeCount(l: Tree): nat { if l.LeafT? then |l.rows| else |l.keys| }

  /** Where borrowing cuts the pair: the first balanced place on the way from the old cut. */
  function TreeCut(l: Tree, sep: Key, r: Tree, side: Side): nat {
    var z, g, n := TreeSizes(l, sep, r), TreeGap(l), TreeCount(l);
    if n + g > |z| then 0
    else if side.OnRight? then BalanceUp(z, g, n) else BalanceDown(z, g, n)
  }

  /** The key that moves up when the pair is cut at `k`. */
  function CutKey(l: Tree, sep: Key, r: Tree, k: nat): Key {
    match (l, r)
    case (LeafT(_, a), LeafT(_, b)) => if k < |a + b| then RowKey((a + b)[k]) else sep
    case (NodeT(_, a, _), NodeT(_, b, _)) => if k < |a + [sep] + b| then (a + [sep] + b)[k] else sep
    case _ => sep
  }

  function MergedParent(p: Tree, j: nat): Tree
    requires p.NodeT? && |p.kids| == |p.keys| + 1 && j < |p.keys|
  {
    NodeT(p.id, Without(p.keys, j), p.kids[..j] + [Joined(p.kids[j], p.keys[j], p.kids[j + 1])] + p.kids[j + 2..])
  }

  /** Whether rebalancing upwards from `t` in `c` ends well. Merges move the question to the page above;
      a borrow ends it, well exactly when the page above has room for the new separator in place of
      the old one. */
  predicate RebalanceFits(c: Ctx, t: Tree)
    decreases c
  {
    if c.Top? || !UnderfullTree(t) then true
    else
      var p := Enclosing(c, t);
      var j := PairIndex(c);
      if |p.kids| != |p.keys| + 1 || j >= |p.keys| then false
      else
        var l, sep, r := p.kids[j], p.keys[j], p.kids[j + 1];
        if FitsJoined(l, sep, r) then RebalanceFits(c.up, MergedParent(p, j))
        else
          var k := TreeCut(l, sep, r, if c.right != [] then OnRight else OnLeft);
          KeyBytes(Without(p.keys, j)) + InternalEntrySize(CutKey(l, sep, r, k)) <= INTERNAL_USABLE
  }

  /** Whether rebalancing upwards from `t` in `c` comes to an underfull page without a sibling. */
  predicate RebalancePanics(c: Ctx, t: Tree)
    decreases c
  {
    if c.Top? || !UnderfullTree(t) then false
    else
      var p := Enclosing(c, t);
      var j := PairIndex(c);
      if |p.kids| != |p.keys| + 1 || j >= |p.keys| then true
      else FitsJoined(p.kids[j], p.keys[j], p.kids[j + 1]) && RebalancePanics(c.up, MergedParent(p, j))
  }

  /** The borrow that ends rebalancing upwards from `t` in `c` in a failure: the separator that stays in the
      page above, and the one that has no room there. */
  function FailedBorrow(c: Ctx, t: Tree): Option<(Key, Key)>
    decreases c
  {
    if c.Top? || !UnderfullTree(t) then None
    else
      var p := Enclosing(c, t);
      var j := PairIndex(c);
      if |p.kids| != |p.keys| + 1 || j >= |p.keys| then None
      else
        var l, sep, r := p.kids[j], p.keys[j], p.kids[j + 1];
        if FitsJoined(l, sep, r) then FailedBorrow(c.up, MergedParent(p, j))
        else
          var sep' := CutKey(l, sep, r, TreeCut(l, sep, r, if c.right != [] then OnRight else OnLeft));
          if KeyBytes(Without(p.keys, j)) + InternalEntrySize(sep') <= INTERNAL_USABLE then None
          else Some((sep, sep'))
  }

  /** A separator that does not fit in the place of another is another one. */
  lemma {:induction false} UnfitDiffers(keys: seq<Key>, j: nat, sep': Key)
    requires j < |keys| && KeyBytes(keys) <= INTERNAL_USABLE
    requires KeyBytes(Without(keys, j)) + InternalEntrySize(sep') > INTERNAL_USABLE
    ensures sep' != keys[j]
  {
    hide InternalEntrySize, KeyBytes;
    assert keys == keys[..j] + [keys[j]] + keys[j + 1..];
    KeyBytesAppend(keys[..j] + [keys[j]], keys[j + 1..]);
    KeyBytesAppend(keys[..j], [keys[j]]);
    KeyBytesAppend(keys[..j], keys[j + 1..]);
    KeyBytesOne(keys[j]);
  }

  lemma {:induction false} CutOnPages(pl: Page, l: Tree, sep: Key, pr: Page, r: Tree)
    requires PairPages(pl, l, pr, r) && Starved(pl, sep, pr)
    ensures CutUp(pl, sep, pr) == TreeCut(l, sep, r, OnRight) && CutDown(pl, sep, pr) == TreeCut(l, sep, r, OnLeft)
    ensures JoinedCount(l, r) == |PairSizes(pl, sep, pr)|
  {
    hide BalanceUp, BalanceDown, LeafUnmergeable, InternalUnmergeable, RowSizes, KeySizes, Sorted, RootIds;
    hide LeafEntrySize, InternalEntrySize;
    PairStart(pl, sep, pr);
  }

  lemma {:induction false} CutKeyIs(l: Tree, sep: Key, r: Tree, k: nat)
    requires k < JoinedCount(l, r) && (l.NodeT? ==> |l.kids| == |l.keys| + 1) && (r.NodeT? ==> |r.kids| == |r.keys| + 1)
    ensures CutKey(l, sep, r, k) == Recut(l, sep, r, k).1
  {
  }

  // ------------------------------------------------------------------------ merge step

  lemma {:induction false} SpaceMerged(pages: Store, m: PageId, used: multiset<PageId>, fl: seq<PageId>, lp: Page,
                                       rp: Page, pp: Page)
    requires Space(pages, m, used, fl) && lp.id in used && rp.id in used && pp.id in used
    requires lp.body.Leaf? && lp.body.next.Some? ==> lp.body.next.value in used
    ensures var pages' := MergedStore(pages, lp, rp, pp);
      Space(pages', m, used, fl) && m in pages && m in pages' && pages'[m] == pages[m]
  {
    hide Space;
    SpaceGivesDistinct(pages, m, used, fl);
    SpacePut(pages, m, used, fl, lp.id, lp);
    SpacePut(pages[lp.id := lp], m, used, fl, rp.id, rp);
    SpacePut(pages[lp.id := lp][rp.id := rp], m, used, fl, pp.id, pp);
    var pages3 := pages[lp.id := lp][rp.id := rp][pp.id := pp];
    if lp.body.Leaf? && lp.body.next.Some? && pages3[lp.body.next.value].body.Leaf? {
      var n := lp.body.next.value;
      SpacePut(pages3, m, used, fl, n, pages3[n].(body := pages3[n].body.(prev := Some(lp.id))));
    }
  }

  lemma {:induction false} NodeSorted(s: Schema, t: Tree, lo: Option<Key>, hi: Option<Key>, h: nat)
    requires Wf(s, t, lo, hi, h) && t.NodeT?
    ensures Sorted(t.keys) && |t.kids| == |t.keys| + 1 && KeyBytes(t.keys) <= INTERNAL_USABLE && h > 0
  {
  }

  /** The pages of a merge, and that they spell out the merged tree. */
  lemma {:induction false} MergeState(s: Schema, pages: Store, m: PageId, up: Ctx, p: Tree, h: nat, fl: seq<PageId>,
                                      j: nat)
    requires Sound(s, pages, m, up, p, h + 1, fl) && p.NodeT? && j < |p.keys|
    ensures |p.kids| == |p.keys| + 1
    ensures var l, sep, r := p.kids[j], p.keys[j], p.kids[j + 1]; var c := PairCtx(up, p, j);
      && l.id in pages && r.id in pages && p.id in pages
      && (CanMergeWith(pages[l.id], pages[r.id], sep) <==> FitsJoined(l, sep, r))
      && (FitsJoined(l, sep, r) ==>
          && MergeFromRight(pages[l.id], pages[r.id], sep).Ok? && InternalRemove(pages[p.id], sep).Ok?
          && var (lp, rp) := MergeFromRight(pages[l.id], pages[r.id], sep).value;
             var (pp, removed) := InternalRemove(pages[p.id], sep).value;
             && removed == Some((sep, r.id)) && rp == pages[r.id].(body := Free(None))
             && lp.id == l.id && rp.id == r.id && pp.id == p.id
             && Shape(s, MergedStore(pages, lp, rp, pp), c, Joined(l, sep, r), h)
             && Space(MergedStore(pages, lp, rp, pp), m, CtxIds(up) + Ids(p), fl)
             && (lp.body.Leaf? && lp.body.next.Some? ==>
                 var n := lp.body.next.value;
                 n in CtxIds(c) && n != p.id && n != l.id && n != r.id && n in pages && pages[n].body.Leaf?
                   && pages[n].id == n))
  {
    hide Wf, CtxWf, RepCtx, RepT, RepAll, Chain, LeafBytes, KeyBytes, CtxIds, Ids, IdsOf, Lo, Hi, Above, Below;
    hide ValidKey, PairLeaves, AllLeaves, RootIds;
    hide FitsJoined, FitsTree, LeafPair, InternalPair, CanMergeWith, Space, InternalEntrySize, Sorted, MergeFromRight;
    hide InternalRemove, MergedStore, Without, Joined;
    TakeApart(s, pages, up, p, h, j);
    ApartParts(up, p, j);
    var l, sep, r := p.kids[j], p.keys[j], p.kids[j + 1];
    var c := PairCtx(up, p, j);
    ApartPages(s, pages, c, l, sep, r, h);
    RepNode(pages, p);
    MergeSpelled(pages[l.id], l, sep, pages[r.id], r);
    if FitsJoined(l, sep, r) {
      NodeSorted(s, p, Lo(up), Hi(up), h + 1);
      RemoveSpelled(pages[p.id], p, j);
      var used := CtxIds(up) + Ids(p);
      SpaceGivesDistinct(pages, m, used, fl);
      var (lp, rp) := MergeFromRight(pages[l.id], pages[r.id], sep).value;
      var (pp, removed) := InternalRemove(pages[p.id], sep).value;
      JoinFits(l, sep, r);
      MergeApart(s, pages, c, l, sep, r, h, lp, rp, pp);
      MergeNext(pages, c, l, r, lp, rp, pp);
      PairIdsIn(c, l, r);
      SpaceMerged(pages, m, used, fl, lp, rp, pp);
    }
  }

  lemma {:induction false} JoinFits(l: Tree, sep: Key, r: Tree)
    requires FitsJoined(l, sep, r)
    ensures l.LeafT? <==> r.LeafT?
    ensures l.LeafT? ==> LeafBytes(l.rows + r.rows) <= LEAF_USABLE
    ensures l.NodeT? ==> KeyBytes(l.keys + [sep] + r.keys) <= INTERNAL_USABLE
  {
  }

  lemma {:induction false} PairIdsIn(c: Ctx, l: Tree, r: Tree)
    requires c.Down?
    ensures var used := CtxIds(c) + Ids(l) + Ids(r); c.id in used && l.id in used && r.id in used
    ensures forall x :: x in CtxIds(c) ==> x in CtxIds(c) + Ids(l) + Ids(r)
  {
    hide CtxIds, Ids;
    CtxIdIn(c);
    RootIdIn(l);
    RootIdIn(r);
  }

  lemma {:induction false} MergeNext(pages: Store, c: Ctx, l: Tree, r: Tree, lp: Page, rp: Page, pp: Page)
    requires c.Down? && Chain(pages, PairLeaves(c, l, r)) && Distinct(CtxIds(c) + Ids(l) + Ids(r))
    requires (l.LeafT? <==> r.LeafT?)
    requires l.id in pages && r.id in pages && lp.id == l.id && rp.id == r.id && pp.id == c.id
    requires l.LeafT? ==>
      pages[l.id].body.Leaf? && pages[r.id].body.Leaf? && lp.body.Leaf? && lp.body.next == pages[r.id].body.next
        && lp.body.prev == pages[l.id].body.prev
    requires l.NodeT? ==> lp.body.Internal?
    ensures lp.body.Leaf? && lp.body.next.Some? ==>
      var n := lp.body.next.value;
      n in CtxIds(c) && n != c.id && n != l.id && n != r.id && n in pages && pages[n].body.Leaf? && pages[n].id == n
  {
    hide Chain, PairLeaves, CtxIds, AllLeaves;
    if l.LeafT? {
      MergeLeafChain(pages, c, l, r, l, lp, rp, pp);
      assert forall x :: (CtxIds(c) + Ids(l) + Ids(r))[x] == CtxIds(c)[x] + Ids(l)[x] + Ids(r)[x];
    }
  }

  /** After the right page went to the free list: the merged child in its page, focus on that page. */
  lemma {:induction false} MergeDone(s: Schema, pages: Store, pages': Store, m: PageId, up: Ctx, p: Tree, h: nat,
                                     fl: seq<PageId>, fl': seq<PageId>, j: nat)
    requires Sound(s, pages, m, up, p, h + 1, fl) && p.NodeT? && j < |p.keys| && |p.kids| == |p.keys| + 1
    requires var l, sep, r := p.kids[j], p.keys[j], p.kids[j + 1]; var c := PairCtx(up, p, j);
      && FitsJoined(l, sep, r)
      && Shape(s, pages', c, Joined(l, sep, r), h)
      && Space(pages', m, CtxIds(up) + Ids(p) - multiset{r.id}, fl') && MetaNames(pages', m, RootOf(up, p.id), s)
    ensures Sound(s, pages', m, up, MergedParent(p, j), h + 1, fl')
    ensures RowsOf(AllLeaves(up, MergedParent(p, j))) == RowsOf(AllLeaves(up, p))
  {
    hide Shape, Space, CtxIds, Ids, AllLeaves, PairLeaves, RowsOf, FitsJoined, Without, Joined;
    var l, sep, r := p.kids[j], p.keys[j], p.kids[j + 1];
    var c := PairCtx(up, p, j);
    JoinFits(l, sep, r);
    ApartParts(up, p, j);
    JoinedParts(c, l, sep, r);
    MergedIds(CtxIds(up) + Ids(p), CtxIds(c), Ids(l), Ids(r), Ids(Joined(l, sep, r)), r.id);
    FocusUp(s, pages', m, c, Joined(l, sep, r), h, fl');
  }

  lemma {:induction false} MergedIds(used: multiset<PageId>, c: multiset<PageId>, l: multiset<PageId>,
                                     r: multiset<PageId>, t: multiset<PageId>, id: PageId)
    requires used == c + l + r && t + multiset{id} == l + r
    ensures used - multiset{id} == c + t
  {
    assert used == c + (l + r);
    assert used == c + t + multiset{id};
  }

  // ----------------------------------------------------------------------- borrow step

  /** The page above, with the pair cut at `k` and the new separator in place. */
  function BorrowedParent(p: Tree, j: nat, k: nat): Tree
    requires p.NodeT? && |p.kids| == |p.keys| + 1 && j < |p.keys| && k < JoinedCount(p.kids[j], p.kids[j + 1])
    requires p.kids[j].NodeT? ==> |p.kids[j].kids| == |p.kids[j].keys| + 1
    requires p.kids[j + 1].NodeT? ==> |p.kids[j + 1].kids| == |p.kids[j + 1].keys| + 1
  {
    var (a, sep, b) := Recut(p.kids[j], p.keys[j], p.kids[j + 1], k);
    WithKid(p.id, Without(p.keys, j), p.kids[..j] + [a] + p.kids[j + 2..], j, a, sep, b)
  }

  /** What borrowing does to the two pages. */
  lemma {:induction false} BorrowPages(pl: Page, l: Tree, sep: Key, pr: Page, r: Tree, side: Side)
    requires PairPages(pl, l, pr, r) && FitsTree(l) && FitsTree(r) && !FitsJoined(l, sep, r)
    requires InternalEntrySize(sep) <= MAX_INTERNAL_ENTRY_SIZE
    requires l.LeafT? ==> LeafPair(pl, pr)
    requires l.NodeT? ==> InternalPair(pl, sep, pr)
    requires side.OnRight? ==> UnderfullTree(l)
    requires side.OnLeft? ==> UnderfullTree(r)
    ensures Starved(pl, sep, pr)
    ensures side.OnRight? ==> LighterLeft(pl, sep, pr) && CutUp(pl, sep, pr) == TreeCut(l, sep, r, side)
    ensures side.OnLeft? ==> LighterRight(pl, sep, pr) && CutDown(pl, sep, pr) == TreeCut(l, sep, r, side)
    ensures var k := TreeCut(l, sep, r, side);
      && 0 < k < JoinedCount(l, r) == |PairSizes(pl, sep, pr)|
      && var (a, b, sp) := PairAt(pl, sep, pr, k); var (ta, s', tb) := Recut(l, sep, r, k);
         && sp == s' == CutKey(l, sep, r, k) && Holds(a, ta, pl) && Holds(b, tb, pr) && FitsTree(ta) && FitsTree(tb)
         && 1 <= NumItems(a) && 1 <= NumItems(b)
         && (side.OnRight? ==> !IsUnderfull(a)) && (side.OnLeft? ==> !IsUnderfull(b))
  {
    hide FitsTree, FitsJoined, LeafPair, InternalPair, UnderfullTree, Starved, PairSizes, PairAt, Recut, Holds, TreeCut;
    hide CutKey, FitsPage, IsUnderfull, NumItems, CutUp, CutDown, EntriesSize;
    StarvedPair(pl, l, sep, pr, r);
    CutOnPages(pl, l, sep, pr, r);
    if side.OnRight? {
      BorrowOutcomeUp(pl, sep, pr);
    } else {
      BorrowOutcomeDown(pl, sep, pr);
    }
    var k := TreeCut(l, sep, r, side);
    CutSpelled(pl, l, sep, pr, r, k);
    CutKeyIs(l, sep, r, k);
  }

  lemma {:induction false} IntKeysWeighTheSame(s: Schema, a: Key, b: Key)
    requires ValidKey(s, a) && ValidKey(s, b) && IntKeyed(s)
    ensures InternalEntrySize(a) == InternalEntrySize(b)
  {
  }

  /** A borrow ends rebalancing: soundly if the page above has room for the new separator; otherwise
      the entries have moved and the separator has not. With integer keys there is always room. */
  lemma {:induction false} BorrowState(s: Schema, pages: Store, m: PageId, up: Ctx, p: Tree, h: nat, fl: seq<PageId>,
                                       j: nat, side: Side)
    requires Sound(s, pages, m, up, p, h + 1, fl) && p.NodeT? && j < |p.keys| && |p.kids| == |p.keys| + 1
    requires var l, sep, r := p.kids[j], p.keys[j], p.kids[j + 1];
      !FitsJoined(l, sep, r) && (side.OnRight? ==> UnderfullTree(l)) && (side.OnLeft? ==> UnderfullTree(r))
    ensures var l, sep, r := p.kids[j], p.keys[j], p.kids[j + 1]; var k := TreeCut(l, sep, r, side);
      && l.id in pages && r.id in pages && p.id in pages && l.id != p.id && r.id != p.id
      && Starved(pages[l.id], sep, pages[r.id])
      && (side.OnRight? ==> LighterLeft(pages[l.id], sep, pages[r.id]) && CutUp(pages[l.id], sep, pages[r.id]) == k)
      && (side.OnLeft? ==> LighterRight(pages[l.id], sep, pages[r.id]) && CutDown(pages[l.id], sep, pages[r.id]) == k)
      && 0 < k < JoinedCount(l, r) == |PairSizes(pages[l.id], sep, pages[r.id])|
      && (l.NodeT? ==> |l.kids| == |l.keys| + 1) && (r.NodeT? ==> |r.kids| == |r.keys| + 1)
      && var (a, b, sp) := PairAt(pages[l.id], sep, pages[r.id], k);
         && a.id == l.id && b.id == r.id && 1 <= NumItems(a) && 1 <= NumItems(b)
         && Holds(a, Recut(l, sep, r, k).0, pages[l.id]) && Holds(b, Recut(l, sep, r, k).2, pages[r.id])
         && sp == CutKey(l, sep, r, k) == Recut(l, sep, r, k).1
         && (var (ta, _, tb) := Recut(l, sep, r, k);
             Apart(s, pages[l.id := a][r.id := b], PairCtx(up, p, j), ta, sp, tb, h))
         && Space(pages[l.id := a][r.id := b], m, CtxIds(up) + Ids(p), fl) && m in pages && m != l.id && m != r.id
         && var fits := KeyBytes(Without(p.keys, j)) + InternalEntrySize(sp) <= INTERNAL_USABLE;
            && (IntKeyed(s) ==> fits)
            && (!fits ==> InternalReplaceKey(pages[p.id], sep, sp) == Err(PageFull))
            && (fits ==>
                && InternalReplaceKey(pages[p.id], sep, sp).Ok?
                && InternalReplaceKey(pages[p.id], sep, sp).value.id == p.id
                && (var pp := InternalReplaceKey(pages[p.id], sep, sp).value;
                    Sound(s, pages[l.id := a][r.id := b][p.id := pp], m, up, BorrowedParent(p, j, k), h + 1, fl))
                && RowsOf(AllLeaves(up, BorrowedParent(p, j, k))) == RowsOf(AllLeaves(up, p)))
  {
    hide Wf, CtxWf, RepCtx, RepT, RepAll, Chain, LeafBytes, KeyBytes, CtxIds, Ids, IdsOf, Lo, Hi, Above, Below;
    hide ValidKey, PairLeaves, AllLeaves, RootIds;
    hide FitsJoined, FitsTree, LeafPair, InternalPair, Space, InternalEntrySize, Sorted, InternalReplaceKey, Starved;
    hide PairSizes, PairAt, TreeCut, CutKey, UnderfullTree;
    hide Recut, Holds, NumItems, KidLo, KidHi, LighterLeft, LighterRight, RowsOf, WithKid, IsUnderfull, CutUp, CutDown;
    hide Without, ReplacementFits;
    TakeApart(s, pages, up, p, h, j);
    ApartParts(up, p, j);
    var l, sep, r := p.kids[j], p.keys[j], p.kids[j + 1];
    var c := PairCtx(up, p, j);
    ApartPages(s, pages, c, l, sep, r, h);
    RepNode(pages, p);
    BorrowPages(pages[l.id], l, sep, pages[r.id], r, side);
    var k := TreeCut(l, sep, r, side);
    var (a, b, sp) := PairAt(pages[l.id], sep, pages[r.id], k);
    var used := CtxIds(up) + Ids(p);
    SpaceGivesDistinct(pages, m, used, fl);
    ApartIds(c, l, r, l.id);
    HoldsId(a, Recut(l, sep, r, k).0, pages[l.id]);
    HoldsId(b, Recut(l, sep, r, k).2, pages[r.id]);
    RecutParts(c, l, sep, r, k);
    RecutApart(s, pages, c, l, sep, r, h, k, a, b);
    PairIdsIn(c, l, r);
    SpacePut(pages, m, used, fl, l.id, a);
    SpacePut(pages[l.id := a], m, used, fl, r.id, b);
    BorrowEnd(s, pages, m, up, p, h, fl, j, k, a, b);
  }

  lemma {:induction false} HoldsId(p: Page, t: Tree, old_: Page)
    requires Holds(p, t, old_)
    ensures p.id == t.id
  {
  }

  lemma {:induction false} BorrowEnd(s: Schema, pages: Store, m: PageId, up: Ctx, p: Tree, h: nat, fl: seq<PageId>,
                                     j: nat, k: nat, a: Page, b: Page)
    requires Sound(s, pages, m, up, p, h + 1, fl) && p.NodeT? && j < |p.keys| && |p.kids| == |p.keys| + 1
    requires var l, sep, r := p.kids[j], p.keys[j], p.kids[j + 1];
      && k < JoinedCount(l, r) && (l.NodeT? ==> |l.kids| == |l.keys| + 1) && (r.NodeT? ==> |r.kids| == |r.keys| + 1)
      && l.id in pages && r.id in pages && l.id != p.id && r.id != p.id
      && var (ta, s', tb) := Recut(l, sep, r, k);
         Apart(s, pages[l.id := a][r.id := b], PairCtx(up, p, j), ta, s', tb, h) && ta.id == l.id && tb.id == r.id
    ensures p.id in pages
    ensures var l, sep, r := p.kids[j], p.keys[j], p.kids[j + 1]; var sp := Recut(l, sep, r, k).1;
      var fits := KeyBytes(Without(p.keys, j)) + InternalEntrySize(sp) <= INTERNAL_USABLE;
      && (IntKeyed(s) ==> fits)
      && (!fits ==> InternalReplaceKey(pages[p.id], sep, sp) == Err(PageFull))
      && (fits ==>
          && InternalReplaceKey(pages[p.id], sep, sp).Ok? && InternalReplaceKey(pages[p.id], sep, sp).value.id == p.id
          && (var pp := InternalReplaceKey(pages[p.id], sep, sp).value;
              Sound(s, pages[l.id := a][r.id := b][p.id := pp], m, up, BorrowedParent(p, j, k), h + 1, fl))
          && RowsOf(AllLeaves(up, BorrowedParent(p, j, k))) == RowsOf(AllLeaves(up, p)))
  {
    hide Wf, CtxWf, RepCtx, RepT, RepAll, Chain, LeafBytes, KeyBytes, CtxIds, Ids, IdsOf, Lo, Hi, Above, Below;
    hide ValidKey, PairLeaves, AllLeaves, RootIds;
    hide Space, InternalEntrySize, Sorted, InternalReplaceKey, Recut, KidLo, KidHi, RowsOf, WithKid, Without;
    hide ReplacementFits;
    var l, sep, r := p.kids[j], p.keys[j], p.kids[j + 1];
    var (ta, sp, tb) := Recut(l, sep, r, k);
    var c := PairCtx(up, p, j);
    PairWf(s, up, p, h, j);
    NodeSorted(s, p, Lo(up), Hi(up), h + 1);
    RepNode(pages, p);
    ReplaceSpelled(pages[p.id], p, j, sp, ta, tb, Lo(up), Hi(up));
    ApartParts(up, p, j);
    RecutParts(c, l, sep, r, k);
    if IntKeyed(s) {
      IntKeysWeighTheSame(s, sep, sp);
    }
    if KeyBytes(Without(p.keys, j)) + InternalEntrySize(sp) <= INTERNAL_USABLE {
      var used := CtxIds(up) + Ids(p);
      assert CtxIds(c) + Ids(ta) + Ids(tb) == used by {
        assert CtxIds(c) + Ids(l) + Ids(r) == CtxIds(c) + (Ids(l) + Ids(r));
        assert CtxIds(c) + Ids(ta) + Ids(tb) == CtxIds(c) + (Ids(ta) + Ids(tb));
      }
      SpaceGivesDistinct(pages, m, used, fl);
      PairIdsIn(c, l, r);
      SpacePut(pages, m, used, fl, l.id, a);
      SpacePut(pages[l.id := a], m, used, fl, r.id, b);
      var pages2, pp := pages[l.id := a][r.id := b], InternalReplaceKey(pages[p.id], sep, sp).value;
      SpacePut(pages2, m, used, fl, p.id, pp);
      WithKidId(c, ta, sp, tb);
      EnterApart(s, pages2, c, ta, sp, tb, h, pp);
    }
  }

  // --------------------------------------------------------------- the whole deletion

  /** The leaf that a key is routed to, and where it sits. */
  function RoutedLeaf(c: Ctx, t: Tree, k: Key): (Ctx, Tree)
    decreases t
  {
    if t.LeafT? || FindChildIndex(t.keys, k) >= |t.kids| then (c, t)
    else
      var i := FindChildIndex(t.keys, k);
      RoutedLeaf(KidCtx(c, t, i), t.kids[i], k)
  }

  function RowsWithout(rows: seq<Row>, i: nat): seq<Row>
    requires i < |rows|
  {
    rows[..i] + rows[i + 1..]
  }

  /** Whether deleting `k` from the leaf in focus goes through. */
  predicate LeafDeleteFits(c: Ctx, t: Tree, k: Key) {
    t.LeafT? ==>
      match Search(RecordKeys(t.rows), k)
      case Hit(i) => RebalanceFits(c, LeafT(t.id, RowsWithout(t.rows, i)))
      case Miss(_) => true
  }

  /** Whether deleting `k` from this tree goes through: no borrow on the way up meets a parent that
      has no room for the new separator. */
  predicate DeleteFits(t: Tree, k: Key) {
    var (c, l) := RoutedLeaf(Top, t, k);
    LeafDeleteFits(c, l, k)
  }

  /** Whether deleting `k` comes to an underfull page without a sibling: on the way up, past merges only,
      there is an internal page without keys. */
  predicate DeletePanics(t: Tree, k: Key) {
    var (c, l) := RoutedLeaf(Top, t, k);
    LeafDeletePanics(c, l, k)
  }

  predicate LeafDeletePanics(c: Ctx, t: Tree, k: Key) {
    t.LeafT? &&
      match Search(RecordKeys(t.rows), k)
      case Hit(i) => RebalancePanics(c, LeafT(t.id, RowsWithout(t.rows, i)))
      case Miss(_) => false
  }

  /** The borrow at which deleting `k` fails, if it does: the old separator and the one that does not fit. */
  function FailedDelete(t: Tree, k: Key): Option<(Key, Key)> {
    var (c, l) := RoutedLeaf(Top, t, k);
    LeafFailedDelete(c, l, k)
  }

  function LeafFailedDelete(c: Ctx, t: Tree, k: Key): Option<(Key, Key)> {
    if t.NodeT? then None
    else
      match Search(RecordKeys(t.rows), k)
      case Hit(i) => FailedBorrow(c, LeafT(t.id, RowsWithout(t.rows, i)))
      case Miss(_) => None
  }

  lemma {:induction false} RouteStep(c: Ctx, t: Tree, k: Key)
    requires t.NodeT? && FindChildIndex(t.keys, k) < |t.kids|
    ensures var i := FindChildIndex(t.keys, k); RoutedLeaf(c, t, k) == RoutedLeaf(KidCtx(c, t, i), t.kids[i], k)
  {
  }

  lemma {:induction false} RouteEnd(c: Ctx, t: Tree, k: Key)
    requires t.LeafT?
    ensures RoutedLeaf(c, t, k) == (c, t)
  {
  }

  /** A leaf that loses a row is still a leaf in the same range. */
  lemma {:induction false} LeafRemoveOk(s: Schema, rows: seq<Row>, lo: Option<Key>, hi: Option<Key>, i: nat)
    requires LeafOk(s, rows, lo, hi) && i < |rows|
    ensures LeafOk(s, RowsWithout(rows, i), lo, hi)
  {
    hide ValidRow, KeyLess, LeafBytes, LeafEntrySize, RowKey;
    var rest := RowsWithout(rows, i);
    assert rows == rows[..i] + [rows[i]] + rows[i + 1..];
    LeafBytesMiddle(rows[..i], rows[i], rows[i + 1..]);
    forall j | 0 <= j < |rest|
      ensures rest[j] == rows[if j < i then j else j + 1]
    {
    }
    forall a, b | 0 <= a < b < |rest|
      ensures KeyLess(RecordKeys(rest)[a], RecordKeys(rest)[b])
    {
      assert KeyLess(RecordKeys(rows)[if a < i then a else a + 1], RecordKeys(rows)[if b < i then b else b + 1]);
    }
  }

  /** The page test `is_delete_safe` on an internal page. */
  lemma {:induction false} SafePage(p: Page, keys: seq<Key>, children: seq<PageId>)
    requires p.body == Internal(keys, children)
    ensures IsDeleteSafe(p) <==> DeleteSafeKeys(keys)
  {
    hide KeyBytes;
  }

  /** Pushing the page in focus before going down to child `i`; a delete-safe page lets go of the
      pages above it. */
  lemma {:induction false} DeleteHeldPush(c: Ctx, t: Tree, anc: seq<(PageId, nat)>, i: nat)
    requires t.NodeT? && i < |t.kids| && DeleteHeld(c, anc, false)
    ensures var anc' := if DeleteSafeKeys(t.keys) then [] else anc;
      DeleteHeld(KidCtx(c, t, i), anc' + [(t.id, i)], false)
  {
    hide DeleteSafeKeys;
    var anc' := if DeleteSafeKeys(t.keys) then [] else anc;
    var anc2 := anc' + [(t.id, i)];
    assert anc2[..|anc2| - 1] == anc';
    if !DeleteSafeKeys(t.keys) {
      DeleteHeldWeaken(c, anc, false, DeleteSafeKeys(t.keys));
    }
  }
}

/** `BTree::delete` and `rebalance` (`src/btree/tree.rs`) as imperative code over latched pages. */
module DeleteMethods {
  import opened Common
  import opened Schemas
  import opened Pages
  import opened Borrowing
  import opened Trees
  import opened Stores
  import opened Focus
  import opened Contents
  import opened StoredRows
  import opened Accounting
  import opened Tables
  import opened Inserting
  import opened Inserts
  import opened InsertMethods
  import opened Lookups
  import opened Joining
  import opened Rebalancing
  import opened Recutting
  import opened Deleting
  import opened Finding
  import opened Misrouting
  import opened PageCodec
  import opened Storing
  import Steps

  lemma {:induction false} UsedFacts(up: Ctx, p: Tree, j: nat)
    requires p.NodeT? && |p.kids| == |p.keys| + 1 && j < |p.keys|
    ensures var used := CtxIds(up) + Ids(p); p.id in used && p.kids[j].id in used && p.kids[j + 1].id in used
    ensures forall x :: x in CtxIds(PairCtx(up, p, j)) ==> x in CtxIds(up) + Ids(p)
  {
    hide CtxIds, Ids, AllLeaves, PairLeaves;
    ApartParts(up, p, j);
    PairIdsIn(PairCtx(up, p, j), p.kids[j], p.kids[j + 1]);
  }

  /** Merges two neighbours, takes the separator out of the page above, mends the chain and frees the
      right page. */
  method MergeStep(tb: Table, leftId: PageId, rightId: PageId, parentId: PageId, sep: Key,
                   ghost up: Ctx, ghost p: Tree, ghost h: nat, ghost j: nat)
    requires Sound(tb.schema, tb.pages, tb.m, up, p, h + 1, tb.free) && p.NodeT? && j < |p.keys|
    requires |p.kids| == |p.keys| + 1
    requires p.id == parentId && p.kids[j].id == leftId && p.kids[j + 1].id == rightId && sep == p.keys[j]
    requires leftId in tb.pages && rightId in tb.pages && CanMergeWith(tb.pages[leftId], tb.pages[rightId], sep)
    requires leftId in tb.held && rightId in tb.held && parentId in tb.held
    requires forall x :: x in tb.held ==> x in CtxIds(up) + Ids(p)
    requires forall x :: x in tb.held && x != leftId && x != rightId ==> x in tb.pages && tb.pages[x].body.Internal?
    requires tb.Logged()
    modifies tb`pages, tb`held, tb`free, tb`log
    ensures tb.Logged()
    ensures FitsJoined(p.kids[j], sep, p.kids[j + 1])
    ensures Sound(tb.schema, tb.pages, tb.m, up, MergedParent(p, j), h + 1, tb.free)
    ensures RowsOf(AllLeaves(up, MergedParent(p, j))) == RowsOf(AllLeaves(up, p))
    ensures tb.held == old(tb.held) - {leftId, rightId}
  {
    hide Encodable, Steps.Replay;
    hide Shape, Space, CtxIds, Ids, FitsJoined, CanMergeWith, MergeFromRight, InternalRemove, Joined, Without, RowsOf;
    hide AllLeaves, MergedParent, MergedStore;
    ghost var pages0, fl0, used := tb.pages, tb.free, CtxIds(up) + Ids(p);
    MergeReady(tb.schema, tb.pages, tb.m, up, p, h, tb.free, j);
    var (lp, rp) := MergeFromRight(tb.pages[leftId], tb.pages[rightId], sep).value;
    var (pp, removed) := InternalRemove(tb.pages[parentId], sep).value;
    MergedKinds(tb.pages[leftId], tb.pages[rightId], sep, tb.pages[parentId]);
    WriteMerged(tb, lp, rp, pp);
    tb.FreePage(rightId, used);
    MergeClosed(tb.schema, pages0, tb.pages, tb.m, up, p, h, fl0, tb.free, j, lp, rp, pp);
    tb.Release(leftId);
  }

  lemma {:induction false} MergedKinds(l: Page, r: Page, sep: Key, p: Page)
    requires MergeFromRight(l, r, sep).Ok? && InternalRemove(p, sep).Ok?
    ensures !l.body.Meta? && !r.body.Meta? && !p.body.Meta?
    ensures var (lp, rp) := MergeFromRight(l, r, sep).value;
      lp.lsn == l.lsn && rp.lsn == r.lsn && InternalRemove(p, sep).value.0.lsn == p.lsn
  {
    hide Search, RowKey, HasRoom, KeyLess;
  }

  /** Writes the merged page, the emptied one and the page above, and links the leaf that follows to the merged
      page. */
  method WriteMerged(tb: Table, lp: Page, rp: Page, pp: Page)
    requires tb.Logged() && lp.id in tb.pages && rp.id in tb.pages && pp.id in tb.pages
    requires lp.id in tb.held && rp.id in tb.held && pp.id in tb.held && Encodable(lp) && Encodable(rp) && Encodable(pp)
    requires !tb.pages[lp.id].body.Meta? && !tb.pages[rp.id].body.Meta? && !tb.pages[pp.id].body.Meta?
    requires lp.lsn == tb.pages[lp.id].lsn && rp.lsn == tb.pages[rp.id].lsn && pp.lsn == tb.pages[pp.id].lsn
    requires lp.id != rp.id && lp.id != pp.id && rp.id != pp.id
    requires lp.body.Leaf? && lp.body.next.Some? ==>
      var n := lp.body.next.value;
      && n in tb.pages && n !in tb.held && tb.pages[n].id == n && tb.pages[n].body.Leaf? && Encodable(tb.pages[n])
      && n != lp.id && n != rp.id && n != pp.id
    modifies tb`pages, tb`held, tb`log
    ensures tb.Logged() && tb.held == old(tb.held)
    ensures tb.pages == MergedStore(old(tb.pages), lp, rp, pp)
  {
    hide Encodable, Steps.Replay;
    tb.Put(lp.id, lp);
    tb.Put(rp.id, rp);
    tb.Put(pp.id, pp);
    if lp.body.Leaf? {
      SetPrevOf(tb, lp.body.next, lp.id);
    }
  }

  /** Everything a merge needs to know before it writes. */
  lemma {:induction false} MergeReady(s: Schema, pages: Store, m: PageId, up: Ctx, p: Tree, h: nat, fl: seq<PageId>,
                                      j: nat)
    requires Sound(s, pages, m, up, p, h + 1, fl) && p.NodeT? && |p.kids| == |p.keys| + 1 && j < |p.keys|
    requires p.kids[j].id in pages && p.kids[j + 1].id in pages
    requires CanMergeWith(pages[p.kids[j].id], pages[p.kids[j + 1].id], p.keys[j])
    ensures var l, sep, r := p.kids[j], p.keys[j], p.kids[j + 1]; var c := PairCtx(up, p, j);
      && p.id in pages && FitsJoined(l, sep, r)
      && MergeFromRight(pages[l.id], pages[r.id], sep).Ok? && InternalRemove(pages[p.id], sep).Ok?
      && var (lp, rp) := MergeFromRight(pages[l.id], pages[r.id], sep).value;
         var (pp, removed) := InternalRemove(pages[p.id], sep).value;
         && lp.id == l.id && rp == pages[r.id].(body := Free(None)) && rp.id == r.id && pp.id == p.id
         && Encodable(lp) && Encodable(rp) && Encodable(pp)
         && Space(MergedStore(pages, lp, rp, pp), m, CtxIds(up) + Ids(p), fl)
         && Shape(s, MergedStore(pages, lp, rp, pp), c, Joined(l, sep, r), h)
         && l.id != r.id && l.id != p.id && r.id != p.id
         && (forall x :: x in CtxIds(c) + Ids(Joined(l, sep, r)) ==> x in CtxIds(up) + Ids(p) && x != r.id && x != m)
         && r.id in MergedStore(pages, lp, rp, pp) && MergedStore(pages, lp, rp, pp)[r.id] == rp
         && m in MergedStore(pages, lp, rp, pp) && MergedStore(pages, lp, rp, pp)[m] == pages[m]
         && (lp.body.Leaf? && lp.body.next.Some? ==>
             var n := lp.body.next.value;
             && n in pages && pages[n].id == n && pages[n].body.Leaf? && Encodable(pages[n])
             && n != l.id && n != r.id && n != p.id)
  {
    hide Encodable, Shape, Space, CtxIds, Ids, FitsJoined, CanMergeWith;
    hide MergeFromRight, InternalRemove, Joined, Without;
    hide MergedStore, RootIds;
    var l, sep, r := p.kids[j], p.keys[j], p.kids[j + 1];
    MergeState(s, pages, m, up, p, h, fl, j);
    SpaceGivesDistinct(pages, m, CtxIds(up) + Ids(p), fl);
    OutOfTree(up, p, j);
    UsedFacts(up, p, j);
    var (lp, rp) := MergeFromRight(pages[l.id], pages[r.id], sep).value;
    var (pp, removed) := InternalRemove(pages[p.id], sep).value;
    MergeEncodable(s, pages, m, up, p, h, fl, j, lp, rp, pp);
    RightStaysFree(pages, lp, rp, pp);
    SpaceMerged(pages, m, CtxIds(up) + Ids(p), fl, lp, rp, pp);
  }

  /** After the right page went to the free list. */
  lemma {:induction false} MergeClosed(s: Schema, pages: Store, pages': Store, m: PageId, up: Ctx, p: Tree, h: nat,
                                       fl: seq<PageId>, fl': seq<PageId>, j: nat, lp: Page, rp: Page, pp: Page)
    requires Sound(s, pages, m, up, p, h + 1, fl) && p.NodeT? && |p.kids| == |p.keys| + 1 && j < |p.keys|
    requires FitsJoined(p.kids[j], p.keys[j], p.kids[j + 1])
    requires var merged, c, t := MergedStore(pages, lp, rp, pp), PairCtx(up, p, j), Joined(p.kids[j], p.keys[j],
        p.kids[j + 1]);
      && Shape(s, merged, c, t, h) && m in merged && m in pages && merged[m] == pages[m]
      && (forall x :: x in CtxIds(c) + Ids(t) ==> x != p.kids[j + 1].id && x != m)
      && (forall x :: x in merged && x != p.kids[j + 1].id && x != m ==> x in pages' && pages'[x] == merged[x])
      && Space(pages', m, CtxIds(up) + Ids(p) - multiset{p.kids[j + 1].id}, fl') && m in pages'
      && (pages'[m].body.Meta? && merged[m].body.Meta? ==>
          pages'[m].body.root == merged[m].body.root && pages'[m].body.schema == merged[m].body.schema)
    ensures Sound(s, pages', m, up, MergedParent(p, j), h + 1, fl')
    ensures RowsOf(AllLeaves(up, MergedParent(p, j))) == RowsOf(AllLeaves(up, p))
  {
    hide Shape, Space, CtxIds, Ids, FitsJoined, Joined, Without, RowsOf, AllLeaves, MergedParent, MergedStore;
    MetaKept(pages, pages', m, CtxIds(up) + Ids(p) - multiset{p.kids[j + 1].id}, fl', RootOf(up, p.id), s);
    ShapeFrame(s, MergedStore(pages, lp, rp, pp), pages', PairCtx(up, p, j), Joined(p.kids[j], p.keys[j],
        p.kids[j + 1]), h);
    MergeDone(s, pages, pages', m, up, p, h, fl, fl', j);
  }

  /** The pages that a merge writes can be stored. */
  lemma {:induction false} MergeEncodable(s: Schema, pages: Store, m: PageId, up: Ctx, p: Tree, h: nat, fl: seq<PageId>,
                                          j: nat, lp: Page, rp: Page, pp: Page)
    requires Sound(s, pages, m, up, p, h + 1, fl) && p.NodeT? && |p.kids| == |p.keys| + 1 && j < |p.keys|
    requires FitsJoined(p.kids[j], p.keys[j], p.kids[j + 1])
    requires Shape(s, MergedStore(pages, lp, rp, pp), PairCtx(up, p, j), Joined(p.kids[j], p.keys[j], p.kids[j + 1]), h)
    requires lp.id == p.kids[j].id && pp.id == p.id && rp.body == Free(None)
    requires lp.id != pp.id && lp.id != rp.id && pp.id != rp.id
    requires lp.body.Leaf? && lp.body.next.Some? ==> lp.body.next.value != lp.id && lp.body.next.value != pp.id
    ensures Encodable(lp) && Encodable(rp) && Encodable(pp)
    ensures forall id :: id in pages ==> Encodable(pages[id])
  {
    hide Sound, Shape, Encodable, ValidSchema, FitsJoined;
    SoundSchema(s, pages, m, up, p, h + 1, fl);
    AllEncodable(s, pages, m, up, p, h + 1, fl);
    FreeEncodable(rp.id, None);
    SameBody(rp, Page(rp.id, 0, Free(None)));
    JoinFits(p.kids[j], p.keys[j], p.kids[j + 1]);
    ShapeEncodable(
      s, MergedStore(pages, lp, rp, pp), PairCtx(up, p, j), Joined(p.kids[j], p.keys[j], p.kids[j + 1]), h);
  }

  lemma {:induction false} RightStaysFree(pages: Store, lp: Page, rp: Page, pp: Page)
    requires rp.id != lp.id && rp.id != pp.id && rp.body.Free?
    ensures rp.id in MergedStore(pages, lp, rp, pp) && MergedStore(pages, lp, rp, pp)[rp.id] == rp
  {
  }

  /** The right page of a merged pair is out of the tree. */
  lemma {:induction false} OutOfTree(up: Ctx, p: Tree, j: nat)
    requires p.NodeT? && |p.kids| == |p.keys| + 1 && j < |p.keys| && FitsJoined(p.kids[j], p.keys[j], p.kids[j + 1])
    requires Distinct(CtxIds(up) + Ids(p))
    ensures var c, l, sep, r := PairCtx(up, p, j), p.kids[j], p.keys[j], p.kids[j + 1];
      && r.id !in CtxIds(c) + Ids(Joined(l, sep, r)) && r.id != l.id && r.id != p.id && l.id != p.id
      && forall x :: x in CtxIds(c) + Ids(Joined(l, sep, r)) ==> x in CtxIds(up) + Ids(p)
  {
    hide CtxIds, Ids, AllLeaves, PairLeaves, FitsJoined, Joined, RowsOf;
    var c, l, sep, r := PairCtx(up, p, j), p.kids[j], p.keys[j], p.kids[j + 1];
    JoinFits(l, sep, r);
    ApartParts(up, p, j);
    JoinedParts(c, l, sep, r);
    ApartIds(c, l, r, r.id);
    MergedIds(CtxIds(up) + Ids(p), CtxIds(c), Ids(l), Ids(r), Ids(Joined(l, sep, r)), r.id);
    assert CtxIds(up) + Ids(p) == CtxIds(c) + Ids(Joined(l, sep, r)) + multiset{r.id} by {
      assert CtxIds(c) + Ids(l) + Ids(r) == CtxIds(c) + (Ids(l) + Ids(r));
    }
  }

  /** How a borrow ends. It fails exactly when the page above has no room for the new separator, never with integer
      keys, and then exactly the rows between the separators are not found; otherwise the pages are sound, with the
      pair cut at the first balanced place. The rows are `rows` either way. */
  ghost predicate BorrowEnds(s: Schema, pages: Store, m: PageId, up: Ctx, p: Tree, h: nat, j: nat, side: Side,
                             fl: seq<PageId>, rows: seq<Row>, res: Result<(), PageError>)
    requires p.NodeT? && |p.kids| == |p.keys| + 1 && j < |p.keys|
  {
    var l, sep, r := p.kids[j], p.keys[j], p.kids[j + 1];
    var k := TreeCut(l, sep, r, side);
    && (res.Ok? <==> KeyBytes(Without(p.keys, j)) + InternalEntrySize(CutKey(l, sep, r, k)) <= INTERNAL_USABLE)
    && (res.Err? ==> res.error == PageFull && !IntKeyed(s))
    && (l.NodeT? ==> |l.kids| == |l.keys| + 1) && (r.NodeT? ==> |r.kids| == |r.keys| + 1)
    && 0 < k < JoinedCount(l, r)
    && (res.Err? ==> Broken(s, pages, m, Plug(up, BrokenParent(p, j, k)), fl, rows, sep, CutKey(l, sep, r, k)))
    && (res.Ok? ==>
        && Sound(s, pages, m, up, BorrowedParent(p, j, k), h + 1, fl)
        && RowsOf(AllLeaves(up, BorrowedParent(p, j, k))) == rows
        && (Mended(p, j) ==> Keyed(BorrowedParent(p, j, k))))
  }

  /** Moves entries from the heavier neighbour and puts the new separator into the page above. It fails
      exactly when that page has no room for the new separator; the entries have moved by then. */
  method BorrowStep(tb: Table, leftId: PageId, rightId: PageId, parentId: PageId, sep: Key, side: Side,
                    ghost up: Ctx, ghost p: Tree, ghost h: nat, ghost j: nat) returns (res: Result<(), PageError>)
    requires Sound(tb.schema, tb.pages, tb.m, up, p, h + 1, tb.free) && p.NodeT? && j < |p.keys|
    requires |p.kids| == |p.keys| + 1
    requires p.id == parentId && p.kids[j].id == leftId && p.kids[j + 1].id == rightId && sep == p.keys[j]
    requires !FitsJoined(p.kids[j], sep, p.kids[j + 1])
    requires side.OnRight? ==> UnderfullTree(p.kids[j])
    requires side.OnLeft? ==> UnderfullTree(p.kids[j + 1])
    requires leftId in tb.held && rightId in tb.held && parentId in tb.held
    requires tb.Logged()
    modifies tb`pages, tb`log
    ensures tb.Logged()
    ensures BorrowEnds(tb.schema, tb.pages, tb.m, up, p, h, j, side, tb.free, RowsOf(AllLeaves(up, p)), res)
  {
    hide Encodable, Steps.Replay;
    hide Shape, Space, CtxIds, Ids, FitsJoined, Without, RowsOf, AllLeaves, Sound, TreeCut, CutKey, Recut, Holds;
    hide NumItems, PairAt, PairSizes, Starved, LighterLeft, LighterRight;
    hide KeyBytes, InternalEntrySize, UnderfullTree, InternalReplaceKey, BorrowedParent, Keyed, KeyedAll, Mended, CutUp;
    hide CutDown;
    hide Apart, Broken, BrokenParent, Plug, LostBetween, SameName;
    ghost var pages0 := tb.pages;
    BorrowState(tb.schema, tb.pages, tb.m, up, p, h, tb.free, j, side);
    ghost var l, r := p.kids[j], p.kids[j + 1];
    ghost var k := TreeCut(l, sep, r, side);
    BorrowKeyed(p, j, k, tb.pages[leftId], PairAt(tb.pages[leftId], sep, tb.pages[rightId], k).0,
                tb.pages[rightId], PairAt(tb.pages[leftId], sep, tb.pages[rightId], k).1);
    var moved, lp, rp;
    if side.OnRight? {
      moved := BulkBorrowFromRight(tb.pages[leftId], tb.pages[rightId], sep);
      lp, rp := moved.value.0, moved.value.1;
    } else {
      moved := BulkBorrowFromLeft(tb.pages[rightId], tb.pages[leftId], sep);
      rp, lp := moved.value.0, moved.value.1;
    }
    var parent := tb.pages[parentId];
    StarvedKinds(tb.pages[leftId], sep, tb.pages[rightId], k);
    BorrowEncodable(tb.schema, tb.pages, tb.m, up, p, h, tb.free, j, k, lp, rp);
    tb.Put(leftId, lp);
    tb.Put(rightId, rp);
    match InternalReplaceKey(parent, sep, moved.value.2) {
      case Err(e) =>
        assert tb.pages == pages0[leftId := lp][rightId := rp];
        UnfitSeparator(tb.schema, pages0, tb.m, up, p, h, tb.free, j, CutKey(l, sep, r, k));
        BrokenState(tb.schema, pages0, tb.pages, tb.m, up, p, h, tb.free, j, k);
        res := Err(e);
      case Ok(pp) =>
        FocusEncodable(
          tb.schema, tb.pages[parentId := pp], tb.m, up, BorrowedParent(p, j, k), h + 1, tb.free, parentId);
        ReplacedKind(parent, sep, moved.value.2);
        tb.Put(parentId, pp);
        res := Ok(());
    }
  }

  lemma {:induction false} ReplacedKind(p: Page, old_: Key, new_: Key)
    requires InternalReplaceKey(p, old_, new_).Ok?
    ensures !p.body.Meta? && InternalReplaceKey(p, old_, new_).value.lsn == p.lsn
  {
    hide Search, KeyLess, ReplacementFits;
  }

  lemma {:induction false} StarvedKinds(l: Page, sep: Key, r: Page, k: nat)
    requires Starved(l, sep, r) && k < |PairSizes(l, sep, r)|
    ensures !l.body.Meta? && !r.body.Meta?
    ensures PairAt(l, sep, r, k).0.lsn == l.lsn && PairAt(l, sep, r, k).1.lsn == r.lsn
  {
  }

  /** The two pages of a borrow can be stored, whether or not the separator fits above. */
  lemma {:induction false} BorrowEncodable(s: Schema, pages: Store, m: PageId, up: Ctx, p: Tree, h: nat,
                                           fl: seq<PageId>, j: nat, k: nat, a: Page, b: Page)
    requires Sound(s, pages, m, up, p, h + 1, fl) && p.NodeT? && |p.kids| == |p.keys| + 1 && j < |p.keys|
    requires k < JoinedCount(p.kids[j], p.kids[j + 1])
    requires p.kids[j].NodeT? ==> |p.kids[j].kids| == |p.kids[j].keys| + 1
    requires p.kids[j + 1].NodeT? ==> |p.kids[j + 1].kids| == |p.kids[j + 1].keys| + 1
    requires a.id == p.kids[j].id && b.id == p.kids[j + 1].id
    requires var (ta, sep', tb) := Recut(p.kids[j], p.keys[j], p.kids[j + 1], k);
      Apart(s, pages[a.id := a][b.id := b], PairCtx(up, p, j), ta, sep', tb, h)
    ensures Encodable(a) && Encodable(b) && a.id != b.id
  {
    hide Wf, CtxWf, RepCtx, RepT, RepAll, Chain, Space, Encodable, ValidSchema, PairLeaves, ValidKey, Lo, Hi, Recut;
    hide CtxIds, Ids, Shape, Above, Below, AllLeaves;
    var l, sep, r, c := p.kids[j], p.keys[j], p.kids[j + 1], PairCtx(up, p, j);
    var (ta, sep', tb) := Recut(l, sep, r, k);
    SoundSchema(s, pages, m, up, p, h + 1, fl);
    SpaceGivesDistinct(pages, m, CtxIds(up) + Ids(p), fl);
    ApartParts(up, p, j);
    ApartIds(c, l, r, l.id);
    RecutParts(c, l, sep, r, k);
    RootEncodable(s, pages[a.id := a][b.id := b], ta, Lo(c), Some(sep'), h);
    RootEncodable(s, pages[a.id := a][b.id := b], tb, Some(sep'), Hi(c), h);
  }

  lemma {:induction false} UnfitSeparator(s: Schema, pages: Store, m: PageId, up: Ctx, p: Tree, h: nat,
                                          fl: seq<PageId>, j: nat, sep': Key)
    requires Sound(s, pages, m, up, p, h + 1, fl) && p.NodeT? && j < |p.keys|
    requires KeyBytes(Without(p.keys, j)) + InternalEntrySize(sep') > INTERNAL_USABLE
    ensures sep' != p.keys[j]
  {
    hide Wf, CtxWf, RepCtx, RepT, Chain, Space, AllLeaves, KeyBytes, InternalEntrySize, Without, Lo, Hi;
    NodeSorted(s, p, Lo(up), Hi(up), h + 1);
    UnfitDiffers(p.keys, j, sep');
  }

  /** All children have keys in every page, except that one of `j`, `j + 1` may have an empty root. */
  ghost predicate Mended(p: Tree, j: nat)
    requires p.NodeT? && j + 1 < |p.kids|
  {
    && (forall i :: 0 <= i < |p.kids| && i != j && i != j + 1 ==> Keyed(p.kids[i]))
    && KeyedBelow(p.kids[j]) && KeyedBelow(p.kids[j + 1])
  }

  /** Every page below the root of `t` has a key. */
  ghost predicate KeyedBelow(t: Tree) {
    t.NodeT? ==> KeyedAll(t.kids)
  }

  lemma {:induction false} BorrowKeyed(p: Tree, j: nat, k: nat, pl: Page, a: Page, pr: Page, b: Page)
    requires p.NodeT? && |p.kids| == |p.keys| + 1 && j < |p.keys| && k < JoinedCount(p.kids[j], p.kids[j + 1])
    requires p.kids[j].NodeT? ==> |p.kids[j].kids| == |p.kids[j].keys| + 1
    requires p.kids[j + 1].NodeT? ==> |p.kids[j + 1].kids| == |p.kids[j + 1].keys| + 1
    requires var (ta, s', tb) := Recut(p.kids[j], p.keys[j], p.kids[j + 1], k);
      Holds(a, ta, pl) && Holds(b, tb, pr) && 1 <= NumItems(a) && 1 <= NumItems(b)
    ensures Mended(p, j) ==> Keyed(BorrowedParent(p, j, k))
  {
    if Mended(p, j) {
      var l, sep, r := p.kids[j], p.keys[j], p.kids[j + 1];
      var (ta, s', tb) := Recut(l, sep, r, k);
      assert Keyed(ta) && Keyed(tb) by {
        RecutKeyed(l, sep, r, k);
      }
      hide Recut, Keyed;
      var t := BorrowedParent(p, j, k);
      forall i | 0 <= i < |t.kids|
        ensures Keyed(t.kids[i])
      {
        if i < j {
          assert t.kids[i] == p.kids[i];
        } else if i > j + 1 {
          assert t.kids[i] == p.kids[i];
        }
      }
      NodeKeyed(t);
    }
  }

  lemma {:induction false} NodeKeyed(t: Tree)
    requires t.NodeT? && |t.keys| >= 1 && KeyedAll(t.kids)
    ensures Keyed(t)
  {
  }

  lemma {:induction false} RecutKeyed(l: Tree, sep: Key, r: Tree, k: nat)
    requires k < JoinedCount(l, r) && (l.NodeT? ==> |l.kids| == |l.keys| + 1) && (r.NodeT? ==> |r.kids| == |r.keys| + 1)
    requires KeyedBelow(l) && KeyedBelow(r)
    requires var (ta, s', tb) := Recut(l, sep, r, k); (ta.NodeT? ==> |ta.keys| >= 1) && (tb.NodeT? ==> |tb.keys| >= 1)
    ensures var (ta, s', tb) := Recut(l, sep, r, k); Keyed(ta) && Keyed(tb)
  {
    var (ta, s', tb) := Recut(l, sep, r, k);
    if l.NodeT? {
      assert KeyedAll(l.kids + r.kids);
      assert ta.kids + tb.kids == l.kids + r.kids;
      KeyedParts(ta.kids, tb.kids);
    }
  }

  // -------------------------------------------------------------- one round of rebalancing

  lemma {:induction false} UnderfullIs(pages: Store, t: Tree)
    requires RepT(pages, t)
    ensures t.id in pages && (IsUnderfull(pages[t.id]) <==> UnderfullTree(t))
  {
  }

  ghost predicate HeldAre(held: set<PageId>, ids: set<PageId>, rest: seq<(PageId, nat)>) {
    held == ids + (set x | x in rest :: x.0)
  }

  /** What is known when a held page is popped: it is the page above the focus, the sibling is in its
      page, and neither the sibling nor the pages further up are among those latched so far. */
  lemma {:induction false} RoundFacts(s: Schema, pages: Store, m: PageId, c: Ctx, t: Tree, h: nat, fl: seq<PageId>,
                                      rest: seq<(PageId, nat)>, safe: bool)
    requires Sound(s, pages, m, c, t, h, fl) && c.Down? && |c.keys| >= 1 && DeleteHeld(c.up, rest, safe)
    ensures var p, j := Enclosing(c, t), PairIndex(c);
      && Sound(s, pages, m, c.up, p, h + 1, fl) && AllLeaves(c.up, p) == AllLeaves(c, t)
      && |c.left| + |c.right| == |c.keys| && |p.kids| == |p.keys| + 1 && j < |p.keys|
      && p.id in pages && p.id == c.id
      && PickSibling(pages[p.id], |c.left|) ==
         Some(Sibling(p.kids[if c.right != [] then j + 1 else j].id, p.keys[j],
             if c.right != [] then OnRight else OnLeft))
      && p.kids[if c.right != [] then j else j + 1] == t
      && p.kids[j].id in pages && p.kids[j + 1].id in pages
      && p.kids[j].id != p.kids[j + 1].id && p.kids[j].id != p.id && p.kids[j + 1].id != p.id
      && (forall x :: x in rest ==> x.0 != p.kids[j].id && x.0 != p.kids[j + 1].id && x.0 != p.id)
      && (forall x :: x in rest ==> x.0 in CtxIds(c.up) + Ids(p) && x.0 in pages && pages[x.0].body.Internal?)
      && pages[p.id].body.Internal?
  {
    hide Wf, RepT, RepAll, Chain, Space, CtxIds, Ids, IdsOf, Lo, Hi, KeysOk, SidesOk, PairLeaves, AllLeaves;
    hide PickSibling, DeleteHeld, KeyBytes;
    var p, j := Enclosing(c, t), PairIndex(c);
    FocusUp(s, pages, m, c, t, h, fl);
    RepNode(pages, p);
    SiblingFound(pages[p.id], c, t);
    SpaceGivesDistinct(pages, m, CtxIds(c.up) + Ids(p), fl);
    ApartParts(c.up, p, j);
    var c1 := PairCtx(c.up, p, j);
    ApartIds(c1, p.kids[j], p.kids[j + 1], p.id);
    ApartIds(c1, p.kids[j], p.kids[j + 1], p.kids[j].id);
    ApartIds(c1, p.kids[j], p.kids[j + 1], p.kids[j + 1].id);
    DeleteHeldWithin(c.up, rest, safe, pages, c.id);
    RepAllSlices(pages, p.kids, j);
    RepId(pages, p.kids[j]);
    RepId(pages, p.kids[j + 1]);
  }

  /** The page above the focus offers a sibling exactly when it has a key. */
  lemma {:induction false} SiblingMeansKeys(s: Schema, pages: Store, m: PageId, c: Ctx, t: Tree, h: nat,
                                            fl: seq<PageId>)
    requires Sound(s, pages, m, c, t, h, fl) && c.Down?
    ensures c.id in pages && |c.left| + |c.right| == |c.keys|
    ensures PickSibling(pages[c.id], |c.left|).Some? <==> |c.keys| >= 1
    ensures |c.keys| >= 1 <==> PairIndex(c) < |c.keys|
  {
    hide Wf, CtxWf, RepT, RepAll, Chain, Space, CtxIds, Ids, IdsOf, Lo, Hi, KeysOk, SidesOk, AllLeaves, PickSibling;
    SidesCount(s, c, h);
    FocusUp(s, pages, m, c, t, h, fl);
    RepNode(pages, Enclosing(c, t));
    if c.keys == [] {
      NoSibling(pages[c.id], c, t);
    } else {
      SiblingFound(pages[c.id], c, t);
    }
  }

  lemma {:induction false} SidesCount(s: Schema, c: Ctx, h: nat)
    requires CtxWf(s, c, h) && c.Down?
    ensures |c.left| + |c.right| == |c.keys|
  {
  }

  lemma {:induction false} RepId(pages: Store, t: Tree)
    requires RepT(pages, t)
    ensures t.id in pages && pages[t.id].id == t.id
  {
  }

  /** Latches the pair, left page first: if the sibling is on the left, the page lets go of its own latch
      before. */
  method LatchPair(tb: Table, pageId: PageId, sib: Sibling) returns (leftId: PageId, rightId: PageId)
    requires pageId in tb.held && pageId in tb.pages && sib.id in tb.pages && sib.id !in tb.held
    requires tb.Logged()
    modifies tb`held, tb`log
    ensures tb.Logged()
    ensures (leftId, rightId) == if sib.side.OnRight? then (pageId, sib.id) else (sib.id, pageId)
    ensures tb.held == old(tb.held) + {sib.id}
  {
    leftId, rightId := pageId, sib.id;
    if sib.side.OnRight? {
      var _ := tb.FetchWrite(rightId);
    } else {
      leftId, rightId := sib.id, pageId;
      tb.Release(pageId);
      var _ := tb.FetchWrite(leftId);
      var _ := tb.FetchWrite(rightId);
    }
  }

  /** One round: the underfull page in focus is merged with its sibling, or takes entries from it. */
  method RebalanceRound(tb: Table, pageId: PageId, parentId: PageId, idx: nat, sib: Sibling,
                        ghost rest: seq<(PageId, nat)>, ghost safe: bool,
                        ghost c: Ctx, ghost t: Tree, ghost h: nat) returns (merged: bool, res: Result<(), PageError>)
    requires Sound(tb.schema, tb.pages, tb.m, c, t, h, tb.free) && c.Down? && DeleteHeld(c.up, rest, safe)
    requires parentId in tb.pages && PickSibling(tb.pages[parentId], idx) == Some(sib)
    requires c.id == parentId && |c.left| == idx && t.id == pageId && UnderfullTree(t)
    requires HeldAre(tb.held, {pageId, parentId}, rest)
    requires tb.Logged()
    modifies tb`pages, tb`held, tb`free, tb`log
    ensures tb.Logged()
    ensures |c.left| + |c.right| == |c.keys| && PairIndex(c) < |c.keys|
    ensures var p, j := Enclosing(c, t), PairIndex(c);
      && (merged <==> FitsJoined(p.kids[j], p.keys[j], p.kids[j + 1]))
      && (merged ==>
          && Sound(tb.schema, tb.pages, tb.m, c.up, MergedParent(p, j), h + 1, tb.free)
          && RowsOf(AllLeaves(c.up, MergedParent(p, j))) == RowsOf(AllLeaves(c, t))
          && HeldAre(tb.held, {parentId}, rest))
      && (!merged ==>
          BorrowEnds(tb.schema, tb.pages, tb.m, c.up, p, h, j, if c.right != [] then OnRight else OnLeft, tb.free,
                     RowsOf(AllLeaves(c, t)), res))
  {
    hide Encodable, Steps.Replay;
    hide Shape, Space, CtxIds, Ids, FitsJoined, CanMergeWith, Joined, Without, RowsOf, AllLeaves, Sound, TreeCut;
    hide CutKey, KeyBytes, InternalEntrySize;
    hide UnderfullTree, MergedParent, DeleteHeld, PickSibling, PairIndex, BorrowEnds;
    SiblingMeansKeys(tb.schema, tb.pages, tb.m, c, t, h, tb.free);
    RoundFacts(tb.schema, tb.pages, tb.m, c, t, h, tb.free, rest, safe);
    ghost var p, j := Enclosing(c, t), PairIndex(c);
    var leftId, rightId := LatchPair(tb, pageId, sib);
    MergeState(tb.schema, tb.pages, tb.m, c.up, p, h, tb.free, j);
    merged := CanMergeWith(tb.pages[leftId], tb.pages[rightId], sib.separator);
    res := Ok(());
    if merged {
      UsedFacts(c.up, p, j);
      MergeStep(tb, leftId, rightId, parentId, sib.separator, c.up, p, h, j);
    } else {
      res := BorrowStep(tb, leftId, rightId, parentId, sib.separator, sib.side, c.up, p, h, j);
    }
  }

  // ------------------------------------------------------------------- the whole ascent

  lemma {:induction false} FitsStep(c: Ctx, t: Tree)
    requires c.Down? && UnderfullTree(t) && |c.left| + |c.right| == |c.keys| && PairIndex(c) < |c.keys|
    ensures var p, j := Enclosing(c, t), PairIndex(c); var l, sep, r := p.kids[j], p.keys[j], p.kids[j + 1];
      var k := TreeCut(l, sep, r, if c.right != [] then OnRight else OnLeft);
      && (FitsJoined(l, sep, r) ==> (RebalanceFits(c, t) <==> RebalanceFits(c.up, MergedParent(p, j))))
      && (FitsJoined(l, sep, r) ==> (RebalancePanics(c, t) <==> RebalancePanics(c.up, MergedParent(p, j))))
      && (!FitsJoined(l, sep, r) ==> !RebalancePanics(c, t))
      && (!FitsJoined(l, sep, r) ==>
          (RebalanceFits(c, t) <==>
              KeyBytes(Without(p.keys, j)) + InternalEntrySize(CutKey(l, sep, r, k)) <= INTERNAL_USABLE))
      && (FitsJoined(l, sep, r) ==> FailedBorrow(c, t) == FailedBorrow(c.up, MergedParent(p, j)))
      && (!FitsJoined(l, sep, r) ==>
          FailedBorrow(c, t) == if RebalanceFits(c, t) then None else Some((sep, CutKey(l, sep, r, k))))
  {
    hide KeyBytes, InternalEntrySize, TreeCut, CutKey, MergedParent, UnderfullTree, Without;
  }

  lemma {:induction false} FitsEnd(c: Ctx, t: Tree)
    requires c.Top? || !UnderfullTree(t)
    ensures RebalanceFits(c, t) && !RebalancePanics(c, t) && FailedBorrow(c, t) == None
  {
  }

  lemma {:induction false} FocusMended(c: Ctx, t: Tree)
    requires c.Down? && KeyedCtx(c) && KeyedBelow(t) && |c.left| + |c.right| == |c.keys| && PairIndex(c) < |c.keys|
    ensures Mended(Enclosing(c, t), PairIndex(c)) && KeyedCtx(c.up)
  {
    var p, j := Enclosing(c, t), PairIndex(c);
    forall i | 0 <= i < |p.kids| && i != |c.left|
      ensures Keyed(p.kids[i])
    {
      hide Keyed;
      if i > |c.left| {
        assert p.kids[i] == c.right[i - |c.left| - 1];
      }
    }
    assert p.kids[|c.left|] == t;
  }

  lemma {:induction false} MergeKeyed(p: Tree, j: nat)
    requires p.NodeT? && |p.kids| == |p.keys| + 1 && j < |p.keys| && Mended(p, j)
    requires p.kids[j].LeafT? <==> p.kids[j + 1].LeafT?
    ensures KeyedBelow(MergedParent(p, j))
  {
    var l, sep, r := p.kids[j], p.keys[j], p.kids[j + 1];
    assert Keyed(Joined(l, sep, r));
    hide Joined, Keyed;
    var t := MergedParent(p, j);
    forall i | 0 <= i < |t.kids|
      ensures Keyed(t.kids[i])
    {
      if i < j {
        assert t.kids[i] == p.kids[i];
      } else if i > j {
        assert t.kids[i] == p.kids[i + 1];
      }
    }
  }

  /** The last held ancestor is the page right above the focus. */
  lemma {:induction false} HeldPop(c: Ctx, anc: seq<(PageId, nat)>, safe: bool)
    requires anc != [] && DeleteHeld(c, anc, safe)
    ensures c.Down? && anc[|anc| - 1] == (c.id, |c.left|) && DeleteHeld(c.up, anc[..|anc| - 1], DeleteSafeKeys(c.keys))
  {
  }

  /** An underfull page below a page without keys ends the ascent in a panic. */
  lemma {:induction false} PanicHere(c: Ctx, t: Tree)
    requires c.Down? && UnderfullTree(t) && |c.left| + |c.right| == |c.keys| && c.keys == []
    ensures RebalancePanics(c, t) && !RebalanceFits(c, t) && FailedBorrow(c, t) == None && !KeyedCtx(c)
  {
    hide UnderfullTree;
  }

  /** The page above after a merge: still held if it was, and not underfull if the stack ends there. */
  lemma {:induction false} HeldAfterMerge(s: Schema, pages: Store, m: PageId, c: Ctx, t: Tree, h: nat, fl: seq<PageId>,
                                          anc: seq<(PageId, nat)>)
    requires Sound(s, pages, m, c, t, h, fl) && anc != [] && DeleteHeld(c, anc, !UnderfullTree(t)) && c.Down?
    requires |c.keys| >= 1
    ensures |c.left| + |c.right| == |c.keys| && PairIndex(c) < |c.keys|
    ensures DeleteHeld(c.up, anc[..|anc| - 1], !UnderfullTree(MergedParent(Enclosing(c, t), PairIndex(c))))
  {
    HeldPop(c, anc, !UnderfullTree(t));
    var p, j := Enclosing(c, t), PairIndex(c);
    assert |c.left| + |c.right| == |c.keys| && KeysOk(s, c.keys, Lo(c.up), Hi(c.up));
    KeysWithoutOk(s, c.keys, Lo(c.up), Hi(c.up), j);
    ValidKeySize(s, c.keys[j]);
    hide Sound, KeysOk, KeyBytes, InternalEntrySize, DeleteSafeKeys, UnderfullTree, CtxWf, Joined, Without;
    if DeleteSafeKeys(c.keys) {
      SafeLoses(c.keys, j, c.id, MergedParent(p, j).kids);
    }
    DeleteHeldWeaken(c.up, anc[..|anc| - 1], DeleteSafeKeys(c.keys), !UnderfullTree(MergedParent(p, j)));
  }

  lemma {:induction false} PopSet(anc: seq<(PageId, nat)>, held: set<PageId>, id: PageId)
    requires anc != [] && HeldAre(held, {id}, anc)
    ensures HeldAre(held, {id, anc[|anc| - 1].0}, anc[..|anc| - 1])
  {
    var rest, last := anc[..|anc| - 1], anc[|anc| - 1];
    assert anc == rest + [last];
    assert forall x :: x in anc <==> x in rest || x == last;
    assert (set x | x in anc :: x.0) == (set x | x in rest :: x.0) + {last.0};
  }

  /** After a borrow the operation is over: all latches are dropped. */
  method AfterBorrow(tb: Table, res: Result<(), PageError>, ghost c: Ctx, ghost t: Tree, ghost h: nat)
    requires c.Down? && UnderfullTree(t) && |c.left| + |c.right| == |c.keys| && PairIndex(c) < |c.keys| && tb.Logged()
    requires var p, j := Enclosing(c, t), PairIndex(c);
      && !FitsJoined(p.kids[j], p.keys[j], p.kids[j + 1])
      && BorrowEnds(tb.schema, tb.pages, tb.m, c.up, p, h, j, if c.right != [] then OnRight else OnLeft, tb.free,
                    RowsOf(AllLeaves(c, t)), res)
    modifies tb
    ensures tb.held == {} && tb.Logged() && tb.origin == old(tb.origin)
    ensures (res.Ok? <==> RebalanceFits(c, t)) && !RebalancePanics(c, t) && (res.Err? <==> FailedBorrow(c, t).Some?)
    ensures res.Err? ==> res.error == PageFull && !IntKeyed(tb.schema)
    ensures res.Ok? ==> tb.Valid() && RowsOf(AllLeaves(Top, tb.tree)) == RowsOf(AllLeaves(c, t))
    ensures res.Err? ==>
      var (old_, new_) := FailedBorrow(c, t).value;
      Broken(tb.schema, tb.pages, tb.m, tb.tree, tb.free, RowsOf(AllLeaves(c, t)), old_, new_)
    ensures KeyedCtx(c) && KeyedBelow(t) && res.Ok? ==> Keyed(tb.tree)
  {
    hide Encodable, Steps.Replay;
    hide Broken, BrokenParent, Plug, Sound, UnderfullTree, FitsJoined, RowsOf, AllLeaves, KeyBytes, InternalEntrySize;
    hide TreeCut, CutKey, BorrowedParent, MergedParent, Keyed, KeyedCtx, KeyedBelow, Mended, RebalanceFits;
    hide RebalancePanics, FailedBorrow, Without, PairIndex;
    FitsStep(c, t);
    if KeyedCtx(c) && KeyedBelow(t) {
      FocusMended(c, t);
    }
    ghost var p, j := Enclosing(c, t), PairIndex(c);
    ghost var k := TreeCut(p.kids[j], p.keys[j], p.kids[j + 1], if c.right != [] then OnRight else OnLeft);
    if res.Ok? {
      Adopt(tb, c.up, BorrowedParent(p, j, k), h + 1);
    } else {
      tb.tree := Plug(c.up, BrokenParent(p, j, k));
    }
    tb.ReleaseAll();
  }

  /** `rebalance`: merges upwards as long as pages are underfull, or ends with a borrow; an empty root
      gives way to its only child. It fails only when a new separator does not fit, or when an underfull
      page has no sibling. */
  method Rebalance(tb: Table, pageId0: PageId, anc0: seq<(PageId, nat)>, ghost c0: Ctx, ghost t0: Tree, ghost h0: nat)
    returns (res: Result<(), PageError>)
    requires Sound(tb.schema, tb.pages, tb.m, c0, t0, h0, tb.free) && t0.id == pageId0
    requires DeleteHeld(c0, anc0, false) && HeldAre(tb.held, {pageId0}, anc0)
    requires tb.Logged()
    modifies tb
    ensures tb.origin == old(tb.origin)
    ensures tb.Logged()
    ensures tb.held == {}
    ensures res.Ok? <==> RebalanceFits(c0, t0)
    ensures res == Err(Panic) <==> RebalancePanics(c0, t0)
    ensures res.Err? ==> res == Err(Panic) || (res == Err(PageFull) && !IntKeyed(tb.schema))
    ensures res.Ok? || res == Err(Panic) ==> tb.Valid() && RowsOf(AllLeaves(Top, tb.tree)) == RowsOf(AllLeaves(c0, t0))
    ensures res == Err(PageFull) <==> FailedBorrow(c0, t0).Some?
    ensures res == Err(PageFull) ==>
      var (old_, new_) := FailedBorrow(c0, t0).value;
      Broken(tb.schema, tb.pages, tb.m, tb.tree, tb.free, RowsOf(AllLeaves(c0, t0)), old_, new_)
    ensures KeyedCtx(c0) && KeyedBelow(t0) ==> res != Err(Panic) && (res.Ok? ==> Keyed(tb.tree))
  {
    hide Encodable, Steps.Replay;
    hide Broken, Sound, UnderfullTree, FitsJoined, RowsOf, AllLeaves, MergedParent, BorrowEnds;
    hide Keyed, KeyedCtx, KeyedBelow, Mended, DeleteHeld, HeldAre, RebalanceFits, RebalancePanics, PairIndex;
    hide IsUnderfull, PickSibling, FailedBorrow, TreeCut, CutKey, KeyBytes, InternalEntrySize, Without;
    var pageId, anc := pageId0, anc0;
    ghost var c, t, h := c0, t0, h0;
    ghost var keyed := KeyedCtx(c0) && KeyedBelow(t0);
    DeleteHeldWeaken(c, anc, false, !UnderfullTree(t));
    FocusUnderfull(tb.schema, tb.pages, tb.m, c, t, h, tb.free);
    while IsUnderfull(tb.pages[pageId]) && anc != []
      invariant Sound(tb.schema, tb.pages, tb.m, c, t, h, tb.free) && t.id == pageId && t.id in tb.pages
      invariant IsUnderfull(tb.pages[pageId]) <==> UnderfullTree(t)
      invariant DeleteHeld(c, anc, !UnderfullTree(t)) && HeldAre(tb.held, {pageId}, anc)
      invariant keyed ==> KeyedCtx(c) && KeyedBelow(t)
      invariant RowsOf(AllLeaves(c, t)) == RowsOf(AllLeaves(c0, t0))
      invariant RebalanceFits(c, t) <==> RebalanceFits(c0, t0)
      invariant RebalancePanics(c, t) <==> RebalancePanics(c0, t0)
      invariant FailedBorrow(c, t) == FailedBorrow(c0, t0)
      invariant tb.Logged() && tb.origin == old(tb.origin)
      decreases |anc|
    {
      HeldPop(c, anc, !UnderfullTree(t));
      SiblingMeansKeys(tb.schema, tb.pages, tb.m, c, t, h, tb.free);
      PopSet(anc, tb.held, pageId);
      var (parentId, idx) := anc[|anc| - 1];
      var sib := PickSibling(tb.pages[parentId], idx);
      if sib.None? {
        PanicHere(c, t);
        Adopt(tb, c, t, h);
        tb.ReleaseAll();
        return Err(Panic);
      }
      HeldAfterMerge(tb.schema, tb.pages, tb.m, c, t, h, tb.free, anc);
      FitsStep(c, t);
      if keyed {
        FocusMended(c, t);
      }
      anc := anc[..|anc| - 1];
      ghost var p, j := Enclosing(c, t), PairIndex(c);
      var merged;
      merged, res := RebalanceRound(tb, pageId, parentId, idx, sib.value, anc, DeleteSafeKeys(c.keys), c, t, h);
      if !merged {
        AfterBorrow(tb, res, c, t, h);
        return;
      }
      JoinFits(p.kids[j], p.keys[j], p.kids[j + 1]);
      if keyed {
        MergeKeyed(p, j);
      }
      pageId := parentId;
      MergedParentId(p, j);
      c, t, h := c.up, MergedParent(p, j), h + 1;
      FocusUnderfull(tb.schema, tb.pages, tb.m, c, t, h, tb.free);
    }
    HeldEnd(c, anc, !UnderfullTree(t));
    FitsEnd(c, t);
    HeldInTree(tb.schema, tb.pages, tb.m, c, t, h, tb.free, anc, !UnderfullTree(t), tb.held);
    CollapseRoot(tb, pageId, c, t, h);
    res := Ok(());
  }

  lemma {:induction false} MergedParentId(p: Tree, j: nat)
    requires p.NodeT? && |p.kids| == |p.keys| + 1 && j < |p.keys|
    ensures MergedParent(p, j).id == p.id
  {
  }

  lemma {:induction false} HeldEnd(c: Ctx, anc: seq<(PageId, nat)>, safe: bool)
    requires DeleteHeld(c, anc, safe)
    ensures anc == [] ==> c.Top? || safe
  {
  }

  /** All latches are on pages of the tree. */
  lemma {:induction false} HeldInTree(s: Schema, pages: Store, m: PageId, c: Ctx, t: Tree, h: nat, fl: seq<PageId>,
                                      anc: seq<(PageId, nat)>, safe: bool, held: set<PageId>)
    requires Sound(s, pages, m, c, t, h, fl) && DeleteHeld(c, anc, safe) && HeldAre(held, {t.id}, anc)
    ensures t.id in held && forall x :: x in held ==> x in CtxIds(c) + Ids(t)
  {
    hide CtxWf, Wf, RepCtx, RepT, Chain, Space, CtxIds, Ids, DeleteHeld, AllLeaves;
    DeleteHeldWithin(c, anc, safe, pages, t.id);
    RootIdIn(t);
  }

  lemma {:induction false} FocusUnderfull(s: Schema, pages: Store, m: PageId, c: Ctx, t: Tree, h: nat, fl: seq<PageId>)
    requires Sound(s, pages, m, c, t, h, fl)
    ensures t.id in pages && (IsUnderfull(pages[t.id]) <==> UnderfullTree(t))
  {
    hide CtxWf, Wf, RepCtx, RepT, Chain, Space, IsUnderfull, UnderfullTree;
    UnderfullIs(pages, t);
  }

  /** Adopts a sound focus as the table's tree. */
  ghost method Adopt(tb: Table, c: Ctx, t: Tree, h: nat)
    requires Sound(tb.schema, tb.pages, tb.m, c, t, h, tb.free)
    modifies tb`tree, tb`height
    ensures Sound(tb.schema, tb.pages, tb.m, Top, tb.tree, tb.height, tb.free)
    ensures AllLeaves(Top, tb.tree) == AllLeaves(c, t)
    ensures KeyedCtx(c) && Keyed(t) ==> Keyed(tb.tree)
  {
    hide Sound, Keyed, KeyedCtx, AllLeaves;
    FocusTop(tb.schema, tb.pages, tb.m, c, t, h, tb.free);
    if KeyedCtx(c) && Keyed(t) {
      KeyedPlug(c, t);
    }
    tb.tree, tb.height := Plug(c, t), h + Depth(c);
  }

  /** An internal root without keys has one child, which holds all the leaves. */
  lemma {:induction false} OnlyChild(s: Schema, pages: Store, m: PageId, t: Tree, h: nat, fl: seq<PageId>)
    requires Sound(s, pages, m, Top, t, h, fl) && t.NodeT? && t.keys == []
    ensures h > 0 && |t.kids| == 1 && t.id in pages && pages[t.id].body.Internal?
    ensures pages[t.id].body.children == [t.kids[0].id]
    ensures Shape(s, pages, Top, t.kids[0], h - 1) && AllLeaves(Top, t.kids[0]) == AllLeaves(Top, t)
    ensures Ids(t) == multiset{t.id} + Ids(t.kids[0]) && t.kids[0].id in Ids(t) && t.id !in Ids(t.kids[0])
    ensures forall x :: x in Ids(t.kids[0]) ==> x != t.id && x != m
  {
    hide Wf, RepT, Chain, Space, RepAll, Ids, IdsOf, Leaves, LeavesOf, KeysOk;
    NodeWfParts(s, t, h);
    var kid := t.kids[0];
    RepNode(pages, t);
    NodeIds(t);
    NodeLeaves(t);
    assert t.kids == [kid];
    OneKid(kid);
    SpaceGivesDistinct(pages, m, CtxIds(Top) + Ids(t), fl);
    assert CtxIds(Top) + Ids(t) == Ids(t);
    RootIdIn(kid);
    RepFirst(pages, t.kids);
    assert forall x :: x in Ids(kid) ==> Ids(t)[x] == multiset{t.id}[x] + Ids(kid)[x];
  }

  lemma {:induction false} RepFirst(pages: Store, ts: seq<Tree>)
    requires RepAll(pages, ts) && ts != []
    ensures RepT(pages, ts[0])
  {
  }

  lemma {:induction false} OneKid(t: Tree)
    ensures IdsOf([t]) == Ids(t) && LeavesOf([t]) == Leaves(t)
  {
    hide Ids, Leaves;
    assert [t][1..] == [];
    assert IdsOf([]) == multiset{} && LeavesOf([]) == [];
  }

  lemma {:induction false} NodeWfParts(s: Schema, t: Tree, h: nat)
    requires Wf(s, t, None, None, h) && t.NodeT? && t.keys == []
    ensures h > 0 && |t.kids| == 1 && Wf(s, t.kids[0], None, None, h - 1)
  {
  }

  /** Only a root can be without keys; any other page has enough of them not to be underfull. */
  lemma {:induction false} KeysUnlessRoot(c: Ctx, t: Tree)
    requires c.Top? || !UnderfullTree(t)
    ensures KeyedBelow(t) && (t.LeafT? || t.keys != []) ==> Keyed(t)
    ensures t.NodeT? && t.keys == [] ==> c.Top?
  {
    assert KeyBytes([]) == 0;
  }

  /** An empty root gives way to its only child and is freed. */
  method DropRoot(tb: Table, ghost t: Tree, ghost h: nat, pageId: PageId)
    requires Sound(tb.schema, tb.pages, tb.m, Top, t, h, tb.free) && t.id == pageId
    requires t.NodeT? && t.keys == []
    requires pageId in tb.held && forall x :: x in tb.held ==> x in CtxIds(Top) + Ids(t)
    requires tb.Logged()
    modifies tb
    ensures tb.origin == old(tb.origin)
    ensures tb.Logged()
    ensures Sound(tb.schema, tb.pages, tb.m, Top, tb.tree, tb.height, tb.free)
    ensures KeyedBelow(t) ==> Keyed(tb.tree)
    ensures AllLeaves(Top, tb.tree) == AllLeaves(Top, t)
  {
    hide Encodable, Steps.Replay, SameName, KeepsName;
    hide Sound, Space, RowsOf, AllLeaves, Keyed, KeyedBelow, CtxIds, Ids;
    DropReady(tb.schema, tb.pages, tb.m, t, h, tb.free);
    if KeyedBelow(t) {
      FirstKeyed(t);
    }
    ghost var pages0, used, kid := tb.pages, Ids(t), t.kids[0];
    var page := tb.pages[pageId];
    tb.SetRootId(page.body.children[0], used);
    tb.Put(pageId, page.(body := Free(None)));
    tb.FreePage(pageId, used);
    DropDone(tb.schema, pages0, tb.pages, tb.m, t, h, tb.free);
    tb.tree, tb.height := kid, h - 1;
  }

  /** The store with another root named and the old one emptied. */
  function RootDropped(pages: Store, m: PageId, t: PageId, kid: PageId): Store
    requires m in pages && pages[m].body.Meta? && t in pages
  {
    pages[m := pages[m].(body := pages[m].body.(root := kid))][t := pages[t].(body := Free(None))]
  }

  lemma {:induction false} DropReady(s: Schema, pages: Store, m: PageId, t: Tree, h: nat, fl: seq<PageId>)
    requires Sound(s, pages, m, Top, t, h, fl) && t.NodeT? && t.keys == []
    ensures h > 0 && |t.kids| == 1 && t.id in pages && pages[t.id].id == t.id && pages[t.id].body.Internal?
    ensures pages[t.id].body.children == [t.kids[0].id] && CtxIds(Top) + Ids(t) == Ids(t)
    ensures Space(pages, m, Ids(t), fl) && m in pages && pages[m].body.Meta? && t.id != m && m !in Ids(t)
    ensures pages[m].body.schema == s
    ensures Space(RootDropped(pages, m, t.id, t.kids[0].id), m, Ids(t), fl)
    ensures Encodable(pages[t.id].(body := Free(None)))
  {
    hide Shape, Space, AllLeaves, Ids, Encodable;
    OnlyChild(s, pages, m, t, h, fl);
    NoIdsAtTop();
    assert CtxIds(Top) + Ids(t) == Ids(t);
    SpaceGivesDistinct(pages, m, Ids(t), fl);
    SpaceSetRoot(pages, m, Ids(t), fl, t.kids[0].id);
    RootIdIn(t);
    RepIdTop(s, pages, t, h);
    var pages1 := pages[m := pages[m].(body := pages[m].body.(root := t.kids[0].id))];
    SpacePut(pages1, m, Ids(t), fl, t.id, pages[t.id].(body := Free(None)));
    FreeEncodable(t.id, None);
    SameBody(pages[t.id].(body := Free(None)), Page(t.id, 0, Free(None)));
  }

  lemma {:induction false} DropDone(s: Schema, pages: Store, pages': Store, m: PageId, t: Tree, h: nat,
                                    fl': seq<PageId>)
    requires exists fl :: Sound(s, pages, m, Top, t, h, fl)
    requires t.NodeT? && t.keys == [] && |t.kids| == 1
    requires Space(pages', m, Ids(t) - multiset{t.id}, fl') && m in pages'
    requires pages'[m].body.Meta? ==> pages'[m].body.root == t.kids[0].id && pages'[m].body.schema == s
    requires forall x :: x in pages && x != t.id && x != m ==> x in pages' && pages'[x] == pages[x]
    ensures h > 0 && Sound(s, pages', m, Top, t.kids[0], h - 1, fl') && AllLeaves(Top, t.kids[0]) == AllLeaves(Top, t)
  {
    hide Shape, AllLeaves, Ids, Partition, FreeChain, Fitting;
    var fl :| Sound(s, pages, m, Top, t, h, fl);
    OnlyChild(s, pages, m, t, h, fl);
    NoIdsAtTop();
    assert Ids(t) - multiset{t.id} == Ids(t.kids[0]) == CtxIds(Top) + Ids(t.kids[0]);
    KidStays(s, pages, pages', m, t, h);
  }

  /** The only child of a root is the same tree in a store that differs in the root and the meta page. */
  lemma {:induction false} KidStays(s: Schema, pages: Store, pages': Store, m: PageId, t: Tree, h: nat)
    requires t.NodeT? && t.kids != [] && h > 0 && Shape(s, pages, Top, t.kids[0], h - 1)
    requires forall x :: x in Ids(t.kids[0]) ==> x != t.id && x != m
    requires forall x :: x in pages && x != t.id && x != m ==> x in pages' && pages'[x] == pages[x]
    ensures Shape(s, pages', Top, t.kids[0], h - 1)
  {
    hide Shape, Ids;
    NoIdsAtTop();
    assert CtxIds(Top) + Ids(t.kids[0]) == Ids(t.kids[0]);
    ShapeFrame(s, pages, pages', Top, t.kids[0], h - 1);
  }

  lemma {:induction false} RepIdTop(s: Schema, pages: Store, t: Tree, h: nat)
    requires Shape(s, pages, Top, t, h)
    ensures t.id in pages && pages[t.id].id == t.id
  {
    hide Wf, Chain;
    RepId(pages, t);
  }

  /** A root left without keys gives way to its only child; any other page stays. */
  method CollapseRoot(tb: Table, pageId: PageId, ghost c: Ctx, ghost t: Tree, ghost h: nat)
    requires Sound(tb.schema, tb.pages, tb.m, c, t, h, tb.free) && t.id == pageId
    requires c.Top? || !UnderfullTree(t)
    requires pageId in tb.held && forall x :: x in tb.held ==> x in CtxIds(c) + Ids(t)
    requires tb.Logged()
    modifies tb
    ensures tb.origin == old(tb.origin)
    ensures tb.Valid()
    ensures KeyedCtx(c) && KeyedBelow(t) ==> Keyed(tb.tree)
    ensures RowsOf(AllLeaves(Top, tb.tree)) == RowsOf(AllLeaves(c, t))
  {
    hide Encodable, Steps.Replay;
    hide Sound, UnderfullTree, RowsOf, AllLeaves, Keyed, KeyedCtx, KeyedBelow, CtxIds, Ids, CtxWf, Wf, Lo, Hi;
    FocusPage(tb.schema, tb.pages, tb.m, c, t, h, tb.free);
    KeysUnlessRoot(c, t);
    MetaOutside(tb.schema, tb.pages, tb.m, c, t, h, tb.free);
    var root := tb.LookUpRoot();
    var page := tb.pages[pageId];
    if pageId == root && page.body.Internal? && page.body.keys == [] {
      DropRoot(tb, t, h, pageId);
    } else {
      Adopt(tb, c, t, h);
    }
    tb.ReleaseAll();
  }

  lemma {:induction false} MetaOutside(s: Schema, pages: Store, m: PageId, c: Ctx, t: Tree, h: nat, fl: seq<PageId>)
    requires Sound(s, pages, m, c, t, h, fl)
    ensures m !in CtxIds(c) + Ids(t)
  {
    hide Shape, Space, CtxIds, Ids;
    SpaceGivesDistinct(pages, m, CtxIds(c) + Ids(t), fl);
  }

  lemma {:induction false} NoIdsAtTop()
    ensures CtxIds(Top) == multiset{}
  {
  }

  lemma {:induction false} FirstKeyed(t: Tree)
    requires t.NodeT? && KeyedBelow(t) && t.kids != []
    ensures Keyed(t.kids[0])
  {
  }

  // ------------------------------------------------------------------------- delete

  /** Going down to child `i`: it is not latched yet, nor is the page in focus among those above. */
  lemma {:induction false} DeleteDescend(s: Schema, pages: Store, m: PageId, c: Ctx, t: Tree, h: nat, fl: seq<PageId>,
                                         anc: seq<(PageId, nat)>, i: nat)
    requires t.NodeT? && i < |t.kids| && Sound(s, pages, m, KidCtx(c, t, i), t.kids[i], h, fl)
    requires DeleteHeld(c, anc, false) && RepCtx(pages, c, t.id)
    ensures var anc' := if DeleteSafeKeys(t.keys) then [] else anc;
      && DeleteHeld(KidCtx(c, t, i), anc' + [(t.id, i)], false)
      && (forall x :: x in anc' + [(t.id, i)] ==> x.0 != t.kids[i].id)
      && (forall x :: x in anc ==> x.0 != t.id)
  {
    hide Shape, Space, CtxIds, Ids, DeleteHeld, RootIds, DeleteSafeKeys, RepCtx;
    var c' := KidCtx(c, t, i);
    var anc' := if DeleteSafeKeys(t.keys) then [] else anc;
    DeleteHeldPush(c, t, anc, i);
    RepCtxOf(s, pages, m, c', t.kids[i], h, fl);
    DeleteHeldWithin(c', anc' + [(t.id, i)], false, pages, t.kids[i].id);
    DeleteHeldWithin(c, anc, false, pages, t.id);
    SpaceGivesDistinct(pages, m, CtxIds(c') + Ids(t.kids[i]), fl);
    DistinctPart(CtxIds(c'), Ids(t.kids[i]));
    RootIdIn(t.kids[i]);
    CtxIdIn(c');
  }

  lemma {:induction false} RepCtxOf(s: Schema, pages: Store, m: PageId, c: Ctx, t: Tree, h: nat, fl: seq<PageId>)
    requires Sound(s, pages, m, c, t, h, fl)
    ensures RepCtx(pages, c, t.id)
  {
  }

  function StackIds(anc: seq<(PageId, nat)>): (ids: seq<PageId>)
    ensures (set x | x in ids) == (set x | x in anc :: x.0)
  {
    var ids := seq(|anc|, i requires 0 <= i < |anc| => anc[i].0);
    assert (set x | x in ids) == (set x | x in anc :: x.0) by {
      forall x | x in anc
        ensures x.0 in ids
      {
        var i :| 0 <= i < |anc| && anc[i] == x;
        assert ids[i] == x.0;
      }
      forall y | y in ids
        ensures y in (set x | x in anc :: x.0)
      {
        var i :| 0 <= i < |ids| && ids[i] == y;
        assert anc[i] in anc;
      }
    }
    ids
  }

  lemma {:induction false} HeldPushed(held: set<PageId>, id: PageId, anc: seq<(PageId, nat)>, i: nat, kid: PageId)
    requires HeldAre(held, {id}, anc)
    ensures HeldAre(held + {kid}, {kid}, anc + [(id, i)])
    ensures (forall x :: x in anc + [(id, i)] ==> x.0 != kid) ==> kid !in held
  {
    var anc' := anc + [(id, i)];
    assert forall x :: x in anc' <==> x in anc || x == (id, i);
    assert (set x | x in anc' :: x.0) == (set x | x in anc :: x.0) + {id};
  }

  /** The pages above the one in focus, released. */
  lemma {:induction false} HeldCleared(held: set<PageId>, id: PageId, anc: seq<(PageId, nat)>)
    requires HeldAre(held, {id}, anc) && forall x :: x in anc ==> x.0 != id
    ensures HeldAre(held - (set x | x in anc :: x.0), {id}, [])
  {
  }

  /** A key that is present has left its leaf: the ascent mends what that did. */
  method DeleteFound(tb: Table, page: Page, row: Row, page': Page, anc: seq<(PageId, nat)>, ghost c: Ctx,
                     ghost t: Tree, ghost h: nat, ghost i: nat, ghost k: Key)
    returns (res: Result<(), PageError>)
    requires Sound(tb.schema, tb.pages, tb.m, c, t, h, tb.free) && t.LeafT? && Search(RecordKeys(t.rows), k) == Hit(i)
    requires t.id in tb.pages && page == tb.pages[t.id] && page.id == t.id
    requires page.body.Leaf? && page' == page.(body := page.body.(records := RowsWithout(t.rows, i)))
    requires DeleteHeld(c, anc, false) && HeldAre(tb.held, {page.id}, anc)
    requires tb.Logged()
    modifies tb
    ensures tb.origin == old(tb.origin)
    ensures tb.Logged()
    ensures tb.held == {}
    ensures res.Ok? <==> LeafDeleteFits(c, t, k)
    ensures res == Err(Panic) <==> LeafDeletePanics(c, t, k)
    ensures res.Err? ==> res == Err(Panic) || (res == Err(PageFull) && !IntKeyed(tb.schema))
    ensures res.Ok? || res == Err(Panic) ==> tb.Valid() && tb.Contents() == ContentsOf(c, t) - {k}
    ensures res == Err(PageFull) <==> LeafFailedDelete(c, t, k).Some?
    ensures res == Err(PageFull) ==> SpelledTable(tb) && tb.Contents() == ContentsOf(c, t) - {k}
    ensures res == Err(PageFull) ==> LostAt(tb, LeafFailedDelete(c, t, k).value)
    ensures KeyedCtx(c) ==> res != Err(Panic) && (res.Ok? ==> Keyed(tb.tree))
  {
    hide Encodable, Steps.Replay;
    hide Broken, LostAt, Spelled, FailedBorrow;
    hide Sound, DeleteHeld, KeyedCtx, AllLeaves, RowsOf, ToMap, Search, RebalanceFits, RebalancePanics, LeafOk, Keyed;
    hide CtxWf, Wf, Lo, Hi, RowsWithout;
    ghost var t' := LeafT(t.id, RowsWithout(t.rows, i));
    FocusPage(tb.schema, tb.pages, tb.m, c, t, h, tb.free);
    RemoveFacts(tb.schema, c, t, h, k, i);
    ReplaceLeafState(tb.schema, tb.pages, tb.m, c, t, h, tb.free, t'.rows, page');
    FocusEncodable(tb.schema, tb.pages[page.id := page'], tb.m, c, t', h, tb.free, page.id);
    tb.Put(page.id, page');
    ghost var rows := RowsOf(AllLeaves(c, t'));
    FocusPage(tb.schema, tb.pages, tb.m, c, t', h, tb.free);
    FocusSorted(tb.schema, c, t', h);
    res := Rebalance(tb, page.id, anc, c, t', h);
    if res == Err(PageFull) {
      BrokenTable(tb, rows, FailedBorrow(c, t').value);
    }
  }

  /** Exactly the rows of the map between two separators are not found by their keys. */
  ghost predicate LostOnly(tree: Tree, m: map<Key, Row>, old_: Key, new_: Key) {
    forall x :: Find(tree, x) == if x in m && !Between(old_, new_, x) then Some(m[x]) else None
  }

  /** After a failed borrow, with the old separator and the one that did not fit: they differ, and exactly the
      rows between them are not found. */
  ghost predicate LostAt(tb: Table, gap: (Key, Key))
    reads tb
  {
    gap.0 != gap.1 && LostOnly(tb.tree, tb.Contents(), gap.0, gap.1)
  }

  lemma {:induction false} BrokenTable(tb: Table, rows: seq<Row>, gap: (Key, Key))
    requires tb.held == {} && SortedRows(rows)
    requires Broken(tb.schema, tb.pages, tb.m, tb.tree, tb.free, rows, gap.0, gap.1)
    ensures SpelledTable(tb) && tb.Contents() == ToMap(rows) && LostAt(tb, gap)
  {
    hide Spelled, ToMap, RowsOf, Leaves, Find, RowWith, SortedRows, Between, LostOnly, LostBetween;
    assert AllLeaves(Top, tb.tree) == Leaves(tb.tree);
    LostRows(tb.tree, rows, gap.0, gap.1);
  }

  lemma {:induction false} LostRows(t: Tree, rows: seq<Row>, old_: Key, new_: Key)
    requires LostBetween(t, rows, old_, new_) && SortedRows(rows)
    ensures LostOnly(t, ToMap(rows), old_, new_)
  {
    hide ToMap, Find, RowWith, SortedRows, Between;
    forall x
      ensures Find(t, x) == if x in ToMap(rows) && !Between(old_, new_, x) then Some(ToMap(rows)[x]) else None
    {
      RowWithIsLookup(rows, x);
    }
  }

  lemma {:induction false} RemoveFacts(s: Schema, c: Ctx, t: Tree, h: nat, k: Key, i: nat)
    requires CtxWf(s, c, h) && t.LeafT? && Wf(s, t, Lo(c), Hi(c), h) && Search(RecordKeys(t.rows), k) == Hit(i)
    ensures LeafOk(s, RowsWithout(t.rows, i), Lo(c), Hi(c))
    ensures ContentsOf(c, LeafT(t.id, RowsWithout(t.rows, i))) == ContentsOf(c, t) - {k}
  {
    hide CtxWf, LeafOk, Lo, Hi, ContentsOf, Search;
    LeafRemoveContents(s, c, t, h, k, i);
    LeafRemoveOk(s, t.rows, Lo(c), Hi(c), i);
  }

  lemma {:induction false} MissFits(c: Ctx, t: Tree, k: Key)
    requires t.LeafT? && Search(RecordKeys(t.rows), k).Miss?
    ensures LeafDeleteFits(c, t, k) && !LeafDeletePanics(c, t, k) && LeafFailedDelete(c, t, k) == None
  {
  }

  lemma {:induction false} DeleteHeldAtRoot()
    ensures DeleteHeld(Top, [], false)
  {
  }

  lemma {:induction false} HeldStart(id: PageId)
    ensures HeldAre({id}, {id}, [])
  {
  }

  /** The descent of a delete: latches the way down to the leaf of the key, and lets go of the pages above every
      delete-safe page. */
  method DescendDelete(tb: Table, k: Key) returns (page: Page, anc: seq<(PageId, nat)>, ghost c: Ctx, ghost t: Tree,
                                                   ghost h: nat)
    requires tb.Valid()
    modifies tb`held, tb`log
    ensures tb.Logged() && page.body.Leaf?
    ensures Sound(tb.schema, tb.pages, tb.m, c, t, h, tb.free) && KeyFits(c, k) && t.LeafT?
    ensures AllLeaves(c, t) == AllLeaves(Top, tb.tree)
    ensures t.id in tb.pages && page == tb.pages[t.id] && page.id == t.id
    ensures DeleteHeld(c, anc, false) && HeldAre(tb.held, {page.id}, anc)
    ensures RoutedLeaf(Top, tb.tree, k) == (c, t)
    ensures Keyed(tb.tree) ==> KeyedCtx(c)
  {
    hide Sound, KeyFits, AllLeaves, FindChildIndex, CtxWf, Wf, Keyed, KeyedCtx, DeleteHeld, HeldAre, Encodable;
    hide RoutedLeaf, RootIds, IsDeleteSafe, DeleteSafeKeys, RepCtx, Steps.Replay;
    c, t, h := Top, tb.tree, tb.height;
    FocusPage(tb.schema, tb.pages, tb.m, c, t, h, tb.free);
    RootFits(k);
    var root := tb.LookUpRoot();
    page := tb.FetchWrite(root);
    anc := [];
    DeleteHeldAtRoot();
    KeyedTop();
    assert tb.held == {page.id};
    HeldStart(page.id);
    while page.body.Internal?
      invariant Sound(tb.schema, tb.pages, tb.m, c, t, h, tb.free) && KeyFits(c, k)
      invariant AllLeaves(c, t) == AllLeaves(Top, tb.tree)
      invariant t.id in tb.pages && page == tb.pages[t.id] && page.id == t.id
      invariant DeleteHeld(c, anc, false) && HeldAre(tb.held, {page.id}, anc)
      invariant RoutedLeaf(c, t, k) == RoutedLeaf(Top, tb.tree, k)
      invariant Keyed(tb.tree) ==> KeyedCtx(c) && Keyed(t)
      invariant tb.Logged()
      decreases h
    {
      FocusPage(tb.schema, tb.pages, tb.m, c, t, h, tb.free);
      RepCtxOf(tb.schema, tb.pages, tb.m, c, t, h, tb.free);
      Route(tb.schema, tb.pages, tb.m, c, t, h, tb.free, k);
      var i := FindChildIndex(page.body.keys, k);
      DeleteDescend(tb.schema, tb.pages, tb.m, c, t, h - 1, tb.free, anc, i);
      RouteStep(c, t, k);
      if Keyed(tb.tree) {
        KidKeyed(c, t, i);
      }
      SafePage(page, t.keys, page.body.children);
      if IsDeleteSafe(page) {
        HeldCleared(tb.held, page.id, anc);
        tb.ReleaseStack(StackIds(anc));
        anc := [];
      }
      HeldPushed(tb.held, page.id, anc, i, t.kids[i].id);
      anc := anc + [(page.id, i)];
      c, t, h := KidCtx(c, t, i), t.kids[i], h - 1;
      FocusPage(tb.schema, tb.pages, tb.m, c, t, h, tb.free);
      page := tb.FetchWrite(page.body.children[i]);
    }
    FocusPage(tb.schema, tb.pages, tb.m, c, t, h, tb.free);
    RouteEnd(c, t, k);
  }

  /** The deletion, as an entry of the map. */
  method DeleteEntry(tb: Table, k: Key) returns (res: Result<Option<Row>, PageError>)
    requires tb.Valid()
    modifies tb
    ensures tb.origin == old(tb.origin)
    ensures tb.Logged()
    ensures tb.held == {}
    ensures res.Ok? <==> old(DeleteFits(tb.tree, k))
    ensures res == Err(Panic) <==> old(DeletePanics(tb.tree, k))
    ensures res.Err? ==> res == Err(Panic) || (res == Err(PageFull) && !IntKeyed(tb.schema))
    ensures res.Ok? ==> res.value == old(if k in tb.Contents() then Some(tb.Contents()[k]) else None)
    ensures res.Ok? || res == Err(Panic) ==> tb.Valid() && tb.Contents() == old(tb.Contents()) - {k}
    ensures res == Err(PageFull) <==> old(FailedDelete(tb.tree, k)).Some?
    ensures res == Err(PageFull) ==> SpelledTable(tb) && tb.Contents() == old(tb.Contents()) - {k}
    ensures res == Err(PageFull) ==> LostAt(tb, old(FailedDelete(tb.tree, k)).value)
    ensures old(Keyed(tb.tree)) ==> res != Err(Panic) && (res.Ok? ==> Keyed(tb.tree))
    ensures k !in old(tb.Contents()) ==> tb.pages == old(tb.pages)
    ensures KeepsName(old(tb.pages), tb.pages, tb.m)
  {
    hide Sound, KeyFits, AllLeaves, Search, CtxWf, Wf, ToMap, RowsOf, Keyed, KeyedCtx, DeleteHeld, HeldAre, Encodable;
    hide LostAt, Spelled, RoutedLeaf, LeafDeleteFits, LeafDeletePanics, LeafFailedDelete, Steps.Replay;
    var page, anc;
    ghost var c, t, h;
    page, anc, c, t, h := DescendDelete(tb, k);
    FocusPage(tb.schema, tb.pages, tb.m, c, t, h, tb.free);
    LeafDecides(tb.schema, c, t, h, k);
    var (page', removed) := LeafRemove(page, k).value;
    match removed {
      case None =>
        tb.ReleaseAll();
        MissFits(c, t, k);
        return Ok(None);
      case Some(row) =>
        var mended := DeleteFound(tb, page, row, page', anc, c, t, h, Search(RecordKeys(t.rows), k).at, k);
        res := match mended case Ok(_) => Ok(Some(row)) case Err(e) => Err(e);
    }
  }

  /** `BTree::delete`. The answer is what the map held under the key, and the map loses exactly that
      entry, through every cascade of merges, borrows and the collapse of the root. It goes through
      exactly when `DeleteFits`. Otherwise it panics, when an underfull page has no sibling, which never
      happens if every internal page has a key; or a new separator does not fit, which never happens with
      integer keys: then exactly the rows between the separators of `FailedDelete` are not found any more. */
  method Delete(tb: Table, k: Key) returns (res: Result<Option<Row>, PageError>)
    requires tb.Valid()
    modifies tb
    ensures tb.origin == old(tb.origin)
    ensures tb.Logged()
    ensures tb.held == {}
    ensures res.Ok? <==> old(DeleteFits(tb.tree, k))
    ensures res == Err(Panic) <==> old(DeletePanics(tb.tree, k))
    ensures res.Err? ==> res == Err(Panic) || (res == Err(PageFull) && !IntKeyed(tb.schema))
    ensures res.Ok? ==> res.value == old(if k in tb.Contents() then Some(tb.Contents()[k]) else None)
    ensures res.Ok? || res == Err(Panic) ==> tb.Valid() && tb.Contents() == old(tb.Contents()) - {k}
    ensures res == Err(PageFull) <==> old(FailedDelete(tb.tree, k)).Some?
    ensures res == Err(PageFull) ==> SpelledTable(tb) && tb.Contents() == old(tb.Contents()) - {k}
    ensures res == Err(PageFull) ==> LostAt(tb, old(FailedDelete(tb.tree, k)).value)
    ensures old(Keyed(tb.tree)) ==> res != Err(Panic) && (res.Ok? ==> Keyed(tb.tree))
    ensures k !in old(tb.Contents()) ==> tb.pages == old(tb.pages)
    ensures KeepsName(old(tb.pages), tb.pages, tb.m)
    ensures res.Ok? ==> FoundIn(old(RowsStored(tb.pages)), k, res.value)
    ensures res.Ok? || res == Err(Panic) ==> RowsStored(tb.pages) == OtherThan(old(RowsStored(tb.pages)), k)
  {
    hide MapOf, RowsStored, FoundIn, OtherThan, ContentsOf, Sound, Keyed, DeleteFits, DeletePanics, FailedDelete;
    hide LostAt, SpelledTable, Steps.Replay, SameName;
    TableMeans(tb);
    ghost var m0, rows0 := tb.Contents(), RowsStored(tb.pages);
    LookupFinds(m0, rows0, k);
    res := DeleteEntry(tb, k);
    if res.Ok? || res == Err(Panic) {
      RowsLess(tb, m0, rows0, k);
    }
  }
}

/** `BTree::insert` and `split_and_insert` (`src/btree/tree.rs`) as imperative code over latched pages. */
module InsertMethods {
  import opened Common
  import opened Schemas
  import opened Pages
  import opened Trees
  import opened Stores
  import opened Focus
  import opened Contents
  import opened StoredRows
  import opened Splitting
  import opened Accounting
  import opened Tables
  import opened Inserting
  import opened Inserts
  import opened Lookups
  import opened PageCodec
  import opened Storing
  import Steps

  /** The latches an operation holds: all on pages of the tree, the stack `anc` among them. */
  ghost predicate Latched(held: set<PageId>, anc: seq<PageId>, used: multiset<PageId>) {
    (forall x :: x in held ==> x in used) && (forall x :: x in anc ==> x in held)
  }

  lemma {:induction false} LatchedPop(held: set<PageId>, anc: seq<PageId>, used: multiset<PageId>, gone: PageId,
                                      id: PageId, used': multiset<PageId>)
    requires Latched(held, anc, used) && gone !in anc && used' == used + multiset{id}
    ensures Latched(held - {gone}, anc, used')
  {
  }

  lemma {:induction false} MetaKept(pages: Store, pages': Store, m: PageId, used: multiset<PageId>, fl: seq<PageId>,
                                    root: PageId, s: Schema)
    requires MetaNames(pages, m, root, s) && Space(pages', m, used, fl)
    requires m in pages' && pages'[m].body.Meta? ==>
      pages'[m].body.root == pages[m].body.root && pages'[m].body.schema == pages[m].body.schema
    ensures MetaNames(pages', m, root, s) && pages'[m].id == m
  {
  }

  /** Allocates a page while a split is pending; its surroundings stay as they are. */
  method AllocatePending(tb: Table, ghost c: Ctx, ghost l: Tree, ghost sep: Key, ghost r: Tree, ghost h: nat)
    returns (id: PageId)
    requires PendingState(tb.schema, tb.pages, tb.m, c, l, sep, r, h, tb.free) && tb.Logged()
    requires forall x :: x in tb.held ==> x in CtxIds(c) + Ids(l) + Ids(r)
    modifies tb`pages, tb`held, tb`free, tb`log
    ensures tb.Logged() && tb.held == old(tb.held) + {id}
    ensures Pending(tb.schema, tb.pages, c, l, sep, r, h) && MetaNames(tb.pages, tb.m, RootOf(c, l.id), tb.schema)
    ensures Space(tb.pages, tb.m, CtxIds(c) + Ids(l) + Ids(r) + multiset{id}, tb.free)
    ensures id !in CtxIds(c) + Ids(l) + Ids(r) && id in tb.pages && tb.pages[id].body.Free?
    ensures forall x :: x in CtxIds(c) + Ids(l) + Ids(r) && x in old(tb.pages) ==>
      x in tb.pages && tb.pages[x] == old(tb.pages)[x]
  {
    hide Pending, Space, Ids, CtxIds, Steps.Replay, Encodable;
    ghost var used, before := CtxIds(c) + Ids(l) + Ids(r), tb.pages;
    SpaceGivesDistinct(tb.pages, tb.m, used, tb.free);
    id := tb.Allocate(used);
    MetaKept(before, tb.pages, tb.m, used + multiset{id}, tb.free, RootOf(c, l.id), tb.schema);
    PendingFrame(tb.schema, before, tb.pages, c, l, sep, r, h);
  }

  /** The root was split: a new root is allocated over the two halves. */
  method GrowRoot(tb: Table, leftId: PageId, sep: Key, rightId: PageId, ghost l: Tree, ghost r: Tree, ghost h: nat)
    requires PendingState(tb.schema, tb.pages, tb.m, Top, l, sep, r, h, tb.free) && l.id == leftId && r.id == rightId
    requires forall x :: x in tb.held ==> x in CtxIds(Top) + Ids(l) + Ids(r)
    requires tb.Logged()
    modifies tb
    ensures tb.origin == old(tb.origin)
    ensures tb.Valid()
    ensures AllLeaves(Top, tb.tree) == PairLeaves(Top, l, r)
    ensures Keyed(l) && Keyed(r) ==> Keyed(tb.tree)
  {
    hide Encodable, Steps.Replay, SameName, KeepsName;
    hide Pending, Space, Ids, PairLeaves, AllLeaves, Sound, Keyed;
    ghost var used := CtxIds(Top) + Ids(l) + Ids(r);
    var id := AllocatePending(tb, Top, l, sep, r, h);
    assert used + multiset{id} == Ids(l) + Ids(r) + multiset{id};
    NewRootState(tb.schema, tb.pages, tb.m, l, sep, r, h, tb.free, id);
    SpaceGivesDistinct(tb.pages, tb.m, used + multiset{id}, tb.free);
    FocusEncodable(tb.schema, WithRoot(tb.pages[id := NewRoot(id, leftId, sep, rightId)], tb.m, id), tb.m, Top,
                   NodeT(id, [sep], [l, r]), h + 1, tb.free, id);
    SpacePut(tb.pages, tb.m, used + multiset{id}, tb.free, id, NewRoot(id, leftId, sep, rightId));
    tb.Put(id, NewRoot(id, leftId, sep, rightId));
    tb.SetRootId(id, used + multiset{id});
    tb.ReleaseAll();
    tb.tree, tb.height := NodeT(id, [sep], [l, r]), h + 1;
    if Keyed(l) && Keyed(r) {
      RootKeyed(id, l, sep, r);
    }
  }

  /** The page above has room for the separator. */
  method EnterHere(tb: Table, parentId: PageId, sep: Key, rightId: PageId, ghost c: Ctx, ghost l: Tree, ghost r: Tree,
                   ghost h: nat)
    requires PendingState(tb.schema, tb.pages, tb.m, c, l, sep, r, h, tb.free) && r.id == rightId
    requires c.Down? && c.id == parentId && c.id in tb.held && c.id in tb.pages
    requires CanInsertSeparator(tb.pages[c.id], sep)
    requires tb.Logged()
    modifies tb
    ensures tb.origin == old(tb.origin)
    ensures tb.Valid()
    ensures AllLeaves(Top, tb.tree) == PairLeaves(c, l, r)
    ensures KeyedCtx(c) && Keyed(l) && Keyed(r) ==> Keyed(tb.tree)
  {
    hide Encodable, Steps.Replay;
    hide Space, Ids, CtxIds, PairLeaves, AllLeaves, Sound, Keyed, KeyedCtx, WithKid, KeyBytes, InternalEntrySize;
    hide Pending;
    ParentPage(tb.schema, tb.pages, tb.m, c, l, sep, r, h, tb.free);
    InsertState(tb.schema, tb.pages, tb.m, c, l, sep, r, h, tb.free);
    ghost var t := WithKid(c.id, c.keys, c.left + [l] + c.right, |c.left|, l, sep, r);
    FocusEncodable(tb.schema, tb.pages[c.id := InternalInsert(tb.pages[c.id], sep, r.id).value], tb.m, c.up, t, h + 1,
                   tb.free, c.id);
    tb.Put(parentId, InternalInsert(tb.pages[parentId], sep, rightId).value);
    FocusTop(tb.schema, tb.pages, tb.m, c.up, t, h + 1, tb.free);
    tb.tree, tb.height := Plug(c.up, t), h + 1 + Depth(c.up);
    if KeyedCtx(c) && Keyed(l) && Keyed(r) {
      WithKidKeyed(c, l, sep, r);
      KeyedPlug(c.up, t);
    }
    tb.ReleaseAll();
  }

  /** Both halves of a pending split can be written. */
  lemma {:induction false} PendingEncodable(s: Schema, pages: Store, m: PageId, c: Ctx, l: Tree, sep: Key, r: Tree,
                                            h: nat, fl: seq<PageId>)
    requires PendingState(s, pages, m, c, l, sep, r, h, fl)
    ensures l.id in pages && Encodable(pages[l.id]) && r.id in pages && Encodable(pages[r.id])
  {
    hide Wf, CtxWf, RepCtx, RepT, Chain, Space, Encodable, ValidSchema, PairLeaves, ValidKey, Lo, Hi;
    SchemaIsValid(s, pages, m, CtxIds(c) + Ids(l) + Ids(r), fl, RootOf(c, l.id));
    RootEncodable(s, pages, l, Lo(c), Some(sep), h);
    RootEncodable(s, pages, r, Some(sep), Hi(c), h);
  }

  /** What the page above a pending split looks like. */
  lemma {:induction false} ParentPage(s: Schema, pages: Store, m: PageId, c: Ctx, l: Tree, sep: Key, r: Tree, h: nat,
                                      fl: seq<PageId>)
    requires PendingState(s, pages, m, c, l, sep, r, h, fl) && c.Down?
    ensures c.id in pages && pages[c.id].id == c.id && pages[c.id].body.Internal? && pages[c.id].body.keys == c.keys
    ensures |c.left| + |c.right| == |c.keys| && ValidKey(s, sep) && InternalEntrySize(sep) <= MAX_INTERNAL_ENTRY_SIZE
    ensures CanInsertSeparator(pages[c.id], sep) <==> KeyBytes(c.keys) + InternalEntrySize(sep) <= INTERNAL_USABLE
  {
    hide Wf, CtxWf, RepCtx, RepT, Chain, Space, Ids, CtxIds, KidsBut, Lo, Hi, KidLo, KidHi, Above, Below, PairLeaves;
    hide RepAll, KeyBytes, InternalEntrySize;
    PendingGap(s, c, l, sep, r, h);
    PendingRep(pages, c, l, r);
    ValidKeySize(s, sep);
    KeyRoom(pages[c.id], sep);
  }

  lemma {:induction false} SplitLsns(p: Page, newId: PageId, sep: Key, rid: PageId)
    requires SplitParentPages(p, newId, sep, rid).Ok?
    ensures var (lp, _, rp) := SplitParentPages(p, newId, sep, rid).value; lp.lsn == p.lsn && rp.lsn == 0
  {
    hide Search, SplitOff, KeySizes, CanInsertSeparator, InternalEntrySize, KeyLess;
  }

  /** The page above is full: it is split, and the separator goes to the half it belongs to. */
  method SplitAbove(tb: Table, parentId: PageId, sep: Key, rightId: PageId, ghost c: Ctx, ghost l: Tree, ghost r: Tree,
                    ghost h: nat)
    returns (promoted: Key, newId: PageId, ghost a: Tree, ghost b: Tree)
    requires PendingState(tb.schema, tb.pages, tb.m, c, l, sep, r, h, tb.free) && r.id == rightId
    requires c.Down? && c.id == parentId && c.id in tb.held && c.id in tb.pages
    requires !CanInsertSeparator(tb.pages[c.id], sep)
    requires forall x :: x in tb.held ==> x in CtxIds(c) + Ids(l) + Ids(r)
    requires tb.Logged()
    modifies tb`pages, tb`held, tb`free, tb`log
    ensures tb.Logged()
    ensures a.id == c.id && b.id == newId
    ensures PendingState(tb.schema, tb.pages, tb.m, c.up, a, promoted, b, h + 1, tb.free)
    ensures PairLeaves(c.up, a, b) == PairLeaves(c, l, r)
    ensures CtxIds(c.up) + Ids(a) + Ids(b) == CtxIds(c) + Ids(l) + Ids(r) + multiset{newId}
    ensures newId !in CtxIds(c) + Ids(l) + Ids(r) && tb.held == old(tb.held) - {c.id}
    ensures KeyedCtx(c) && Keyed(l) && Keyed(r) ==> KeyedCtx(c.up) && Keyed(a) && Keyed(b)
  {
    hide Encodable, Steps.Replay, SameName, KeepsName;
    hide Pending, Space, Ids, CtxIds, PairLeaves, KeyBytes, InternalEntrySize, SplitParent, SplitOff, KeySizes, Keyed;
    hide KeyedCtx, WithKid, InternalInsert;
    ParentPage(tb.schema, tb.pages, tb.m, c, l, sep, r, h, tb.free);
    CtxIdIn(c);
    newId := AllocatePending(tb, c, l, sep, r, h);
    SplitState(tb.schema, tb.pages, tb.m, c, l, sep, r, h, tb.free, newId);
    SplitLsns(tb.pages[parentId], newId, sep, rightId);
    var (lp, k, rp) := SplitParentPages(tb.pages[parentId], newId, sep, rightId).value;
    a, b := SplitParent(c, l, sep, r, SplitOff(KeySizes(c.keys), 2), newId).0, SplitParent(c, l, sep, r,
        SplitOff(KeySizes(c.keys), 2), newId).1;
    PendingEncodable(tb.schema, tb.pages[parentId := lp][newId := rp], tb.m, c.up, a, k, b, h + 1, tb.free);
    tb.Put(parentId, lp);
    tb.Put(newId, rp);
    promoted := k;
    if KeyedCtx(c) && Keyed(l) && Keyed(r) {
      SplitParentKeyed(c, l, sep, r, SplitOff(KeySizes(c.keys), 2), newId);
    }
    tb.Release(newId);
    tb.Release(parentId);
  }

  /** Enters a separator above a split, splitting further pages as far as needed. The held ancestors
      are enough: the loop runs out of them only at the root. */
  method EnterSplit(tb: Table, leftId0: PageId, sep0: Key, rightId0: PageId, anc0: seq<PageId>,
                    ghost c0: Ctx, ghost l0: Tree, ghost r0: Tree, ghost h0: nat)
    requires PendingState(tb.schema, tb.pages, tb.m, c0, l0, sep0, r0, h0, tb.free)
    requires l0.id == leftId0 && r0.id == rightId0
    requires InsertHeld(c0, anc0, false) && Latched(tb.held, anc0, CtxIds(c0) + Ids(l0) + Ids(r0))
    requires tb.Logged()
    modifies tb
    ensures tb.origin == old(tb.origin)
    ensures tb.Valid()
    ensures AllLeaves(Top, tb.tree) == PairLeaves(c0, l0, r0)
    ensures KeyedCtx(c0) && Keyed(l0) && Keyed(r0) ==> Keyed(tb.tree)
  {
    hide Encodable, Steps.Replay;
    hide Pending, Space, Ids, CtxIds, PairLeaves, AllLeaves, KeyBytes, InternalEntrySize, Sound, Keyed, KeyedCtx;
    hide PendingState;
    var leftId, sep, rightId, anc := leftId0, sep0, rightId0, anc0;
    ghost var c, l, r, h := c0, l0, r0, h0;
    ghost var keyed := KeyedCtx(c0) && Keyed(l0) && Keyed(r0);
    while anc != []
      invariant PendingState(tb.schema, tb.pages, tb.m, c, l, sep, r, h, tb.free)
      invariant l.id == leftId && r.id == rightId
      invariant InsertHeld(c, anc, false) && Latched(tb.held, anc, CtxIds(c) + Ids(l) + Ids(r))
      invariant PairLeaves(c, l, r) == PairLeaves(c0, l0, r0)
      invariant keyed ==> KeyedCtx(c) && Keyed(l) && Keyed(r)
      invariant tb.Logged() && tb.origin == old(tb.origin)
      decreases |anc|
    {
      PopFacts(tb.schema, tb.pages, tb.m, c, l, sep, r, h, tb.free, anc);
      var parentId := anc[|anc| - 1];
      assert parentId in anc && forall x :: x in anc[..|anc| - 1] ==> x in anc;
      anc := anc[..|anc| - 1];
      if CanInsertSeparator(tb.pages[parentId], sep) {
        EnterHere(tb, parentId, sep, rightId, c, l, r, h);
        return;
      }
      ghost var c', used, held := c.up, CtxIds(c) + Ids(l) + Ids(r), tb.held;
      sep, rightId, l, r := SplitAbove(tb, parentId, sep, rightId, c, l, r, h);
      c, h, leftId := c', h + 1, parentId;
      LatchedPop(held, anc, used, parentId, rightId, CtxIds(c) + Ids(l) + Ids(r));
    }
    GrowRoot(tb, leftId, sep, rightId, l, r, h);
  }

  /** What popping a held ancestor tells: it is the page above the split, and if it cannot take the
      separator, it was not the place where the held stack was cut. */
  lemma {:induction false} PopFacts(s: Schema, pages: Store, m: PageId, c: Ctx, l: Tree, sep: Key, r: Tree, h: nat,
                                    fl: seq<PageId>, anc: seq<PageId>)
    requires PendingState(s, pages, m, c, l, sep, r, h, fl) && anc != [] && InsertHeld(c, anc, false)
    ensures c.Down? && c.id == anc[|anc| - 1] && c.id in pages
    ensures c.id !in anc[..|anc| - 1]
    ensures !CanInsertSeparator(pages[c.id], sep) ==> InsertHeld(c.up, anc[..|anc| - 1], false)
  {
    hide Pending, Space, CtxIds, Ids, KeyBytes, InternalEntrySize, CanInsertSeparator;
    ParentPage(s, pages, m, c, l, sep, r, h, fl);
    var used := CtxIds(c) + Ids(l) + Ids(r);
    SpaceGivesDistinct(pages, m, used, fl);
    assert used == CtxIds(c) + (Ids(l) + Ids(r));
    DistinctPart(CtxIds(c), Ids(l) + Ids(r));
    CtxIdIn(c);
    HeldWithin(c.up, anc[..|anc| - 1], SplitSafeKeys(c.keys));
  }

  /** Held ancestors are internal pages above the focus. */
  lemma {:induction false} HeldInternal(pages: Store, c: Ctx, hole: PageId, anc: seq<PageId>, safe: bool)
    requires RepCtx(pages, c, hole) && InsertHeld(c, anc, safe)
    ensures forall x :: x in anc ==> x in pages && pages[x].body.Internal?
    decreases |anc|
  {
    hide RepAll, SplitSafeKeys, RootIds;
    if anc != [] {
      HeldInternal(pages, c.up, c.id, anc[..|anc| - 1], SplitSafeKeys(c.keys));
      assert anc == anc[..|anc| - 1] + [c.id];
    }
  }

  /** What is known on entry to `split_and_insert`. */
  lemma {:induction false} SplitEntry(s: Schema, pages: Store, m: PageId, c: Ctx, t: Tree, h: nat, fl: seq<PageId>,
                                      anc: seq<PageId>, row: Row)
    requires Sound(s, pages, m, c, t, h, fl) && t.LeafT? && InsertHeld(c, anc, false) && t.id in pages
    requires !CanInsert(pages[t.id], row)
    ensures LeafBytes(t.rows) + LeafEntrySize(row) > LEAF_USABLE && Sorted(RecordKeys(t.rows))
    ensures forall x :: x in anc ==> x in CtxIds(c) && x in pages && pages[x].body.Internal?
    ensures t.id in CtxIds(c) + Ids(t) && pages[t.id].body.Leaf?
  {
    hide CtxWf, RepCtx, Chain, Space, CtxIds, LeafBytes, LeafEntrySize, InsertHeld;
    HeldInternal(pages, c, t.id, anc, false);
    HeldWithin(c, anc, false);
  }

  /** Puts the row into the left or the right half of a split leaf. */
  method InsertHalf(tb: Table, leftId: PageId, sep: Key, rightId: PageId, row: Row, ghost c: Ctx, ghost l: Tree,
                    ghost r: Tree,
                    ghost h: nat, ghost rows: seq<Row>, ghost at: nat, ghost i: nat) returns (ghost l': Tree,
                        ghost r': Tree)
    requires PendingState(tb.schema, tb.pages, tb.m, c, l, sep, r, h, tb.free)
    requires l.LeafT? && r.LeafT? && l.id == leftId && r.id == rightId && leftId in tb.held && rightId in tb.held
    requires 0 < at < |rows| && l.rows == rows[..at] && r.rows == rows[at..] && sep == RowKey(rows[at])
    requires ValidRow(tb.schema, row) && KeyFits(c, RowKey(row))
    requires Sorted(RecordKeys(rows)) && Search(RecordKeys(rows), RowKey(row)) == Miss(i)
    requires LeafBytes(rows[..at]) + LeafEntrySize(row) <= LEAF_USABLE
    requires LeafBytes(rows[at..]) + LeafEntrySize(row) <= LEAF_USABLE
    requires tb.Logged()
    modifies tb`pages, tb`log
    ensures tb.Logged()
    ensures PendingState(tb.schema, tb.pages, tb.m, c, l', sep, r', h, tb.free)
    ensures l'.LeafT? && r'.LeafT? && l'.id == leftId && r'.id == rightId
    ensures RowsOf(PairLeaves(c, l', r')) ==
            RowsOf(LeavesBefore(c)) + (rows[..i] + [row] + rows[i..]) + RowsOf(LeavesAfter(c))
  {
    hide Encodable, Steps.Replay;
    hide Pending, Space, CtxIds, LeafBytes, LeafEntrySize, KeyFits, Search, Sorted, RowKey, ValidRow, RowsOf;
    hide LeavesBefore, LeavesAfter, LeafInsert, HalfRows, PairLeaves;
    HalfInsert(tb.schema, tb.pages, tb.m, c, l, sep, r, h, tb.free, rows, at, row, i, !KeyLess(sep, RowKey(row)));
    HalfRowsWhole(rows, at, i, row);
    HalfIds(tb.schema, tb.pages, c, l, sep, r, h);
    if KeyLess(sep, RowKey(row)) {
      l', r' := l, LeafT(rightId, HalfRows(rows, at, i, row, false));
      PendingEncodable(tb.schema, tb.pages[rightId := LeafInsert(tb.pages[rightId], row).value], tb.m, c, l', sep, r',
                       h, tb.free);
      tb.Put(rightId, LeafInsert(tb.pages[rightId], row).value);
    } else {
      l', r' := LeafT(leftId, HalfRows(rows, at, i, row, true)), r;
      PendingEncodable(tb.schema, tb.pages[leftId := LeafInsert(tb.pages[leftId], row).value], tb.m, c, l', sep, r', h,
                       tb.free);
      tb.Put(leftId, LeafInsert(tb.pages[leftId], row).value);
    }
    PairLeafRows(c, l', r');
  }

  lemma {:induction false} HalfIds(s: Schema, pages: Store, c: Ctx, l: Tree, sep: Key, r: Tree, h: nat)
    requires Pending(s, pages, c, l, sep, r, h)
    ensures l.id in pages && r.id in pages && pages[l.id].id == l.id && pages[r.id].id == r.id
  {
    hide Wf, CtxWf, RepCtx, Chain;
  }

  /** Allocates a page beside the leaf in focus, which keeps its surroundings. */
  method AllocateBeside(tb: Table, ghost c: Ctx, ghost t: Tree, ghost h: nat) returns (rid: PageId)
    requires Sound(tb.schema, tb.pages, tb.m, c, t, h, tb.free) && tb.Logged()
    requires forall x :: x in tb.held ==> x in CtxIds(c) + Ids(t)
    modifies tb`pages, tb`held, tb`free, tb`log
    ensures tb.Logged() && tb.held == old(tb.held) + {rid}
    ensures Shape(tb.schema, tb.pages, c, t, h) && MetaNames(tb.pages, tb.m, RootOf(c, t.id), tb.schema)
    ensures Space(tb.pages, tb.m, CtxIds(c) + Ids(t) + multiset{rid}, tb.free) && rid !in CtxIds(c) + Ids(t)
    ensures rid in tb.pages && rid !in old(tb.held) && tb.pages[rid].body.Free?
    ensures forall x :: x in CtxIds(c) + Ids(t) ==> x in tb.pages && Encodable(tb.pages[x])
  {
    hide Shape, Space, CtxIds, Ids, Encodable, Steps.Replay;
    ghost var used, before := CtxIds(c) + Ids(t), tb.pages;
    SpaceGivesDistinct(tb.pages, tb.m, used, tb.free);
    AllEncodable(tb.schema, tb.pages, tb.m, c, t, h, tb.free);
    rid := tb.Allocate(used);
    MetaKept(before, tb.pages, tb.m, used + multiset{rid}, tb.free, RootOf(c, t.id), tb.schema);
    ShapeFrame(tb.schema, before, tb.pages, c, t, h);
  }

  /** Makes `prev` the left neighbour of the leaf `next`, if there is one. */
  method SetPrevOf(tb: Table, next: Option<PageId>, prev: PageId)
    requires tb.Logged()
    requires next.Some? ==>
      var n := next.value;
      n in tb.pages && n !in tb.held && tb.pages[n].id == n && tb.pages[n].body.Leaf? && Encodable(tb.pages[n])
    modifies tb`pages, tb`held, tb`log
    ensures tb.Logged() && tb.held == old(tb.held)
    ensures tb.pages == if next.None? then old(tb.pages)
      else old(tb.pages)[next.value :=
        old(tb.pages)[next.value].(body := old(tb.pages)[next.value].body.(prev := Some(prev)))]
  {
    hide Encodable, Steps.Replay;
    match next {
      case Some(n) =>
        var neighbour := tb.FetchWrite(n);
        RelinkEncodable(neighbour, Some(prev));
        tb.Put(n, neighbour.(body := neighbour.body.(prev := Some(prev))));
        tb.Release(n);
      case None =>
    }
  }

  /** Allocates a right neighbour for the full leaf in focus, splits the leaf and relinks the chain. */
  method SplitLeafOff(tb: Table, pageId: PageId, ghost row: Row, ghost anc: seq<PageId>, ghost c: Ctx, ghost t: Tree,
                      ghost h: nat)
    returns (sep: Key, rid: PageId)
    requires Sound(tb.schema, tb.pages, tb.m, c, t, h, tb.free) && t.LeafT? && t.id == pageId
    requires ValidRow(tb.schema, row)
    requires pageId in tb.pages && !CanInsert(tb.pages[pageId], row)
    requires InsertHeld(c, anc, false) && tb.held == {pageId} + (set x | x in anc)
    requires tb.Logged()
    modifies tb`pages, tb`held, tb`free, tb`log
    ensures tb.Logged()
    ensures |t.rows| >= 4
    ensures var at := SplitOff(RowSizes(t.rows), 1);
      && (var l, r := LeafT(t.id, t.rows[..at]), LeafT(rid, t.rows[at..]);
          PendingState(tb.schema, tb.pages, tb.m, c, l, sep, r, h, tb.free))
      && sep == RowKey(t.rows[at])
      && Latched(tb.held, anc, CtxIds(c) + Ids(t) + multiset{rid})
    ensures tb.held == old(tb.held) + {rid}
  {
    hide Shape, Space, CtxIds, Ids, LeafBytes, LeafEntrySize, InsertHeld, Sorted, RowKey, ValidRow, AllLeaves;
    hide CanInsert, PendingState, SplitOff, RowSizes, Chain, Encodable, Steps.Replay;
    SplitEntry(tb.schema, tb.pages, tb.m, c, t, h, tb.free, anc, row);
    rid := AllocateBeside(tb, c, t, h);
    SplitFacts(tb.schema, tb.pages, tb.m, c, t, h, tb.free, row, rid, anc);
    var (lp, k, rp) := SplitPage(tb.pages[pageId], rid).value;
    sep := k;
    ghost var split := tb.pages;
    tb.Put(pageId, lp);
    tb.Put(rid, rp);
    SetPrevOf(tb, rp.body.next, rid);
    assert tb.pages == RelinkNext(split[pageId := lp][rid := rp], rp);
  }

  /** What is known of the pages of a leaf split, once a page is allocated. */
  lemma {:induction false} SplitFacts(s: Schema, pages: Store, m: PageId, c: Ctx, t: Tree, h: nat, fl: seq<PageId>,
                                      row: Row, rid: PageId, anc: seq<PageId>)
    requires Shape(s, pages, c, t, h) && t.LeafT? && MetaNames(pages, m, RootOf(c, t.id), s)
    requires Space(pages, m, CtxIds(c) + Ids(t) + multiset{rid}, fl) && rid !in CtxIds(c) + Ids(t)
    requires ValidRow(s, row) && LeafBytes(t.rows) + LeafEntrySize(row) > LEAF_USABLE && InsertHeld(c, anc, false)
    requires forall x :: x in CtxIds(c) + Ids(t) ==> x in pages && Encodable(pages[x])
    ensures 4 <= |t.rows| && t.id in pages && t.id != rid && SplitPage(pages[t.id], rid).Ok?
    ensures var (lp, sep, rp) := SplitPage(pages[t.id], rid).value;
      var at := SplitOff(RowSizes(t.rows), 1);
      && lp.id == t.id && rp.id == rid && rp.body.Leaf? && sep == RowKey(t.rows[at]) && 0 < at < |t.rows|
      && PendingState(s, RelinkNext(pages[t.id := lp][rid := rp], rp), m, c,
                      LeafT(t.id, t.rows[..at]), sep, LeafT(rid, t.rows[at..]), h, fl)
      && Encodable(lp) && Encodable(rp)
      && (rp.body.next.Some? ==>
          var n := rp.body.next.value;
          && n in pages && n != t.id && n != rid && n !in anc && pages[n].id == n && pages[n].body.Leaf?
          && Encodable(pages[n]))
  {
    hide LeafBytes, LeafEntrySize, InsertHeld, RowKey, ValidRow, AllLeaves, PendingState, SplitOff, RowSizes, Encodable;
    hide Space, CtxIds, Ids, Wf, CtxWf, RepCtx, RepT, Chain;
    LeafSplitState(s, pages, m, c, t, h, fl, row, rid);
    var (lp, sep, rp) := SplitPage(pages[t.id], rid).value;
    SplitLinks(pages[t.id], rid);
    RootIdIn(t);
    SpaceGivesDistinct(pages, m, CtxIds(c) + Ids(t) + multiset{rid}, fl);
    DistinctPart(CtxIds(c) + Ids(t), multiset{rid});
    HeldInternal(pages, c, t.id, anc, false);
    NextIsElsewhere(pages, c, t);
    SplitEncodable(s, pages, m, c, t, h, fl, rid, lp, sep, rp);
  }

  /** Both halves of the split leaf can be written. */
  lemma {:induction false} SplitEncodable(s: Schema, pages: Store, m: PageId, c: Ctx, t: Tree, h: nat, fl: seq<PageId>,
                                          rid: PageId, lp: Page, k: Key, rp: Page)
    requires t.LeafT? && |t.rows| >= 4 && lp.id == t.id && rp.id == rid && t.id != rid && rp.body.Leaf?
    requires var at := SplitOff(RowSizes(t.rows), 1);
      PendingState(s, RelinkNext(pages[t.id := lp][rid := rp], rp), m, c, LeafT(t.id, t.rows[..at]), k,
                   LeafT(rid, t.rows[at..]), h, fl)
    requires rp.body.next.Some? ==> rp.body.next.value != t.id && rp.body.next.value != rid
    ensures Encodable(lp) && Encodable(rp)
  {
    hide PendingState, Encodable, SplitOff, RowSizes;
    var at := SplitOff(RowSizes(t.rows), 1);
    PendingEncodable(s, RelinkNext(pages[t.id := lp][rid := rp], rp), m, c, LeafT(t.id, t.rows[..at]), k,
                     LeafT(rid, t.rows[at..]), h, fl);
  }

  lemma {:induction false} SplitLinks(p: Page, rid: PageId)
    requires p.body.Leaf? && SplitPage(p, rid).Ok?
    ensures SplitPage(p, rid).value.2.body.Leaf? && SplitPage(p, rid).value.2.body.next == p.body.next
  {
  }

  /** `split_and_insert`: splits the full leaf in focus, puts the row into the half it belongs to and
      enters the new leaf above. */
  method SplitAndInsert(tb: Table, pageId: PageId, row: Row, anc: seq<PageId>, ghost c: Ctx, ghost t: Tree,
                        ghost h: nat, ghost i: nat)
    requires Sound(tb.schema, tb.pages, tb.m, c, t, h, tb.free) && t.LeafT? && t.id == pageId
    requires ValidRow(tb.schema, row) && KeyFits(c, RowKey(row)) && Search(RecordKeys(t.rows), RowKey(row)) == Miss(i)
    requires pageId in tb.pages && !CanInsert(tb.pages[pageId], row)
    requires InsertHeld(c, anc, false) && tb.held == {pageId} + (set x | x in anc)
    requires tb.Logged()
    modifies tb
    ensures tb.origin == old(tb.origin)
    ensures tb.Valid()
    ensures RowsOf(AllLeaves(Top, tb.tree)) ==
            RowsOf(LeavesBefore(c)) + (t.rows[..i] + [row] + t.rows[i..]) + RowsOf(LeavesAfter(c))
    ensures KeyedCtx(c) ==> Keyed(tb.tree)
  {
    hide Encodable, Steps.Replay;
    hide Shape, Space, CtxIds, LeafBytes, LeafEntrySize, InsertHeld, KeyFits, Search, Sorted, RowKey, ValidRow, RowsOf;
    hide LeavesBefore, LeavesAfter, AllLeaves;
    hide CanInsert, PendingState, SplitOff, RowSizes, KeyedCtx, PairLeaves;
    SplitEntry(tb.schema, tb.pages, tb.m, c, t, h, tb.free, anc, row);
    LeafFacts(tb.schema, tb.pages, c, t, h);
    LeafSplitRoom(tb.schema, t.rows, row);
    var sep, rid := SplitLeafOff(tb, pageId, row, anc, c, t, h);
    ghost var at := SplitOff(RowSizes(t.rows), 1);
    ghost var l, r := InsertHalf(tb, pageId, sep, rid, row, c, LeafT(t.id, t.rows[..at]), LeafT(rid, t.rows[at..]), h,
        t.rows, at, i);
    assert CtxIds(c) + Ids(t) + multiset{rid} == CtxIds(c) + Ids(l) + Ids(r);
    EnterSplit(tb, pageId, sep, rid, anc, c, l, r, h);
  }

  /** Moving the descent one page down: the child is not latched yet, and the stack stays right. */
  lemma {:induction false} DescendLatch(s: Schema, pages: Store, m: PageId, c: Ctx, t: Tree, h: nat, fl: seq<PageId>,
                                        anc: seq<PageId>, row: Row, i: nat)
    requires t.NodeT? && i < |t.kids| && Sound(s, pages, m, KidCtx(c, t, i), t.kids[i], h, fl)
    requires t.id in pages && pages[t.id].body == Internal(t.keys, RootIds(t.kids))
    requires InsertHeld(c, anc, StopsHere(pages[t.id], row))
    ensures InsertHeld(KidCtx(c, t, i), anc + [t.id], false)
    ensures t.kids[i].id !in anc + [t.id] && t.kids[i].id in pages && t.id !in anc
  {
    hide Shape, Space, CtxIds, Ids, InsertHeld, StopsHere, RootIds;
    var c' := KidCtx(c, t, i);
    HeldPush(c, t, anc, pages[t.id], row, i, false);
    HeldWithin(c', anc + [t.id], false);
    HeldWithin(c, anc, StopsHere(pages[t.id], row));
    SpaceGivesDistinct(pages, m, CtxIds(c') + Ids(t.kids[i]), fl);
    DistinctPart(CtxIds(c'), Ids(t.kids[i]));
    RootIdIn(t.kids[i]);
    CtxIdIn(c');
  }

  lemma {:induction false} KidKeyed(c: Ctx, t: Tree, i: nat)
    requires t.NodeT? && i < |t.kids| && KeyedCtx(c) && Keyed(t)
    ensures KeyedCtx(KidCtx(c, t, i)) && Keyed(t.kids[i])
  {
  }

  lemma {:induction false} LeafDoesNotStop(p: Page, row: Row)
    requires p.body.Leaf?
    ensures StopsHere(p, row) <==> CanInsert(p, row)
  {
  }

  /** Exactly the page in focus and the stack above it are latched. */
  ghost predicate OnPath(held: set<PageId>, id: PageId, anc: seq<PageId>) {
    held == {id} + (set x | x in anc)
  }

  lemma {:induction false} PathPush(held: set<PageId>, id: PageId, anc: seq<PageId>, kid: PageId)
    requires OnPath(held, id, anc) && kid !in anc + [id]
    ensures kid !in held && OnPath(held + {kid}, kid, anc + [id])
    ensures OnPath(held + {kid} - (set x | x in anc + [id]), kid, [])
  {
    assert forall x :: x in anc + [id] <==> x in anc || x == id;
  }

  lemma {:induction false} PathStart(id: PageId)
    ensures OnPath({id}, id, [])
  {
  }

  /** The descent of an insert: latches the way down to the leaf of the key, and lets go of the pages above every
      page that stops a split. */
  method DescendInsert(tb: Table, row: Row) returns (page: Page, anc: seq<PageId>, ghost c: Ctx, ghost t: Tree,
                                                     ghost h: nat)
    requires tb.Valid() && ValidRow(tb.schema, row)
    modifies tb`held, tb`log
    ensures tb.Logged() && page.body.Leaf?
    ensures Sound(tb.schema, tb.pages, tb.m, c, t, h, tb.free) && KeyFits(c, RowKey(row)) && t.LeafT?
    ensures AllLeaves(c, t) == AllLeaves(Top, tb.tree)
    ensures t.id in tb.pages && page == tb.pages[t.id] && page.id == t.id
    ensures InsertHeld(c, anc, StopsHere(page, row)) && OnPath(tb.held, page.id, anc)
    ensures Keyed(tb.tree) ==> KeyedCtx(c)
  {
    hide Sound, KeyFits, AllLeaves, FindChildIndex, CtxWf, Wf, Keyed, KeyedCtx, InsertHeld, Encodable, Steps.Replay;
    hide StopsHere, ValidRow, RowKey, OnPath;
    c, t, h := Top, tb.tree, tb.height;
    var key := RowKey(row);
    FocusPage(tb.schema, tb.pages, tb.m, c, t, h, tb.free);
    RootFits(key);
    var root := tb.LookUpRoot();
    page := tb.FetchWrite(root);
    anc := [];
    PathStart(root);
    assert tb.held == {root};
    HeldAtRoot(StopsHere(page, row));
    KeyedTop();
    while page.body.Internal?
      invariant Sound(tb.schema, tb.pages, tb.m, c, t, h, tb.free) && KeyFits(c, key)
      invariant AllLeaves(c, t) == AllLeaves(Top, tb.tree)
      invariant t.id in tb.pages && page == tb.pages[t.id] && page.id == t.id
      invariant InsertHeld(c, anc, StopsHere(page, row)) && OnPath(tb.held, page.id, anc)
      invariant Keyed(tb.tree) ==> KeyedCtx(c) && Keyed(t)
      invariant tb.Logged()
      decreases h
    {
      FocusPage(tb.schema, tb.pages, tb.m, c, t, h, tb.free);
      Route(tb.schema, tb.pages, tb.m, c, t, h, tb.free, key);
      var i := FindChildIndex(page.body.keys, key);
      DescendLatch(tb.schema, tb.pages, tb.m, c, t, h - 1, tb.free, anc, row, i);
      if Keyed(tb.tree) {
        KidKeyed(c, t, i);
      }
      PathPush(tb.held, page.id, anc, t.kids[i].id);
      anc := anc + [page.id];
      c, t, h := KidCtx(c, t, i), t.kids[i], h - 1;
      FocusPage(tb.schema, tb.pages, tb.m, c, t, h, tb.free);
      page := tb.FetchWrite(page.body.children[i]);
      if StopsHere(page, row) {
        tb.ReleaseStack(anc);
        anc := [];
        HeldSafe(c);
      }
    }
    FocusPage(tb.schema, tb.pages, tb.m, c, t, h, tb.free);
  }

  /** `BTree::insert`. A present key is refused with nothing changed or allocated; otherwise the map
      gains exactly this row, whatever splits it takes. */
  method Insert(tb: Table, row: Row) returns (res: Result<(), PageError>)
    requires tb.Valid() && ValidRow(tb.schema, row)
    modifies tb
    ensures tb.Valid()
    ensures RowKey(row) in old(tb.Contents()) ==>
      res == Err(DuplicateKey) && tb.pages == old(tb.pages) && tb.Contents() == old(tb.Contents())
    ensures RowKey(row) !in old(tb.Contents()) ==>
      res == Ok(()) && tb.Contents() == old(tb.Contents())[RowKey(row) := row]
    ensures old(Keyed(tb.tree)) ==> Keyed(tb.tree)
    ensures tb.origin == old(tb.origin)
    ensures KeepsName(old(tb.pages), tb.pages, tb.m)
    ensures res == Err(DuplicateKey) <==> row.fields != [] && old(FieldTaken(RowsStored(tb.pages), row.fields[0]))
    ensures RowsStored(tb.pages) == old(RowsStored(tb.pages)) + (if res.Ok? then {row} else {})
  {
    hide Sound, KeyFits, AllLeaves, Search, CtxWf, Wf, ToMap, RowsOf, Keyed, KeyedCtx, InsertHeld, Encodable;
    hide StopsHere, ValidRow, RowKey, CanInsert, LeafInsert, Steps.Replay;
    hide MapOf, RowsStored, FieldTaken, HasKey;
    ValidHasKey(tb.schema, row);
    TableMeans(tb);
    TakenIsIn(tb.Contents(), RowsStored(tb.pages), row);
    ghost var m0, rows0 := tb.Contents(), RowsStored(tb.pages);
    var key := RowKey(row);
    var page, anc;
    ghost var c, t, h;
    page, anc, c, t, h := DescendInsert(tb, row);
    FocusPage(tb.schema, tb.pages, tb.m, c, t, h, tb.free);
    LeafDoesNotStop(page, row);
    LeafDecides(tb.schema, c, t, h, key);
    if CanInsert(page, row) {
      res := InsertIntoLeaf(tb, page, row, c, t, h);
    } else {
      var found := LeafGet(page, key);
      if found.value.Some? {
        tb.ReleaseAll();
        return Err(DuplicateKey);
      }
      ghost var i := Search(RecordKeys(t.rows), key).at;
      LeafInsertContents(tb.schema, c, t, h, row, i);
      SplitAndInsert(tb, page.id, row, anc, c, t, h, i);
      res := Ok(());
    }
    if res.Ok? {
      TableMeans(tb);
      StoredMore(m0, rows0, row, RowsStored(tb.pages));
    }
  }

  lemma {:induction false} HeldAtRoot(safe: bool)
    ensures InsertHeld(Top, [], safe)
  {
  }

  lemma {:induction false} HeldSafe(c: Ctx)
    ensures InsertHeld(c, [], true)
  {
  }

  lemma {:induction false} KeyedTop()
    ensures KeyedCtx(Top)
  {
  }

  /** The leaf in focus has room: the row goes straight in, unless its key is taken. */
  method InsertIntoLeaf(tb: Table, page: Page, row: Row, ghost c: Ctx, ghost t: Tree, ghost h: nat)
    returns (res: Result<(), PageError>)
    requires Sound(tb.schema, tb.pages, tb.m, c, t, h, tb.free) && t.LeafT? && KeyFits(c, RowKey(row))
    requires ValidRow(tb.schema, row)
    requires AllLeaves(c, t) == AllLeaves(Top, tb.tree)
    requires Sound(tb.schema, tb.pages, tb.m, Top, tb.tree, tb.height, tb.free)
    requires t.id in tb.pages && page == tb.pages[t.id] && page.id == t.id && CanInsert(page, row) && page.id in tb.held
    requires tb.Logged()
    modifies tb
    ensures tb.origin == old(tb.origin)
    ensures tb.Valid()
    ensures RowKey(row) in old(tb.Contents()) ==>
      res == Err(DuplicateKey) && tb.pages == old(tb.pages) && tb.tree == old(tb.tree)
    ensures RowKey(row) !in old(tb.Contents()) ==>
      res == Ok(()) && tb.Contents() == old(tb.Contents())[RowKey(row) := row]
    ensures old(Keyed(tb.tree)) && KeyedCtx(c) ==> Keyed(tb.tree)
  {
    hide Encodable, Steps.Replay;
    hide Shape, Space, KeyFits, AllLeaves, Search, CtxWf, Wf, ToMap, RowsOf, Keyed, KeyedCtx, ValidRow, RowKey;
    hide LeafBytes, LeafEntrySize, LeafOk, Sorted, CtxIds, Lo, Hi;
    FocusPage(tb.schema, tb.pages, tb.m, c, t, h, tb.free);
    LeafDecides(tb.schema, c, t, h, RowKey(row));
    LeafFacts(tb.schema, tb.pages, c, t, h);
    match LeafInsert(page, row) {
      case Err(e) =>
        tb.ReleaseAll();
        return Err(e);
      case Ok(page') =>
        ghost var i := Search(RecordKeys(t.rows), RowKey(row)).at;
        ghost var rows := t.rows[..i] + [row] + t.rows[i..];
        LeafInsertContents(tb.schema, c, t, h, row, i);
        KeyInRange(c, RowKey(row));
        LeafInsertOk(tb.schema, t.rows, Lo(c), Hi(c), row, i);
        ReplaceLeafState(tb.schema, tb.pages, tb.m, c, t, h, tb.free, rows, page');
        FocusEncodable(tb.schema, tb.pages[page.id := page'], tb.m, c, LeafT(t.id, rows), h, tb.free, page.id);
        tb.Put(page.id, page');
        FocusTop(tb.schema, tb.pages, tb.m, c, LeafT(t.id, rows), h, tb.free);
        RowsAround(c, LeafT(t.id, rows));
        LeafRows(LeafT(t.id, rows));
        if KeyedCtx(c) {
          LeafKeyed(LeafT(t.id, rows));
          KeyedPlug(c, LeafT(t.id, rows));
        }
        tb.tree, tb.height := Plug(c, LeafT(t.id, rows)), h + Depth(c);
        tb.ReleaseAll();
        res := Ok(());
    }
  }

  lemma {:induction false} LeafKeyed(t: Tree)
    requires t.LeafT?
    ensures Keyed(t)
  {
  }

  lemma {:induction false} KeyInRange(c: Ctx, k: Key)
    requires KeyFits(c, k)
    ensures AtLeast(Lo(c), k) && Below(k, Hi(c))
  {
  }

  /** New rows for the leaf in focus, on a whole table. */
  lemma {:induction false} ReplaceLeafState(s: Schema, pages: Store, m: PageId, c: Ctx, t: Tree, h: nat,
                                            fl: seq<PageId>, rows: seq<Row>, p: Page)
    requires Sound(s, pages, m, c, t, h, fl) && t.LeafT? && LeafOk(s, rows, Lo(c), Hi(c))
    requires t.id in pages && pages[t.id].body.Leaf? && p == pages[t.id].(body := pages[t.id].body.(records := rows))
    ensures Sound(s, pages[t.id := p], m, c, LeafT(t.id, rows), h, fl)
  {
    hide Shape, Space, LeafOk, CtxIds;
    var used := CtxIds(c) + Ids(t);
    SpaceGivesDistinct(pages, m, used, fl);
    ReplaceLeaf(s, pages, c, t, h, rows, p);
    RootIdIn(t);
    SpacePut(pages, m, used, fl, t.id, p);
  }
}

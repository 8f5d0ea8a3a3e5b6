/** `BTree::insert` and `split_and_insert` (`src/btree/tree.rs`) over latched pages. */
module Inserts {
  import opened Common
  import opened Schemas
  import opened Pages
  import opened Trees
  import opened Stores
  import opened Focus
  import opened Contents
  import opened Splitting
  import opened Accounting
  import opened Inserting

  // ------------------------------------------------------------------ held ancestors

  predicate SplitSafeKeys(keys: seq<Key>) {
    KeyBytes(keys) + MAX_INTERNAL_ENTRY_SIZE <= INTERNAL_USABLE
  }

  /** The stack `anc` holds the pages right above the focus. Where it ends, the page just below (the
      last one held, or the focus when the stack is empty) is the root or `safe`: it takes any
      separator, so no split spreads beyond it. */
  ghost predicate InsertHeld(c: Ctx, anc: seq<PageId>, safe: bool)
    decreases |anc|
  {
    if anc == [] then c.Top? || safe
    else
      c.Down? && anc[|anc| - 1] == c.id && InsertHeld(c.up, anc[..|anc| - 1], SplitSafeKeys(c.keys))
  }

  lemma {:induction false} HeldWithin(c: Ctx, anc: seq<PageId>, safe: bool)
    requires InsertHeld(c, anc, safe)
    ensures forall x :: x in anc ==> x in CtxIds(c)
    decreases |anc|
  {
    if anc != [] {
      HeldWithin(c.up, anc[..|anc| - 1], SplitSafeKeys(c.keys));
      assert anc == anc[..|anc| - 1] + [c.id];
    }
  }

  /** Whether the page the descent reached stops any split from below. */
  predicate StopsHere(p: Page, row: Row) {
    IsSplitSafe(p) || CanInsert(p, row)
  }

  lemma {:induction false} HeldPush(c: Ctx, t: Tree, anc: seq<PageId>, p: Page, row: Row, i: nat, safe: bool)
    requires t.NodeT? && i < |t.kids| && p.body == Internal(t.keys, RootIds(t.kids))
    requires InsertHeld(c, anc, StopsHere(p, row))
    ensures InsertHeld(KidCtx(c, t, i), anc + [t.id], safe)
  {
    SafeIs(p, row);
    hide StopsHere, SplitSafeKeys, RootIds;
    assert (anc + [t.id])[..|anc|] == anc;
  }

  lemma {:induction false} SafeIs(p: Page, row: Row)
    requires p.body.Internal?
    ensures StopsHere(p, row) <==> SplitSafeKeys(p.body.keys)
  {
  }

  // ------------------------------------------------------------------- a pending split

  ghost predicate PendingState(s: Schema, pages: Store, m: PageId, c: Ctx, l: Tree, sep: Key, r: Tree, h: nat,
                               fl: seq<PageId>) {
    && Pending(s, pages, c, l, sep, r, h)
    && Space(pages, m, CtxIds(c) + Ids(l) + Ids(r), fl)
    && MetaNames(pages, m, RootOf(c, l.id), s)
  }

  lemma {:induction false} SpaceGivesDistinct(pages: Store, m: PageId, used: multiset<PageId>, fl: seq<PageId>)
    requires Space(pages, m, used, fl)
    ensures Distinct(used) && m !in used && m in pages && pages[m].body.Meta?
    ensures forall x :: x in used ==> x in pages
  {
    SpaceDistinct(pages, m, used, fl);
  }

  /** The leaf split: what `split_and_insert` does before its loop, once a page is allocated. */
  lemma {:induction false} LeafSplitState(s: Schema, pages: Store, m: PageId, c: Ctx, t: Tree, h: nat, fl: seq<PageId>,
                                          row: Row, rid: PageId)
    requires Shape(s, pages, c, t, h) && t.LeafT? && MetaNames(pages, m, RootOf(c, t.id), s)
    requires Space(pages, m, CtxIds(c) + Ids(t) + multiset{rid}, fl) && rid !in CtxIds(c) + Ids(t)
    requires ValidRow(s, row) && LeafBytes(t.rows) + LeafEntrySize(row) > LEAF_USABLE
    ensures 4 <= |t.rows| && t.id in pages && pages[t.id].body.Leaf? && pages[t.id].body.records == t.rows
    ensures pages[t.id].id == t.id
    ensures SplitPage(pages[t.id], rid).Ok?
    ensures var (lp, sep, rp) := SplitPage(pages[t.id], rid).value;
      var at := SplitOff(RowSizes(t.rows), 1);
      && lp.id == t.id && rp.id == rid && rp.body.Leaf? && sep == RowKey(t.rows[at]) && 0 < at < |t.rows|
      && lp.body.Leaf? && lp.body.records == t.rows[..at] && rp.body.records == t.rows[at..]
      && PendingState(s, RelinkNext(pages[t.id := lp][rid := rp], rp), m, c,
                      LeafT(t.id, t.rows[..at]), sep, LeafT(rid, t.rows[at..]), h, fl)
  {
    LeafFacts(s, pages, c, t, h);
    hide Wf, CtxWf, RepCtx, RepT, LeafOk, CtxIds, Pending, LeafBytes, SplitOff, RowSizes, ValidRow, AllLeaves, Chain;
    hide RelinkNext, Space;
    LeafSplitRoom(s, t.rows, row);
    var (lp, sep, rp) := SplitPage(pages[t.id], rid).value;
    var at := SplitOff(RowSizes(t.rows), 1);
    var used := CtxIds(c) + Ids(t) + multiset{rid};
    SpaceGivesDistinct(pages, m, used, fl);
    DistinctPart(CtxIds(c) + Ids(t), multiset{rid});
    SplitLeaf(s, pages, c, t, h, at, lp, rp);
    NextIsElsewhere(pages, c, t);
    RelinkSpace(pages, m, used, fl, t.id, lp, rid, rp);
    assert CtxIds(c) + Ids(LeafT(t.id, t.rows[..at])) + Ids(LeafT(rid, t.rows[at..])) == used;
  }

  lemma {:induction false} LeafFacts(s: Schema, pages: Store, c: Ctx, t: Tree, h: nat)
    requires Shape(s, pages, c, t, h) && t.LeafT?
    ensures LeafOk(s, t.rows, Lo(c), Hi(c)) && LeafBytes(t.rows) <= LEAF_USABLE
    ensures forall i :: 0 <= i < |t.rows| ==> ValidRow(s, t.rows[i])
    ensures t.id in pages && pages[t.id].body.Leaf? && pages[t.id].body.records == t.rows && pages[t.id].id == t.id
    ensures Chain(pages, AllLeaves(c, t))
  {
  }

  lemma {:induction false} RelinkSpace(pages: Store, m: PageId, used: multiset<PageId>, fl: seq<PageId>, lid: PageId,
                                       lp: Page, rid: PageId, rp: Page)
    requires Space(pages, m, used, fl) && lid in used && rid in used && rp.body.Leaf?
    requires rp.body.next.Some? ==> rp.body.next.value in used
    ensures var pages' := RelinkNext(pages[lid := lp][rid := rp], rp);
      Space(pages', m, used, fl) && m in pages && m in pages' && pages'[m] == pages[m]
  {
    SpaceGivesDistinct(pages, m, used, fl);
    hide Space;
    SpacePut(pages, m, used, fl, lid, lp);
    SpacePut(pages[lid := lp], m, used, fl, rid, rp);
    var pages2 := pages[lid := lp][rid := rp];
    if rp.body.next.Some? && pages2[rp.body.next.value].body.Leaf? {
      var n := rp.body.next.value;
      SpacePut(pages2, m, used, fl, n, pages2[n].(body := pages2[n].body.(prev := Some(rp.id))));
    }
  }

  lemma {:induction false} DistinctPart(a: multiset<PageId>, b: multiset<PageId>)
    requires Distinct(a + b)
    ensures Distinct(a) && Distinct(b) && (forall x :: x in a ==> x !in b)
  {
    assert forall x :: (a + b)[x] == a[x] + b[x];
  }

  lemma {:induction false} SearchAt(keys: seq<Key>, k: Key, i: nat)
    requires i <= |keys| && (forall j :: 0 <= j < i ==> KeyLess(keys[j], k))
    requires (forall j :: i <= j < |keys| ==> KeyLess(k, keys[j]))
    ensures Search(keys, k) == Miss(i)
  {
    var lb := LowerBound(keys, k);
    assert i < |keys| ==> KeyLess(k, keys[i]);
    assert !(lb < i) && !(i < lb);
  }

  /** Where the new row belongs among the rows of the half it goes to. */
  lemma {:induction false} SearchHalves(rows: seq<Row>, k: Key, i: nat, at: nat)
    requires Sorted(RecordKeys(rows)) && Search(RecordKeys(rows), k) == Miss(i) && 0 < at < |rows|
    ensures !KeyLess(RowKey(rows[at]), k) ==> i <= at && Search(RecordKeys(rows[..at]), k) == Miss(i)
    ensures KeyLess(RowKey(rows[at]), k) ==> at < i && Search(RecordKeys(rows[at..]), k) == Miss(i - at)
    ensures !KeyLess(RowKey(rows[at]), k) ==> KeyLess(k, RowKey(rows[at]))
  {
    hide Search, RowKey;
    var ks := RecordKeys(rows);
    assert KeyLess(ks[at], k) || KeyLess(k, ks[at]);
    assert RecordKeys(rows[..at]) == ks[..at] && RecordKeys(rows[at..]) == ks[at..];
    if KeyLess(ks[at], k) {
      SearchAt(ks[at..], k, i - at);
    } else {
      SearchAt(ks[..at], k, i);
    }
  }

  /** The half a row goes to, and that half's rows once it is in. */
  ghost function HalfRows(rows: seq<Row>, at: nat, i: nat, row: Row, left: bool): seq<Row>
    requires at <= |rows| && i <= |rows| && (if left then i <= at else at <= i)
  {
    if left then rows[..at][..i] + [row] + rows[..at][i..] else rows[at..][..i - at] + [row] + rows[at..][i - at..]
  }

  lemma {:induction false} HalfRowsWhole(rows: seq<Row>, at: nat, i: nat, row: Row)
    requires at <= |rows| && i <= |rows|
    ensures i <= at ==> HalfRows(rows, at, i, row, true) + rows[at..] == rows[..i] + [row] + rows[i..]
    ensures at <= i ==> rows[..at] + HalfRows(rows, at, i, row, false) == rows[..i] + [row] + rows[i..]
  {
    if i <= at {
      assert rows[..at][..i] == rows[..i];
      assert rows[..at][i..] + rows[at..] == rows[i..];
    }
    if at <= i {
      assert rows[at..][i - at..] == rows[i..];
      assert rows[..at] + rows[at..][..i - at] == rows[..i];
    }
  }

  /** Putting the new row into the half it belongs to. */
  lemma {:induction false} HalfInsert(s: Schema, pages: Store, m: PageId, c: Ctx, l: Tree, sep: Key, r: Tree, h: nat,
                                      fl: seq<PageId>,
                   rows: seq<Row>, at: nat, row: Row, i: nat, left: bool)
    requires PendingState(s, pages, m, c, l, sep, r, h, fl) && l.LeafT? && r.LeafT?
    requires 0 < at < |rows| && l.rows == rows[..at] && r.rows == rows[at..] && sep == RowKey(rows[at])
    requires ValidRow(s, row) && KeyFits(c, RowKey(row))
    requires Sorted(RecordKeys(rows)) && Search(RecordKeys(rows), RowKey(row)) == Miss(i)
    requires LeafBytes(rows[..at]) + LeafEntrySize(row) <= LEAF_USABLE
    requires LeafBytes(rows[at..]) + LeafEntrySize(row) <= LEAF_USABLE
    requires left <==> !KeyLess(sep, RowKey(row))
    ensures if left then i <= at else at <= i
    ensures var x := if left then l else r;
      var rows' := HalfRows(rows, at, i, row, left);
      && x.id in pages && pages[x.id].body.Leaf?
      && LeafInsert(pages[x.id], row) == Ok(pages[x.id].(body := pages[x.id].body.(records := rows')))
      && PendingState(s, pages[x.id := LeafInsert(pages[x.id], row).value], m, c,
                      if left then LeafT(l.id, rows') else l, sep, if left then r else LeafT(r.id, rows'), h, fl)
  {
    hide Pending, CtxIds, Ids, Wf, RepT, LeafOk, Search, Sorted, RowKey, ValidRow, LeafBytes, LeafEntrySize, Space, Lo;
    hide Hi, LeafInsert;
    HalfFacts(s, pages, c, l, sep, r, h);
    HalfRowsOk(s, rows, at, row, i, left, Lo(c), Hi(c));
    hide HalfRows;
    var x := if left then l else r;
    var rows' := HalfRows(rows, at, i, row, left);
    var used := CtxIds(c) + Ids(l) + Ids(r);
    SpaceGivesDistinct(pages, m, used, fl);
    var p := pages[x.id].(body := pages[x.id].body.(records := rows'));
    assert LeafInsert(pages[x.id], row) == Ok(p) by {
      LeafInsertIs(pages[x.id], row, if left then i else i - at);
    }
    PendingLeaf(s, pages, c, l, sep, r, h, left, rows', p);
    RootIdIn(x);
    SpacePut(pages, m, used, fl, x.id, p);
    assert Ids(if left then LeafT(l.id, rows') else l) == Ids(l)
      && Ids(if left then r else LeafT(r.id, rows')) == Ids(r) by {
      LeafIds(l, rows');
      LeafIds(r, rows');
    }
  }

  lemma {:induction false} RootIdIn(t: Tree)
    ensures t.id in Ids(t)
  {
  }

  lemma {:induction false} LeafIds(t: Tree, rows: seq<Row>)
    requires t.LeafT?
    ensures Ids(LeafT(t.id, rows)) == Ids(t) == multiset{t.id}
  {
  }

  lemma {:induction false} HalfRowsOk(s: Schema, rows: seq<Row>, at: nat, row: Row, i: nat, left: bool,
                                      lo: Option<Key>, hi: Option<Key>)
    requires 0 < at < |rows| && ValidRow(s, row) && AtLeast(lo, RowKey(row)) && Below(RowKey(row), hi)
    requires Sorted(RecordKeys(rows)) && Search(RecordKeys(rows), RowKey(row)) == Miss(i)
    requires LeafBytes(rows[..at]) + LeafEntrySize(row) <= LEAF_USABLE
    requires LeafBytes(rows[at..]) + LeafEntrySize(row) <= LEAF_USABLE
    requires left <==> !KeyLess(RowKey(rows[at]), RowKey(row))
    requires LeafOk(s, rows[..at], lo, Some(RowKey(rows[at]))) && LeafOk(s, rows[at..], Some(RowKey(rows[at])), hi)
    ensures if left then i <= at else at <= i
    ensures var part, j := if left then rows[..at] else rows[at..], if left then i else i - at;
      && j <= |part| && Search(RecordKeys(part), RowKey(row)) == Miss(j)
      && HalfRows(rows, at, i, row, left) == part[..j] + [row] + part[j..]
    ensures left ==> LeafOk(s, HalfRows(rows, at, i, row, left), lo, Some(RowKey(rows[at])))
    ensures !left ==> LeafOk(s, HalfRows(rows, at, i, row, left), Some(RowKey(rows[at])), hi)
  {
    hide LeafOk, Search, Sorted, RowKey, ValidRow, LeafBytes, LeafEntrySize;
    SearchHalves(rows, RowKey(row), i, at);
    if left {
      LeafInsertOk(s, rows[..at], lo, Some(RowKey(rows[at])), row, i);
    } else {
      LeafInsertOk(s, rows[at..], Some(RowKey(rows[at])), hi, row, i - at);
    }
  }

  lemma {:induction false} HalfFacts(s: Schema, pages: Store, c: Ctx, l: Tree, sep: Key, r: Tree, h: nat)
    requires Pending(s, pages, c, l, sep, r, h) && l.LeafT? && r.LeafT?
    ensures LeafOk(s, l.rows, Lo(c), Some(sep)) && LeafOk(s, r.rows, Some(sep), Hi(c))
    ensures l.id in pages && pages[l.id].body.Leaf? && pages[l.id].body.records == l.rows
    ensures r.id in pages && pages[r.id].body.Leaf? && pages[r.id].body.records == r.rows
  {
  }

  lemma {:induction false} LeafInsertIs(p: Page, row: Row, j: nat)
    requires p.body.Leaf? && Search(RecordKeys(p.body.records), RowKey(row)) == Miss(j)
    requires LeafBytes(p.body.records) + LeafEntrySize(row) <= LEAF_USABLE
    ensures CanInsert(p, row)
    ensures LeafInsert(p, row) == Ok(p.(body := p.body.(records := p.body.records[..j] + [row] + p.body.records[j..])))
  {
  }

  // ------------------------------------------------------- steps of the upward loop

  function NewRoot(id: PageId, l: PageId, sep: Key, r: PageId): Page {
    Page(id, 0, Internal([sep], [l, r]))
  }

  function WithRoot(pages: Store, m: PageId, id: PageId): Store
    requires m in pages && pages[m].body.Meta?
  {
    pages[m := pages[m].(body := pages[m].body.(root := id))]
  }

  /** No held ancestor is left, so the root itself was split: it gets a new root above it. */
  lemma {:induction false} NewRootState(s: Schema, pages: Store, m: PageId, l: Tree, sep: Key, r: Tree, h: nat,
                                        fl: seq<PageId>, id: PageId)
    requires Pending(s, pages, Top, l, sep, r, h) && Space(pages, m, Ids(l) + Ids(r) + multiset{id}, fl)
    requires id !in Ids(l) + Ids(r) && MetaNames(pages, m, l.id, s)
    ensures var t := NodeT(id, [sep], [l, r]);
      && id in pages && id != m
      && Sound(s, WithRoot(pages[id := NewRoot(id, l.id, sep, r.id)], m, id), m, Top, t, h + 1, fl)
      && AllLeaves(Top, t) == PairLeaves(Top, l, r)
  {
    hide Pending, Shape, Space, Ids, AllLeaves, PairLeaves;
    var p, t := NewRoot(id, l.id, sep, r.id), NodeT(id, [sep], [l, r]);
    var used := Ids(l) + Ids(r) + multiset{id};
    PendingTop(s, pages, l, sep, r, h, p);
    SpacePut(pages, m, used, fl, id, p);
    var pages1 := pages[id := p];
    SpaceSetRoot(pages1, m, used, fl, id);
    SpaceGivesDistinct(pages1, m, used, fl);
    assert CtxIds(Top) + Ids(t) == used;
    ShapeFrame(s, pages1, WithRoot(pages1, m, id), Top, t, h + 1);
  }

  /** The page above takes the separator: the split ends there. */
  lemma {:induction false} InsertState(s: Schema, pages: Store, m: PageId, c: Ctx, l: Tree, sep: Key, r: Tree, h: nat,
                                       fl: seq<PageId>)
    requires PendingState(s, pages, m, c, l, sep, r, h, fl) && c.Down?
    requires KeyBytes(c.keys) + InternalEntrySize(sep) <= INTERNAL_USABLE
    ensures |c.left + [l] + c.right| == |c.keys| + 1 && |c.left| <= |c.keys| && c.id in pages
    ensures InternalInsert(pages[c.id], sep, r.id).Ok?
    ensures InternalInsert(pages[c.id], sep, r.id).value.id == pages[c.id].id
    ensures var t := WithKid(c.id, c.keys, c.left + [l] + c.right, |c.left|, l, sep, r);
      && Sound(s, pages[c.id := InternalInsert(pages[c.id], sep, r.id).value], m, c.up, t, h + 1, fl)
      && AllLeaves(c.up, t) == PairLeaves(c, l, r)
  {
    hide Pending, Shape, Space, Ids, AllLeaves, PairLeaves, KeyBytes, InternalEntrySize, CtxIds, WithKid;
    SpaceGivesDistinct(pages, m, CtxIds(c) + Ids(l) + Ids(r), fl);
    PendingInsert(s, pages, c, l, sep, r, h);
    CtxIdIn(c);
    SpacePut(pages, m, CtxIds(c) + Ids(l) + Ids(r), fl, c.id, InternalInsert(pages[c.id], sep, r.id).value);
    WithKidId(c, l, sep, r);
  }

  lemma {:induction false} WithKidId(c: Ctx, l: Tree, sep: Key, r: Tree)
    requires c.Down? && |c.left| + |c.right| == |c.keys|
    ensures WithKid(c.id, c.keys, c.left + [l] + c.right, |c.left|, l, sep, r).id == c.id
  {
  }

  lemma {:induction false} CtxIdIn(c: Ctx)
    requires c.Down?
    ensures c.id in CtxIds(c) && (forall x :: x in CtxIds(c.up) ==> x in CtxIds(c))
    ensures Distinct(CtxIds(c)) ==> c.id !in CtxIds(c.up)
  {
    assert CtxIds(c)[c.id] >= CtxIds(c.up)[c.id] + 1;
  }

  /** The page above is full: it splits as well, and the pending separator moves up one page. */
  lemma {:induction false} SplitState(s: Schema, pages: Store, m: PageId, c: Ctx, l: Tree, sep: Key, r: Tree, h: nat,
                                      fl: seq<PageId>, id: PageId)
    requires Pending(s, pages, c, l, sep, r, h) && c.Down? && MetaNames(pages, m, RootOf(c, l.id), s)
    requires Space(pages, m, CtxIds(c) + Ids(l) + Ids(r) + multiset{id}, fl)
    requires id !in CtxIds(c) + Ids(l) + Ids(r) && id in pages && pages[id].body.Free?
    requires KeyBytes(c.keys) + InternalEntrySize(sep) > INTERNAL_USABLE
    ensures |c.left| + |c.right| == |c.keys| && 4 <= |c.keys| && c.id in pages
    ensures SplitParentPages(pages[c.id], id, sep, r.id).Ok?
    ensures var (lp, promoted, rp) := SplitParentPages(pages[c.id], id, sep, r.id).value;
      var (a, b) := SplitParent(c, l, sep, r, SplitOff(KeySizes(c.keys), 2), id);
      && a.id == c.id && b.id == id && lp.id == c.id && rp.id == id
      && PendingState(s, pages[c.id := lp][id := rp], m, c.up, a, promoted, b, h + 1, fl)
      && PairLeaves(c.up, a, b) == PairLeaves(c, l, r)
      && CtxIds(c.up) + Ids(a) + Ids(b) == CtxIds(c) + Ids(l) + Ids(r) + multiset{id}
  {
    hide Pending, Space, Ids, PairLeaves, KeyBytes, InternalEntrySize, CtxIds, SplitParent, SplitParentPages, SplitOff;
    hide KeySizes;
    var used := CtxIds(c) + Ids(l) + Ids(r) + multiset{id};
    SpaceGivesDistinct(pages, m, used, fl);
    DistinctPart(CtxIds(c) + Ids(l) + Ids(r), multiset{id});
    PendingSplit(s, pages, c, l, sep, r, h, id);
    var (lp, promoted, rp) := SplitParentPages(pages[c.id], id, sep, r.id).value;
    CtxIdIn(c);
    SpacePut(pages, m, used, fl, c.id, lp);
    SpacePut(pages[c.id := lp], m, used, fl, id, rp);
  }

  // ------------------------------------------------------------- keys in every page

  lemma {:induction false} PairsKeyed(c: Ctx, l: Tree, r: Tree)
    requires c.Down? && KeyedCtx(c) && Keyed(l) && Keyed(r)
    ensures KeyedAll(Pairs(c, l, r)) && KeyedCtx(c.up)
  {
    hide Keyed;
    var kids := Pairs(c, l, r);
    forall i | 0 <= i < |kids|
      ensures Keyed(kids[i])
    {
      if i > |c.left| + 1 {
        assert kids[i] == c.right[i - |c.left| - 2];
      }
    }
  }

  lemma {:induction false} WithKidKeyed(c: Ctx, l: Tree, sep: Key, r: Tree)
    requires c.Down? && |c.left| + |c.right| == |c.keys| && KeyedCtx(c) && Keyed(l) && Keyed(r)
    ensures Keyed(WithKid(c.id, c.keys, c.left + [l] + c.right, |c.left|, l, sep, r)) && KeyedCtx(c.up)
  {
    PairsKeyed(c, l, r);
    var t := WithKid(c.id, c.keys, c.left + [l] + c.right, |c.left|, l, sep, r);
    assert t.kids == Pairs(c, l, r);
  }

  lemma {:induction false} SplitParentKeyed(c: Ctx, l: Tree, sep: Key, r: Tree, at: nat, id: PageId)
    requires c.Down? && |c.left| + |c.right| == |c.keys| && 1 <= at <= |c.keys| - 2
    requires KeyedCtx(c) && Keyed(l) && Keyed(r)
    ensures var (a, b) := SplitParent(c, l, sep, r, at, id); Keyed(a) && Keyed(b) && KeyedCtx(c.up)
  {
    hide WithKid;
    PairsKeyed(c, l, r);
    SplitParentKids(c, l, sep, r, at, id);
    SplitParentKeys(c, l, sep, r, at, id);
    var (a, b) := SplitParent(c, l, sep, r, at, id);
    hide SplitParent, Pairs;
    KeyedParts(a.kids, b.kids);
  }

  lemma {:induction false} SplitParentKeys(c: Ctx, l: Tree, sep: Key, r: Tree, at: nat, id: PageId)
    requires c.Down? && |c.left| + |c.right| == |c.keys| && 1 <= at <= |c.keys| - 2
    ensures var (a, b) := SplitParent(c, l, sep, r, at, id); a.NodeT? && b.NodeT? && |a.keys| >= 1 && |b.keys| >= 1
  {
  }

  lemma {:induction false} KeyedParts(a: seq<Tree>, b: seq<Tree>)
    requires KeyedAll(a + b)
    ensures KeyedAll(a) && KeyedAll(b)
  {
    hide Keyed;
    assert forall i :: 0 <= i < |a| ==> a[i] == (a + b)[i];
    assert forall i :: 0 <= i < |b| ==> b[i] == (a + b)[|a| + i];
  }

  lemma {:induction false} RootKeyed(id: PageId, l: Tree, sep: Key, r: Tree)
    requires Keyed(l) && Keyed(r)
    ensures Keyed(NodeT(id, [sep], [l, r]))
  {
  }
}

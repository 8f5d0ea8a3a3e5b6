/** Point lookup: `BTree::get` (`src/btree/tree.rs`). */
module Lookups {
  import opened Common
  import opened Schemas
  import opened Pages
  import opened Trees
  import opened Stores
  import opened Focus
  import opened Contents
  import opened StoredRows
  import opened Finding
  import opened Tables

  lemma {:induction false} RouteFits(keys: seq<Key>, k: Key, lo: Option<Key>, hi: Option<Key>)
    requires Sorted(keys) && AtLeast(lo, k) && Below(k, hi)
    ensures var i := FindChildIndex(keys, k); AtLeast(KidLo(keys, i, lo), k) && Below(k, KidHi(keys, i, hi))
  {
  }

  /** The routed child of a sound page covers the key, and moving to it keeps the invariant. */
  lemma {:induction false} Route(s: Schema, pages: Store, m: PageId, c: Ctx, t: Tree, h: nat, fl: seq<PageId>, k: Key)
    requires Sound(s, pages, m, c, t, h, fl) && t.NodeT? && KeyFits(c, k)
    ensures t.id in pages && pages[t.id].body == Internal(t.keys, RootIds(t.kids)) && |t.kids| == |t.keys| + 1 && h > 0
    ensures var i := FindChildIndex(t.keys, k); var c' := KidCtx(c, t, i);
      && KeyFits(c', k)
      && Sound(s, pages, m, c', t.kids[i], h - 1, fl)
      && AllLeaves(c', t.kids[i]) == AllLeaves(c, t)
  {
    assert Sorted(t.keys) && |t.kids| == |t.keys| + 1;
    RouteFits(t.keys, k, Lo(c), Hi(c));
    hide Sound, FindChildIndex, Search, Sorted, Lo, Hi, CtxWf;
    FocusDown(s, pages, m, c, t, h, fl, FindChildIndex(t.keys, k));
  }

  /** A sound page tells by its kind whether the focus is a leaf. */
  lemma {:induction false} FocusPage(s: Schema, pages: Store, m: PageId, c: Ctx, t: Tree, h: nat, fl: seq<PageId>)
    requires Sound(s, pages, m, c, t, h, fl)
    ensures t.id in pages && pages[t.id].id == t.id && m in pages && pages[m].body.Meta? && pages[m].id == m
    ensures pages[m].body.root == RootOf(c, t.id)
    ensures t.NodeT? ==> pages[t.id].body == Internal(t.keys, RootIds(t.kids))
    ensures t.LeafT? ==> pages[t.id].body.Leaf? && pages[t.id].body.records == t.rows
    ensures CtxWf(s, c, h) && Wf(s, t, Lo(c), Hi(c), h)
  {
  }

  /** The table's pages spell out its tree, in order or not. */
  ghost predicate SpelledTable(tb: Table)
    reads tb
  {
    tb.held == {} && Spelled(tb.schema, tb.pages, tb.m, tb.tree, tb.free)
  }

  /** What the root and each page on the way tell of the pages below. */
  lemma {:induction false} SpelledPage(pages: Store, t: Tree, k: Key)
    requires RepT(pages, t) && Branching(t)
    ensures t.id in pages
    ensures t.LeafT? ==> pages[t.id].body.Leaf? && pages[t.id].body.records == t.rows
    ensures t.NodeT? ==> pages[t.id].body == Internal(t.keys, RootIds(t.kids)) && |t.kids| == |t.keys| + 1
    ensures t.NodeT? ==>
      var kid := t.kids[FindChildIndex(t.keys, k)]; RepT(pages, kid) && Branching(kid) && Find(t, k) == Find(kid, k)
  {
    hide FindChildIndex, RowFound;
  }

  /** `get` answers what the descent by separators finds; on a sound table, exactly what the map holds
      under the key. */
  method Get(tb: Table, k: Key) returns (res: Option<Row>)
    requires SpelledTable(tb)
    ensures res == Find(tb.tree, k)
    ensures tb.Valid() ==> res == if k in tb.Contents() then Some(tb.Contents()[k]) else None
    ensures tb.Valid() ==> FoundIn(RowsStored(tb.pages), k, res)
  {
    hide MapOf, RowsStored, FoundIn;
    hide Find, RepT, Branching, Chain, Space, Sound, ToMap, RowsOf, AllLeaves, FindChildIndex, RootIds;
    ghost var t := tb.tree;
    SpaceRoot(tb.schema, tb.pages, tb.m, t, tb.free);
    SpelledPage(tb.pages, t, k);
    var root := tb.RootId();
    var page := tb.pages[root];
    while page.body.Internal?
      invariant RepT(tb.pages, t) && Branching(t) && Find(t, k) == Find(tb.tree, k)
      invariant t.id in tb.pages && page == tb.pages[t.id]
      decreases t
    {
      SpelledPage(tb.pages, t, k);
      var i := FindChildIndex(page.body.keys, k);
      KidPage(tb.pages, t, i);
      t := t.kids[i];
      page := tb.pages[page.body.children[i]];
    }
    SpelledPage(tb.pages, t, k);
    LeafAnswer(page, t, k);
    res := LeafGet(page, k).value;
    if tb.Valid() {
      SoundFinds(tb.schema, tb.pages, tb.m, tb.tree, tb.height, tb.free, k);
      TableMeans(tb);
      LookupFinds(tb.Contents(), RowsStored(tb.pages), k);
    }
  }

  lemma {:induction false} SpaceRoot(s: Schema, pages: Store, m: PageId, t: Tree, fl: seq<PageId>)
    requires Spelled(s, pages, m, t, fl)
    ensures m in pages && pages[m].body.Meta? && pages[m].body.root == t.id
  {
    hide RepT, Branching, Chain, Space;
  }

  lemma {:induction false} KidPage(pages: Store, t: Tree, i: nat)
    requires t.NodeT? && i < |t.kids| && RepT(pages, t.kids[i])
    ensures RootIds(t.kids)[i] == t.kids[i].id && t.kids[i].id in pages
  {
  }

  lemma {:induction false} LeafAnswer(p: Page, t: Tree, k: Key)
    requires t.LeafT? && p.body.Leaf? && p.body.records == t.rows
    ensures LeafGet(p, k) == Ok(Find(t, k))
  {
    hide Search;
  }

  lemma {:induction false} SoundFinds(s: Schema, pages: Store, m: PageId, t: Tree, h: nat, fl: seq<PageId>, k: Key)
    requires Sound(s, pages, m, Top, t, h, fl)
    ensures Find(t, k) == if k in ContentsOf(Top, t) then Some(ContentsOf(Top, t)[k]) else None
  {
    hide Wf, RepT, Chain, Space, ContentsOf, Find;
    FindIsLookup(s, t, h, k);
  }

  lemma {:induction false} RootFits(k: Key)
    ensures KeyFits(Top, k)
  {
  }
}

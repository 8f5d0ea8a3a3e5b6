/** Splitting and merging nodes of the leaf chain. */
module Chains {
  import opened Common
  import opened Pages
  import opened Trees
  import opened Stores
  import opened Focus

  ghost predicate DistinctIds(ls: seq<Tree>) {
    forall i, j :: 0 <= i < j < |ls| ==> ls[i].id != ls[j].id
  }

  lemma {:induction false} RootIdsAppend(a: seq<Tree>, b: seq<Tree>)
    ensures multiset(RootIds(a + b)) == multiset(RootIds(a)) + multiset(RootIds(b))
  {
    assert RootIds(a + b) == RootIds(a) + RootIds(b);
  }

  lemma {:induction false} LeafIdsWithin(t: Tree)
    ensures multiset(RootIds(Leaves(t))) <= Ids(t)
    decreases t, 1
  {
    if t.LeafT? {
      assert RootIds(Leaves(t)) == [t.id];
    } else {
      LeafIdsWithinOf(t.kids);
    }
  }

  lemma {:induction false} LeafIdsWithinOf(ts: seq<Tree>)
    ensures multiset(RootIds(LeavesOf(ts))) <= IdsOf(ts)
    decreases ts, 0
  {
    if ts == [] {
      assert RootIds(LeavesOf(ts)) == [];
    } else {
      LeafIdsWithin(ts[0]);
      LeafIdsWithinOf(ts[1..]);
      RootIdsAppend(Leaves(ts[0]), LeavesOf(ts[1..]));
    }
  }

  lemma {:induction false} DistinctFromCounts(ids: seq<PageId>, i: nat, j: nat)
    requires i < j < |ids| && multiset(ids)[ids[i]] <= 1
    ensures ids[i] != ids[j]
  {
    assert ids == ids[..j] + ids[j..];
    assert ids[i] in ids[..j] && ids[j] in ids[j..];
    assert multiset(ids) == multiset(ids[..j]) + multiset(ids[j..]);
    assert ids[i] in multiset(ids[..j]) && ids[j] in multiset(ids[j..]);
  }

  /** When no page occurs twice in a tree, no leaf does. */
  lemma {:induction false} LeavesDistinct(c: Ctx, t: Tree)
    requires forall id :: id in CtxIds(c) + Ids(t) ==> (CtxIds(c) + Ids(t))[id] == 1
    ensures DistinctIds(AllLeaves(c, t))
  {
    var whole := Plug(c, t);
    PlugIds(c, t);
    PlugLeaves(c, t);
    LeafIdsWithin(whole);
    var ls := AllLeaves(c, t);
    forall i, j | 0 <= i < j < |ls|
      ensures ls[i].id != ls[j].id
    {
      var ids := RootIds(ls);
      assert ids[i] in multiset(ids);
      DistinctFromCounts(ids, i, j);
    }
  }

  /** Page `id` is a leaf with the same links in both stores. */
  ghost predicate SameLinks(pages: Store, pages': Store, id: PageId) {
    && id in pages && id in pages' && pages[id].body.Leaf? && pages'[id].body.Leaf?
    && pages[id].id == id && pages'[id].id == id
    && pages[id].body.next == pages'[id].body.next && pages[id].body.prev == pages'[id].body.prev
  }

  /** Changes that leave the links of all leaves alone leave the chain alone. */
  lemma {:induction false} ChainFrame(pages: Store, pages': Store, ls: seq<Tree>, ls': seq<Tree>)
    requires Chain(pages, ls) && RootIds(ls) == RootIds(ls')
    requires forall i :: 0 <= i < |ls| ==> SameLinks(pages, pages', ls[i].id)
    ensures Chain(pages', ls')
  {
    assert |ls| == |RootIds(ls)| == |RootIds(ls')| == |ls'|;
    forall i | 0 <= i < |ls'|
      ensures Linked(pages', ls', i)
    {
      assert Linked(pages, ls, i);
      assert forall j :: 0 <= j < |ls| ==> RootIds(ls)[j] == RootIds(ls')[j];
      assert forall j :: IdAt(ls, j) == IdAt(ls', j);
    }
  }

  /** Links of one leaf page. */
  ghost predicate Links(pages: Store, id: PageId, prev: Option<PageId>, next: Option<PageId>) {
    && id in pages && pages[id].id == id && pages[id].body.Leaf?
    && pages[id].body.prev == prev && pages[id].body.next == next
  }

  /** A leaf `x` gives way to `x` and a new right neighbour `y`. */
  lemma {:induction false} ChainSplit(pages: Store, pages': Store, a: seq<Tree>, x: Tree, x': Tree, y: Tree,
                                      b: seq<Tree>)
    requires Chain(pages, a + [x] + b) && DistinctIds(a + [x] + b)
    requires x'.id == x.id
    requires Links(pages', x.id, IdAt(a, |a| - 1), Some(y.id))
    requires Links(pages', y.id, Some(x.id), IdAt(b, 0))
    requires b != [] ==> Links(pages', b[0].id, Some(y.id), IdAt(b, 1))
    requires forall i :: 0 <= i < |a| ==> SameLinks(pages, pages', a[i].id)
    requires forall i :: 1 <= i < |b| ==> SameLinks(pages, pages', b[i].id)
    ensures Chain(pages', a + [x', y] + b)
  {
    var ls, ls' := a + [x] + b, a + [x', y] + b;
    forall i | 0 <= i < |ls'|
      ensures Linked(pages', ls', i)
    {
      if i < |a| {
        assert ls'[i] == a[i] == ls[i];
        assert Linked(pages, ls, i);
        assert IdAt(ls', i + 1) == IdAt(ls, i + 1) && IdAt(ls', i - 1) == IdAt(ls, i - 1);
      } else if i == |a| {
        assert IdAt(ls', i - 1) == IdAt(a, |a| - 1);
      } else if i == |a| + 1 {
        assert IdAt(ls', i + 1) == IdAt(b, 0);
      } else {
        var j := i - |a| - 2;
        assert ls'[i] == b[j] == ls[i - 1];
        assert IdAt(ls', i + 1) == IdAt(b, j + 1) == IdAt(ls, i);
        if j > 0 {
          assert Linked(pages, ls, i - 1);
          assert IdAt(ls', i - 1) == IdAt(b, j - 1) == IdAt(ls, i - 2);
        }
      }
    }
  }

  /** Two neighbouring leaves `x` and `y` give way to `x`. */
  lemma {:induction false} ChainMerge(pages: Store, pages': Store, a: seq<Tree>, x: Tree, y: Tree, x': Tree,
                                      b: seq<Tree>)
    requires Chain(pages, a + [x, y] + b) && DistinctIds(a + [x, y] + b)
    requires x'.id == x.id
    requires Links(pages', x.id, IdAt(a, |a| - 1), IdAt(b, 0))
    requires b != [] ==> Links(pages', b[0].id, Some(x.id), IdAt(b, 1))
    requires forall i :: 0 <= i < |a| ==> SameLinks(pages, pages', a[i].id)
    requires forall i :: 1 <= i < |b| ==> SameLinks(pages, pages', b[i].id)
    ensures Chain(pages', a + [x'] + b)
  {
    var ls, ls' := a + [x, y] + b, a + [x'] + b;
    forall i | 0 <= i < |ls'|
      ensures Linked(pages', ls', i)
    {
      if i < |a| {
        assert ls'[i] == a[i] == ls[i];
        assert Linked(pages, ls, i);
        assert IdAt(ls', i + 1) == IdAt(ls, i + 1) && IdAt(ls', i - 1) == IdAt(ls, i - 1);
      } else if i == |a| {
        assert IdAt(ls', i - 1) == IdAt(a, |a| - 1);
        assert IdAt(ls', i + 1) == IdAt(b, 0);
      } else {
        var j := i - |a| - 1;
        assert ls'[i] == b[j] == ls[i + 1];
        assert IdAt(ls', i + 1) == IdAt(b, j + 1) == IdAt(ls, i + 2);
        if j > 0 {
          assert Linked(pages, ls, i + 1);
          assert IdAt(ls', i - 1) == IdAt(b, j - 1) == IdAt(ls, i);
        }
      }
    }
  }
}

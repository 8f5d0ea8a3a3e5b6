/** What a borrow leaves behind when the page above has no room for the new separator: the entries have
    moved, the separator has not. */
module Misrouting {
  import opened Common
  import opened Schemas
  import opened Pages
  import opened Trees
  import opened Stores
  import opened Focus
  import opened Contents
  import opened Finding
  import opened Inserting
  import opened Joining
  import opened Rebalancing
  import opened Recutting

  /** The page above, with the pair cut at `k` and the old separator still in place. */
  function BrokenParent(p: Tree, j: nat, k: nat): Tree
    requires p.NodeT? && |p.kids| == |p.keys| + 1 && j < |p.keys| && k < JoinedCount(p.kids[j], p.kids[j + 1])
    requires p.kids[j].NodeT? ==> |p.kids[j].kids| == |p.kids[j].keys| + 1
    requires p.kids[j + 1].NodeT? ==> |p.kids[j + 1].kids| == |p.kids[j + 1].keys| + 1
  {
    var (a, sep, b) := Recut(p.kids[j], p.keys[j], p.kids[j + 1], k);
    WithPair(p, j, a, b)
  }

  function WithPair(p: Tree, j: nat, a: Tree, b: Tree): Tree
    requires p.NodeT? && j + 1 < |p.kids|
  {
    NodeT(p.id, p.keys, p.kids[..j] + [a, b] + p.kids[j + 2..])
  }

  /** `x` lies between the old separator and the new one, whichever is lower. */
  predicate Between(old_: Key, new_: Key, x: Key) {
    || (!KeyLess(x, old_) && KeyLess(x, new_))
    || (!KeyLess(x, new_) && KeyLess(x, old_))
  }

  /** Lookups after a failed borrow: a row is found by its key unless it lies between the separators. */
  ghost predicate LostBetween(t: Tree, rows: seq<Row>, old_: Key, new_: Key) {
    forall x :: Find(t, x) == if Between(old_, new_, x) then None else RowWith(rows, x)
  }

  /** The pages spell out a tree with these rows in its chain of leaves, of which exactly those between the
      separators are not found. */
  ghost predicate Broken(s: Schema, pages: Store, m: PageId, t: Tree, fl: seq<PageId>, rows: seq<Row>, old_: Key,
                         new_: Key) {
    Spelled(s, pages, m, t, fl) && RowsOf(Leaves(t)) == rows && old_ != new_ && LostBetween(t, rows, old_, new_)
  }

  // -------------------------------------------------------------------------- the pages

  lemma {:induction false} WithPairParts(up: Ctx, p: Tree, j: nat, a: Tree, b: Tree)
    requires p.NodeT? && |p.kids| == |p.keys| + 1 && j < |p.keys|
    ensures var t := WithPair(p, j, a, b);
      && |t.kids| == |t.keys| + 1 && t.kids[j] == a && t.kids[j + 1] == b && PairCtx(up, t, j) == PairCtx(up, p, j)
      && (forall i :: 0 <= i < |p.kids| && i != j && i != j + 1 ==> t.kids[i] == p.kids[i])
  {
    var t := WithPair(p, j, a, b);
    assert t.kids[..j] == p.kids[..j] && t.kids[j + 2..] == p.kids[j + 2..];
  }

  lemma {:induction false} RepPlug(pages: Store, c: Ctx, t: Tree)
    requires RepCtx(pages, c, t.id) && RepT(pages, t)
    ensures RepT(pages, Plug(c, t)) && Plug(c, t).id == RootOf(c, t.id)
    decreases c
  {
    if c.Down? {
      hide RepT;
      RepEnclosing(pages, c, t);
      RepPlug(pages, c.up, Enclosing(c, t));
    }
  }

  lemma {:induction false} PairRep(pages: Store, p: Tree, j: nat, a: Tree, b: Tree)
    requires p.NodeT? && |p.kids| == |p.keys| + 1 && j < |p.keys| && a.id == p.kids[j].id && b.id == p.kids[j + 1].id
    requires RepAll(pages, p.kids[..j]) && RepAll(pages, p.kids[j + 2..]) && RepT(pages, a) && RepT(pages, b)
    requires p.id in pages && pages[p.id].id == p.id && pages[p.id].body == Internal(p.keys, RootIds(p.kids))
    ensures RepT(pages, WithPair(p, j, a, b))
  {
    hide RepT;
    var t := WithPair(p, j, a, b);
    WithPairParts(Top, p, j, a, b);
    assert RootIds(t.kids) == RootIds(p.kids);
    assert RepAll(pages, [a, b]);
    RepAllAppend(pages, p.kids[..j], [a, b]);
    RepAllAppend(pages, p.kids[..j] + [a, b], p.kids[j + 2..]);
    NodeRep(pages, t.id, t.keys, t.kids);
  }

  lemma {:induction false} PairBranching(s: Schema, p: Tree, lo: Option<Key>, hi: Option<Key>, h: nat, j: nat, a: Tree,
                                         b: Tree)
    requires p.NodeT? && Wf(s, p, lo, hi, h) && j < |p.keys| && Branching(a) && Branching(b)
    ensures Branching(WithPair(p, j, a, b))
  {
    hide Wf;
    WfBranching(s, p, lo, hi, h);
    WithPairParts(Top, p, j, a, b);
  }

  /** The pages still spell out a tree, its leaves chained and its page numbers accounted for. */
  lemma {:induction false} BrokenSpelled(s: Schema, pages: Store, pages': Store, m: PageId, up: Ctx, p: Tree, h: nat,
                                         fl: seq<PageId>, j: nat, a: Tree, sep': Key, b: Tree)
    requires Sound(s, pages, m, up, p, h + 1, fl) && p.NodeT? && |p.kids| == |p.keys| + 1 && j < |p.keys|
    requires Apart(s, pages', PairCtx(up, p, j), a, sep', b, h) && a.id == p.kids[j].id && b.id == p.kids[j + 1].id
    requires Ids(a) + Ids(b) == Ids(p.kids[j]) + Ids(p.kids[j + 1])
    requires Space(pages', m, CtxIds(up) + Ids(p), fl)
    requires p.id in pages && p.id in pages' && pages'[p.id] == pages[p.id] && m in pages' && pages'[m] == pages[m]
    ensures Spelled(s, pages', m, Plug(up, WithPair(p, j, a, b)), fl)
    ensures Leaves(Plug(up, WithPair(p, j, a, b))) == PairLeaves(PairCtx(up, p, j), a, b)
  {
    hide Wf, CtxWf, RepCtx, RepT, RepAll, Chain, Space, CtxIds, Ids, Lo, Hi, Above, Below, ValidKey, PairLeaves;
    hide AllLeaves, Leaves;
    hide RootIds, Branching, BranchingCtx, WithPair, Plug, LeavesBefore, LeavesAfter;
    var t, c := WithPair(p, j, a, b), PairCtx(up, p, j);
    SpelledParts(s, pages, up, p, h, j);
    WithPairNode(p, j, a, b);
    PairRep(pages', p, j, a, b);
    RepPlug(pages', up, t);
    CtxBranching(s, up, h + 1);
    WfBranching(s, a, Lo(c), Some(sep'), h);
    WfBranching(s, b, Some(sep'), Hi(c), h);
    PairBranching(s, p, Lo(up), Hi(up), h + 1, j, a, b);
    PlugBranching(up, t);
    PlugLeaves(up, t);
    PlugIds(up, t);
    WithPairParts(up, p, j, a, b);
    ApartParts(up, t, j);
    ApartParts(up, p, j);
    AllLeavesAre(up, t);
    assert CtxIds(c) + Ids(a) + Ids(b) == CtxIds(c) + Ids(p.kids[j]) + Ids(p.kids[j + 1]) by {
      assert CtxIds(c) + Ids(a) + Ids(b) == CtxIds(c) + (Ids(a) + Ids(b));
    }
  }

  lemma {:induction false} WithPairNode(p: Tree, j: nat, a: Tree, b: Tree)
    requires p.NodeT? && j + 1 < |p.kids|
    ensures WithPair(p, j, a, b).NodeT? && WithPair(p, j, a, b).id == p.id && WithPair(p, j, a, b).keys == p.keys
  {
  }

  lemma {:induction false} SpelledParts(s: Schema, pages: Store, up: Ctx, p: Tree, h: nat, j: nat)
    requires Shape(s, pages, up, p, h + 1) && p.NodeT? && |p.kids| == |p.keys| + 1 && j < |p.keys|
    ensures p.id in pages && pages[p.id].id == p.id && pages[p.id].body == Internal(p.keys, RootIds(p.kids))
    ensures CtxWf(s, up, h + 1) && Wf(s, p, Lo(up), Hi(up), h + 1)
  {
    hide Wf, CtxWf, RepCtx, RepT, RepAll, Chain;
    RepNode(pages, p);
  }

  // ------------------------------------------------------------------------- the lookups

  /** Within the page above, only keys between the separators are led to the wrong child. */
  lemma {:induction false} PairFinds(s: Schema, p: Tree, lo: Option<Key>, hi: Option<Key>, h: nat, j: nat, a: Tree,
                                     sep': Key, b: Tree, x: Key)
    requires p.NodeT? && Wf(s, p, lo, hi, h + 1) && |p.kids| == |p.keys| + 1 && j < |p.keys|
    requires Wf(s, a, KidLo(p.keys, j, lo), Some(sep'), h) && Wf(s, b, Some(sep'), KidHi(p.keys, j + 1, hi), h)
    requires Above(KidLo(p.keys, j, lo), sep') && Below(sep', KidHi(p.keys, j + 1, hi))
    requires Rows(a) + Rows(b) == Rows(p.kids[j]) + Rows(p.kids[j + 1])
    ensures Find(WithPair(p, j, a, b), x) == if Between(p.keys[j], sep', x) then None else Find(p, x)
  {
    var i := FindChildIndex(p.keys, x);
    assert Sorted(p.keys) && (forall n :: 0 <= n < |p.kids| ==>
      Wf(s, p.kids[n], KidLo(p.keys, n, lo), KidHi(p.keys, n, hi), h)) by { KidsWf(s, p, lo, hi, h + 1); }
    hide Wf, FindChildIndex, Rows, RowWith, Find;
    ChildBounds(p.keys, x, i);
    FindInKid(p, x);
    WithPairNode(p, j, a, b);
    WithPairParts(Top, p, j, a, b);
    FindInKid(WithPair(p, j, a, b), x);
    hide WithPair;
    if i == j {
      LeftFinds(s, p, lo, hi, h, j, a, sep', b, x);
    } else if i == j + 1 {
      RightFinds(s, p, lo, hi, h, j, a, sep', b, x);
    } else {
      BesidePair(p.keys, lo, hi, j, sep', x, i);
    }
  }

  lemma {:induction false} FindInKid(t: Tree, x: Key)
    requires t.NodeT? && FindChildIndex(t.keys, x) < |t.kids|
    ensures Find(t, x) == Find(t.kids[FindChildIndex(t.keys, x)], x)
  {
    hide FindChildIndex;
  }

  /** What is known of the rows of the pair under `x`, before and after. */
  lemma {:induction false} PairRows(s: Schema, l: Tree, sep: Key, r: Tree, lo: Option<Key>, hi: Option<Key>, h: nat,
                                    x: Key)
    requires Wf(s, l, lo, Some(sep), h) && Wf(s, r, Some(sep), hi, h)
    ensures Find(l, x) == RowWith(Rows(l), x) && Find(r, x) == RowWith(Rows(r), x)
    ensures RowWith(Rows(l) + Rows(r), x) == if Find(l, x).Some? then Find(l, x) else Find(r, x)
    ensures !(AtLeast(lo, x) && KeyLess(x, sep)) ==> Find(l, x) == None
    ensures !(!KeyLess(x, sep) && Below(x, hi)) ==> Find(r, x) == None
  {
    hide Wf, RowWith, Rows, Find;
    FindWf(s, l, lo, Some(sep), h, x);
    FindWf(s, r, Some(sep), hi, h, x);
    RowWithAppend(Rows(l), Rows(r), x);
    NotIn(s, l, lo, Some(sep), h, x);
    NotIn(s, r, Some(sep), hi, h, x);
  }

  /** A key that is led to the left page of the pair. */
  lemma {:induction false} LeftFinds(s: Schema, p: Tree, lo: Option<Key>, hi: Option<Key>, h: nat, j: nat, a: Tree,
                                     sep': Key, b: Tree, x: Key)
    requires p.NodeT? && |p.kids| == |p.keys| + 1 && j < |p.keys|
    requires Wf(s, p.kids[j], KidLo(p.keys, j, lo), Some(p.keys[j]), h)
    requires Wf(s, p.kids[j + 1], Some(p.keys[j]), KidHi(p.keys, j + 1, hi), h)
    requires Wf(s, a, KidLo(p.keys, j, lo), Some(sep'), h) && Wf(s, b, Some(sep'), KidHi(p.keys, j + 1, hi), h)
    requires Rows(a) + Rows(b) == Rows(p.kids[j]) + Rows(p.kids[j + 1])
    requires KeyLess(x, p.keys[j])
    ensures Find(a, x) == if Between(p.keys[j], sep', x) then None else Find(p.kids[j], x)
  {
    hide Wf, RowWith, Rows, Find, KidLo, KidHi;
    PairRows(s, p.kids[j], p.keys[j], p.kids[j + 1], KidLo(p.keys, j, lo), KidHi(p.keys, j + 1, hi), h, x);
    PairRows(s, a, sep', b, KidLo(p.keys, j, lo), KidHi(p.keys, j + 1, hi), h, x);
  }

  /** A key that is led to the right page of the pair. */
  lemma {:induction false} RightFinds(s: Schema, p: Tree, lo: Option<Key>, hi: Option<Key>, h: nat, j: nat, a: Tree,
                                      sep': Key, b: Tree, x: Key)
    requires p.NodeT? && |p.kids| == |p.keys| + 1 && j < |p.keys|
    requires Wf(s, p.kids[j], KidLo(p.keys, j, lo), Some(p.keys[j]), h)
    requires Wf(s, p.kids[j + 1], Some(p.keys[j]), KidHi(p.keys, j + 1, hi), h)
    requires Wf(s, a, KidLo(p.keys, j, lo), Some(sep'), h) && Wf(s, b, Some(sep'), KidHi(p.keys, j + 1, hi), h)
    requires Rows(a) + Rows(b) == Rows(p.kids[j]) + Rows(p.kids[j + 1])
    requires !KeyLess(x, p.keys[j])
    ensures Find(b, x) == if Between(p.keys[j], sep', x) then None else Find(p.kids[j + 1], x)
  {
    hide Wf, RowWith, Rows, Find, KidLo, KidHi;
    PairRows(s, p.kids[j], p.keys[j], p.kids[j + 1], KidLo(p.keys, j, lo), KidHi(p.keys, j + 1, hi), h, x);
    PairRows(s, a, sep', b, KidLo(p.keys, j, lo), KidHi(p.keys, j + 1, hi), h, x);
  }

  /** A key that is led to another page is not between the separators. */
  lemma {:induction false} BesidePair(keys: seq<Key>, lo: Option<Key>, hi: Option<Key>, j: nat, sep': Key, x: Key,
                                      i: nat)
    requires j < |keys| && i <= |keys| && i != j && i != j + 1
    requires Above(KidLo(keys, j, lo), sep') && Below(sep', KidHi(keys, j + 1, hi))
    requires forall n :: 0 <= n < i ==> !KeyLess(x, keys[n])
    requires forall n :: i <= n < |keys| ==> KeyLess(x, keys[n])
    ensures !Between(keys[j], sep', x)
  {
    if i < j {
      assert KeyLess(x, keys[j - 1]) && KeyLess(x, keys[j]);
    } else {
      assert !KeyLess(x, keys[j + 1]) && !KeyLess(x, keys[j]);
    }
  }

  lemma {:induction false} NotIn(s: Schema, t: Tree, lo: Option<Key>, hi: Option<Key>, h: nat, x: Key)
    requires Wf(s, t, lo, hi, h)
    ensures !(AtLeast(lo, x) && Below(x, hi)) ==> RowWith(Rows(t), x) == None
  {
    hide Wf, RowWith, Rows;
    RowsSorted(s, t, lo, hi, h);
    if !(AtLeast(lo, x) && Below(x, hi)) {
      OutOfRange(Rows(t), lo, hi, x);
    }
  }

  /** In the whole tree, exactly the rows between the old separator and the new one are not found. */
  lemma {:induction false} BrokenFinds(s: Schema, up: Ctx, p: Tree, h: nat, j: nat, a: Tree, sep': Key, b: Tree)
    requires CtxWf(s, up, h + 1) && p.NodeT? && Wf(s, p, Lo(up), Hi(up), h + 1) && |p.kids| == |p.keys| + 1
    requires j < |p.keys|
    requires Wf(s, a, KidLo(p.keys, j, Lo(up)), Some(sep'), h) && Wf(s, b, Some(sep'), KidHi(p.keys, j + 1, Hi(up)), h)
    requires Above(KidLo(p.keys, j, Lo(up)), sep') && Below(sep', KidHi(p.keys, j + 1, Hi(up)))
    requires Rows(a) + Rows(b) == Rows(p.kids[j]) + Rows(p.kids[j + 1])
    ensures LostBetween(Plug(up, WithPair(p, j, a, b)), RowsOf(AllLeaves(up, p)), p.keys[j], sep')
  {
    hide Wf, CtxWf, Plug, WithPair, Find, RowWith, RowsOf, Rows, Lo, Hi, KidLo, KidHi, Above, Below, Between, AllLeaves;
    var t := WithPair(p, j, a, b);
    forall x
      ensures Find(Plug(up, t), x) == if Between(p.keys[j], sep', x) then None else RowWith(RowsOf(AllLeaves(up, p)), x)
    {
      PlugWf(s, up, p, h + 1);
      FindWf(s, Plug(up, p), None, None, h + 1 + Depth(up), x);
      PlugRows(up, p);
      if RoutesHere(up, x) {
        FindThrough(up, t, x);
        FindThrough(up, p, x);
        PairFinds(s, p, Lo(up), Hi(up), h, j, a, sep', b, x);
      } else {
        FindElsewhere(up, t, p, x);
        if Between(p.keys[j], sep', x) {
          BetweenFits(s, up, p, h, j, sep', x);
          FitsRoutes(s, up, h + 1, x);
          assert false;
        }
      }
    }
  }

  lemma {:induction false} PlugRows(c: Ctx, t: Tree)
    ensures Rows(Plug(c, t)) == RowsOf(AllLeaves(c, t))
  {
    PlugLeaves(c, t);
  }

  lemma {:induction false} BetweenFits(s: Schema, up: Ctx, p: Tree, h: nat, j: nat, sep': Key, x: Key)
    requires p.NodeT? && Wf(s, p, Lo(up), Hi(up), h + 1) && |p.kids| == |p.keys| + 1 && j < |p.keys|
    requires Above(KidLo(p.keys, j, Lo(up)), sep') && Below(sep', KidHi(p.keys, j + 1, Hi(up)))
    requires Between(p.keys[j], sep', x)
    ensures KeyFits(up, x)
  {
    assert KeysOk(s, p.keys, Lo(up), Hi(up));
    hide Wf, ValidKey, KeyBytes, Lo, Hi;
    if j > 0 {
      assert Above(Lo(up), p.keys[j - 1]);
    }
    if j + 1 < |p.keys| {
      assert Below(p.keys[j + 1], Hi(up));
    }
    assert Above(Lo(up), p.keys[j]) && Below(p.keys[j], Hi(up));
  }

  /** All there is to say about a table after a borrow whose separator did not fit. */
  lemma {:induction false} BrokenState(s: Schema, pages: Store, pages': Store, m: PageId, up: Ctx, p: Tree, h: nat,
                                       fl: seq<PageId>, j: nat, k: nat)
    requires Sound(s, pages, m, up, p, h + 1, fl) && p.NodeT? && |p.kids| == |p.keys| + 1 && j < |p.keys|
    requires k < JoinedCount(p.kids[j], p.kids[j + 1])
    requires p.kids[j].NodeT? ==> |p.kids[j].kids| == |p.kids[j].keys| + 1
    requires p.kids[j + 1].NodeT? ==> |p.kids[j + 1].kids| == |p.kids[j + 1].keys| + 1
    requires var (a, sep', b) := Recut(p.kids[j], p.keys[j], p.kids[j + 1], k);
      Apart(s, pages', PairCtx(up, p, j), a, sep', b, h)
    requires Space(pages', m, CtxIds(up) + Ids(p), fl)
    requires p.id in pages && p.id in pages' && pages'[p.id] == pages[p.id] && m in pages' && pages'[m] == pages[m]
    requires Recut(p.kids[j], p.keys[j], p.kids[j + 1], k).1 != p.keys[j]
    ensures var t, sep' := Plug(up, BrokenParent(p, j, k)), Recut(p.kids[j], p.keys[j], p.kids[j + 1], k).1;
      Broken(s, pages', m, t, fl, RowsOf(AllLeaves(up, p)), p.keys[j], sep')
  {
    hide Wf, CtxWf, RepCtx, RepT, RepAll, Chain, Space, CtxIds, Ids, Lo, Hi, Above, Below, ValidKey, PairLeaves;
    hide AllLeaves, Leaves;
    hide RootIds, WithPair, Plug, Recut, Spelled, LostBetween, RowsOf, KidLo, KidHi, Rows;
    var (a, sep', b) := Recut(p.kids[j], p.keys[j], p.kids[j + 1], k);
    var c := PairCtx(up, p, j);
    SpelledParts(s, pages, up, p, h, j);
    RecutParts(c, p.kids[j], p.keys[j], p.kids[j + 1], k);
    RecutRows(p.kids[j], p.keys[j], p.kids[j + 1], k);
    BrokenSpelled(s, pages, pages', m, up, p, h, fl, j, a, sep', b);
    ApartParts(up, p, j);
    PairWf(s, up, p, h, j);
    BrokenFinds(s, up, p, h, j, a, sep', b);
  }

  /** Cutting a pair elsewhere keeps its rows in order. */
  lemma {:induction false} RecutRows(l: Tree, sep: Key, r: Tree, k: nat)
    requires k < JoinedCount(l, r) && (l.NodeT? ==> |l.kids| == |l.keys| + 1) && (r.NodeT? ==> |r.kids| == |r.keys| + 1)
    ensures var (a, s', b) := Recut(l, sep, r, k); Rows(a) + Rows(b) == Rows(l) + Rows(r)
  {
    hide Recut, RowsOf, PairLeaves;
    var (a, s', b) := Recut(l, sep, r, k);
    RecutParts(Top, l, sep, r, k);
    PairRowsAre(a, b);
    PairRowsAre(l, r);
  }

  lemma {:induction false} PairRowsAre(a: Tree, b: Tree)
    ensures RowsOf(PairLeaves(Top, a, b)) == Rows(a) + Rows(b)
  {
    hide RowsOf, Leaves;
    PairLeavesAre(Top, a, b);
    assert PairLeaves(Top, a, b) == Leaves(a) + Leaves(b);
    RowsOfAppend(Leaves(a), Leaves(b));
  }
}

/** A tree seen from one of its pages: the page's subtree in focus, and the rest around it. */
module Focus {
  import opened Schemas
  import opened Pages
  import opened Trees
  import opened Stores

  /** The leaves of the whole tree, in key order. */
  function AllLeaves(c: Ctx, t: Tree): seq<Tree> {
    LeavesBefore(c) + Leaves(t) + LeavesAfter(c)
  }

  /** The meta page `m` names this root and carries this schema. */
  ghost predicate MetaNames(pages: Store, m: PageId, root: PageId, s: Schema) {
    m in pages && pages[m].body.Meta? && pages[m].body.root == root && pages[m].body.schema == s
  }

  /** The pages spell out a search tree with chained leaves, seen from `t` inside `c`. */
  ghost predicate Shape(s: Schema, pages: Store, c: Ctx, t: Tree, h: nat) {
    && CtxWf(s, c, h)
    && Wf(s, t, Lo(c), Hi(c), h)
    && RepCtx(pages, c, t.id)
    && RepT(pages, t)
    && Chain(pages, AllLeaves(c, t))
  }

  /** The whole invariant of a table, seen from `t` inside `c`. */
  ghost predicate Sound(s: Schema, pages: Store, m: PageId, c: Ctx, t: Tree, h: nat, fl: seq<PageId>) {
    && Shape(s, pages, c, t, h)
    && Space(pages, m, CtxIds(c) + Ids(t), fl)
    && MetaNames(pages, m, RootOf(c, t.id), s)
  }

  function Enclosing(c: Ctx, t: Tree): Tree
    requires c.Down?
  {
    NodeT(c.id, c.keys, c.left + [t] + c.right)
  }

  lemma {:induction false} RootIdsMiddle(a: seq<Tree>, t: Tree, b: seq<Tree>)
    ensures RootIds(a + [t] + b) == RootIds(a) + [t.id] + RootIds(b)
  {
  }

  lemma {:induction false} RepEnclosing(pages: Store, c: Ctx, t: Tree)
    requires c.Down? && RepCtx(pages, c, t.id) && RepT(pages, t)
    ensures RepT(pages, Enclosing(c, t)) && RepCtx(pages, c.up, c.id)
  {
    hide Sorted;
    var kids := c.left + [t] + c.right;
    RootIdsMiddle(c.left, t, c.right);
    forall i | 0 <= i < |kids|
      ensures RepT(pages, kids[i])
    {
      if i > |c.left| {
        assert kids[i] == c.right[i - |c.left| - 1];
      }
    }
  }

  lemma {:induction false} AllLeavesUp(c: Ctx, t: Tree)
    requires c.Down?
    ensures AllLeaves(c.up, Enclosing(c, t)) == AllLeaves(c, t)
  {
    LeavesOfMiddle(c.left, t, c.right);
    assert Leaves(Enclosing(c, t)) == LeavesOf(c.left) + Leaves(t) + LeavesOf(c.right);
    Regroup(LeavesBefore(c.up), LeavesOf(c.left), Leaves(t), LeavesOf(c.right), LeavesAfter(c.up));
  }

  lemma {:induction false} Regroup<T>(a: seq<T>, b: seq<T>, x: seq<T>, c: seq<T>, d: seq<T>)
    ensures a + (b + x + c) + d == (a + b) + x + (c + d)
  {
  }

  lemma {:induction false} IdsUp(c: Ctx, t: Tree)
    requires c.Down?
    ensures CtxIds(c.up) + Ids(Enclosing(c, t)) == CtxIds(c) + Ids(t)
  {
    IdsOfMiddle(c.left, t, c.right);
  }

  /** Moving the focus up one page keeps the invariant. */
  lemma {:induction false} FocusUp(s: Schema, pages: Store, m: PageId, c: Ctx, t: Tree, h: nat, fl: seq<PageId>)
    requires c.Down? && Sound(s, pages, m, c, t, h, fl)
    ensures Sound(s, pages, m, c.up, Enclosing(c, t), h + 1, fl)
    ensures AllLeaves(c.up, Enclosing(c, t)) == AllLeaves(c, t)
  {
    hide Wf, RepT, Chain, Space, KeysOk, SidesOk, RepAll, AllLeaves, CtxIds, Ids;
    NodeWf(s, c, t, h);
    RepEnclosing(pages, c, t);
    AllLeavesUp(c, t);
    IdsUp(c, t);
  }

  /** Moving the focus all the way up gives the invariant of the tree as a whole. */
  lemma {:induction false} FocusTop(s: Schema, pages: Store, m: PageId, c: Ctx, t: Tree, h: nat, fl: seq<PageId>)
    requires Sound(s, pages, m, c, t, h, fl)
    ensures Sound(s, pages, m, Top, Plug(c, t), h + Depth(c), fl)
    ensures AllLeaves(Top, Plug(c, t)) == AllLeaves(c, t)
    decreases c
  {
    hide Sound, AllLeaves;
    if c.Down? {
      FocusUp(s, pages, m, c, t, h, fl);
      FocusTop(s, pages, m, c.up, Enclosing(c, t), h + 1, fl);
    }
  }

  function KidCtx(c: Ctx, t: Tree, i: nat): Ctx
    requires t.NodeT? && i < |t.kids|
  {
    Down(c, t.id, t.keys, t.kids[..i], t.kids[i + 1..])
  }

  lemma {:induction false} KidCtxEncloses(c: Ctx, t: Tree, i: nat)
    requires t.NodeT? && i < |t.kids|
    ensures Enclosing(KidCtx(c, t, i), t.kids[i]) == t
  {
    assert t.kids[..i] + [t.kids[i]] + t.kids[i + 1..] == t.kids;
  }

  lemma {:induction false} RepKid(pages: Store, c: Ctx, t: Tree, i: nat)
    requires t.NodeT? && i < |t.kids| && RepCtx(pages, c, t.id) && RepT(pages, t)
    ensures RepCtx(pages, KidCtx(c, t, i), t.kids[i].id) && RepT(pages, t.kids[i])
  {
    KidCtxEncloses(c, t, i);
    RootIdsMiddle(t.kids[..i], t.kids[i], t.kids[i + 1..]);
  }

  /** Moving the focus down to a child keeps the invariant. */
  lemma {:induction false} FocusDown(s: Schema, pages: Store, m: PageId, c: Ctx, t: Tree, h: nat, fl: seq<PageId>,
                                     i: nat)
    requires t.NodeT? && i < |t.kids| && Sound(s, pages, m, c, t, h, fl)
    ensures h > 0 && |t.kids| == |t.keys| + 1
    ensures Sound(s, pages, m, KidCtx(c, t, i), t.kids[i], h - 1, fl)
    ensures AllLeaves(KidCtx(c, t, i), t.kids[i]) == AllLeaves(c, t)
    ensures Lo(KidCtx(c, t, i)) == KidLo(t.keys, i, Lo(c))
    ensures Hi(KidCtx(c, t, i)) == KidHi(t.keys, i, Hi(c))
  {
    hide Wf, CtxWf, RepT, RepCtx, Chain, Space, AllLeaves, CtxIds, Ids, Lo, Hi;
    StepDown(s, c, t, h, i);
    KidCtxEncloses(c, t, i);
    RepKid(pages, c, t, i);
    AllLeavesUp(KidCtx(c, t, i), t.kids[i]);
    IdsUp(KidCtx(c, t, i), t.kids[i]);
  }

  /** Every page around and below the focus is present. */
  lemma {:induction false} RepPresent(pages: Store, t: Tree, id: PageId)
    requires RepT(pages, t) && id in Ids(t)
    ensures id in pages
    decreases t
  {
    if t.NodeT? && id != t.id {
      RepPresentOf(pages, t.kids, id);
    }
  }

  lemma {:induction false} RepPresentOf(pages: Store, ts: seq<Tree>, id: PageId)
    requires RepAll(pages, ts) && id in IdsOf(ts)
    ensures id in pages
    decreases ts
  {
    if id in Ids(ts[0]) {
      RepPresent(pages, ts[0], id);
    } else {
      RepPresentOf(pages, ts[1..], id);
    }
  }

  /** Pages outside the tree may change freely. */
  lemma {:induction false} ShapeFrame(s: Schema, pages: Store, pages': Store, c: Ctx, t: Tree, h: nat)
    requires Shape(s, pages, c, t, h)
    requires forall id :: id in CtxIds(c) + Ids(t) && id in pages ==> id in pages' && pages'[id] == pages[id]
    ensures Shape(s, pages', c, t, h)
  {
    hide Wf, CtxWf, RepT, RepCtx, AllLeaves, CtxIds, Ids;
    RepCtxFrame(pages, pages', c, t.id);
    RepFrame(pages, pages', t);
    var ls := AllLeaves(c, t);
    forall i | 0 <= i < |ls|
      ensures Linked(pages', ls, i)
    {
      assert Linked(pages, ls, i);
      LeafIdInAll(c, t, ls[i]);
    }
  }

  lemma {:induction false} LeafIdInAll(c: Ctx, t: Tree, l: Tree)
    requires l in AllLeaves(c, t)
    ensures l.id in CtxIds(c) + Ids(t)
  {
    if l in Leaves(t) {
      LeafIdIn(t, l);
    } else {
      LeafIdInCtx(c, l);
    }
  }
}

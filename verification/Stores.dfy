/** What a page store must hold for a tree: every page spelled out, the leaves chained in both
    directions, and every page number used exactly once by the tree or the free list. */
module Stores {
  import opened Common
  import opened Schemas
  import opened Pages
  import opened Trees

  type Store = map<PageId, Page>

  // ---------------------------------------------------------------- representation

  function RootIds(ts: seq<Tree>): (ids: seq<PageId>)
    ensures |ids| == |ts|
    ensures forall i :: 0 <= i < |ts| ==> ids[i] == ts[i].id
  {
    seq(|ts|, i requires 0 <= i < |ts| => ts[i].id)
  }

  ghost predicate RepT(pages: Store, t: Tree)
    decreases t
  {
    && t.id in pages && pages[t.id].id == t.id
    && match t
       case LeafT(_, rows) => pages[t.id].body.Leaf? && pages[t.id].body.records == rows
       case NodeT(_, keys, kids) =>
         && pages[t.id].body == Internal(keys, RootIds(kids))
         && forall i :: 0 <= i < |kids| ==> RepT(pages, kids[i])
  }

  ghost predicate RepAll(pages: Store, ts: seq<Tree>) {
    forall i :: 0 <= i < |ts| ==> RepT(pages, ts[i])
  }

  /** The pages around a hole that is filled by page `hole`. */
  ghost predicate RepCtx(pages: Store, c: Ctx, hole: PageId) {
    match c
    case Top => true
    case Down(up, id, keys, left, right) =>
      && id in pages && pages[id].id == id
      && pages[id].body == Internal(keys, RootIds(left) + [hole] + RootIds(right))
      && RepAll(pages, left) && RepAll(pages, right)
      && RepCtx(pages, up, id)
  }

  function RootOf(c: Ctx, hole: PageId): PageId {
    if c.Top? then hole else RootOf(c.up, c.id)
  }

  /** Two pages that differ at most in their leaf links. */
  predicate SameContent(p: Page, q: Page) {
    p == q || (p.id == q.id && p.body.Leaf? && q.body.Leaf? && p.body.records == q.body.records)
  }

  ghost predicate Agree(pages: Store, pages': Store, ids: multiset<PageId>) {
    forall id :: id in ids && id in pages ==> id in pages' && SameContent(pages[id], pages'[id])
  }

  lemma {:induction false} IdsOfElement(ts: seq<Tree>, i: nat)
    requires i < |ts|
    ensures Ids(ts[i]) <= IdsOf(ts)
  {
    if i > 0 {
      IdsOfElement(ts[1..], i - 1);
    }
  }

  lemma {:induction false} RepFrame(pages: Store, pages': Store, t: Tree)
    requires RepT(pages, t) && Agree(pages, pages', Ids(t))
    ensures RepT(pages', t)
    decreases t
  {
    if t.NodeT? {
      forall i | 0 <= i < |t.kids|
        ensures RepT(pages', t.kids[i])
      {
        IdsOfElement(t.kids, i);
        RepFrame(pages, pages', t.kids[i]);
      }
    }
  }

  lemma {:induction false} RepAllFrame(pages: Store, pages': Store, ts: seq<Tree>)
    requires RepAll(pages, ts) && Agree(pages, pages', IdsOf(ts))
    ensures RepAll(pages', ts)
  {
    forall i | 0 <= i < |ts|
      ensures RepT(pages', ts[i])
    {
      IdsOfElement(ts, i);
      RepFrame(pages, pages', ts[i]);
    }
  }

  lemma {:induction false} RepCtxFrame(pages: Store, pages': Store, c: Ctx, hole: PageId)
    requires RepCtx(pages, c, hole) && Agree(pages, pages', CtxIds(c))
    ensures RepCtx(pages', c, hole)
    decreases c
  {
    hide RepT, RepAll, IdsOf;
    if c.Down? {
      RepAllFrame(pages, pages', c.left);
      RepAllFrame(pages, pages', c.right);
      RepCtxFrame(pages, pages', c.up, c.id);
    }
  }

  // -------------------------------------------------------------------- leaf chain

  function IdAt(ls: seq<Tree>, i: int): Option<PageId> {
    if 0 <= i < |ls| then Some(ls[i].id) else None
  }

  ghost predicate Linked(pages: Store, ls: seq<Tree>, i: nat)
    requires i < |ls|
  {
    && ls[i].id in pages && pages[ls[i].id].id == ls[i].id && pages[ls[i].id].body.Leaf?
    && pages[ls[i].id].body.next == IdAt(ls, i + 1)
    && pages[ls[i].id].body.prev == IdAt(ls, i - 1)
  }

  /** The leaves in key order are exactly the doubly linked list of leaf pages. */
  ghost predicate Chain(pages: Store, ls: seq<Tree>) {
    forall i :: 0 <= i < |ls| ==> Linked(pages, ls, i)
  }

  lemma {:induction false} LeafIdIn(t: Tree, l: Tree)
    requires l in Leaves(t)
    ensures l.id in Ids(t)
    decreases t, 1
  {
    if t.NodeT? {
      LeafIdInOf(t.kids, l);
    }
  }

  lemma {:induction false} LeafIdInOf(ts: seq<Tree>, l: Tree)
    requires l in LeavesOf(ts)
    ensures l.id in IdsOf(ts)
    decreases ts, 0
  {
    if l in Leaves(ts[0]) {
      LeafIdIn(ts[0], l);
    } else {
      LeafIdInOf(ts[1..], l);
    }
  }

  lemma {:induction false} LeafIdInCtx(c: Ctx, l: Tree)
    requires l in LeavesBefore(c) || l in LeavesAfter(c)
    ensures l.id in CtxIds(c)
  {
    if l in LeavesOf(c.left) {
      LeafIdInOf(c.left, l);
    } else if l in LeavesOf(c.right) {
      LeafIdInOf(c.right, l);
    } else {
      LeafIdInCtx(c.up, l);
    }
  }

  // -------------------------------------------------------------------- free space

  ghost function AllIds(table: nat, n: nat): multiset<PageId> {
    multiset(set i: nat | 1 <= i < n :: PageId(table, i))
  }

  function Head(fl: seq<PageId>): Option<PageId> {
    if fl == [] then None else Some(fl[0])
  }

  ghost predicate FreeChain(pages: Store, fl: seq<PageId>) {
    forall i :: 0 <= i < |fl| ==>
      && fl[i] in pages && pages[fl[i]].id == fl[i]
      && pages[fl[i]].body == Free(Head(fl[i + 1..]))
  }

  /** Exact accounting: page numbers 1 to n - 1 are shared out between `used` (the pages of the
      tree, with multiplicity) and the free list `fl`, each taken once; with the meta page `m`
      they are all the pages there are. */
  ghost predicate Partition(keys: set<PageId>, m: PageId, n: nat, used: multiset<PageId>, fl: seq<PageId>) {
    && m.num == 0 && 1 <= n
    && used + multiset(fl) == AllIds(m.table, n)
    && (forall id :: id in keys <==> id == m || id in AllIds(m.table, n))
  }

  /** A meta page that can be written, with a schema of the kind that can be made. */
  predicate Fitting(p: Page) {
    p.body.Meta? && FreeSpace(p).Some? && |p.body.name| <= 65535 && ValidSchema(p.body.schema)
  }

  /** Whether it fits depends on its schema and its name alone. */
  lemma {:induction false} FittingKept(p: Page, q: Page)
    requires Fitting(p) && q.body.Meta? && q.body.schema == p.body.schema && q.body.name == p.body.name
    ensures Fitting(q)
  {
    hide ValidSchema, SchemaSize;
  }

  ghost predicate Space(pages: Store, m: PageId, used: multiset<PageId>, fl: seq<PageId>) {
    && m in pages && pages[m].id == m && pages[m].body.Meta? && Fitting(pages[m])
    && pages[m].body.root.table == m.table
    && pages[m].body.freeHead == Head(fl)
    && FreeChain(pages, fl)
    && Partition(pages.Keys, m, pages[m].body.pageCount, used, fl)
  }

  lemma {:induction false} PartitionDistinct(keys: set<PageId>, m: PageId, n: nat, used: multiset<PageId>,
                                             fl: seq<PageId>)
    requires Partition(keys, m, n, used, fl)
    ensures forall id :: id in used ==> used[id] == 1 && id !in fl && id in keys && id != m
    ensures forall id :: id in used ==> id.table == m.table && 0 < id.num < n
    ensures forall id :: id in fl ==> id !in used && id in keys && id != m && multiset(fl)[id] == 1
    ensures forall i :: 0 <= i < |fl| ==> fl[i] !in used && fl[i] in keys && fl[i] != m
  {
    var all := AllIds(m.table, n);
    assert forall id :: id in all ==> all[id] == 1;
    forall id | id in used || id in fl
      ensures used[id] + multiset(fl)[id] == 1 && id in keys && id != m && id.table == m.table && 0 < id.num < n
    {
      assert (used + multiset(fl))[id] == used[id] + multiset(fl)[id];
      assert id in all;
    }
  }

  lemma {:induction false} SpaceDistinct(pages: Store, m: PageId, used: multiset<PageId>, fl: seq<PageId>)
    requires Space(pages, m, used, fl)
    ensures forall id :: id in used ==> used[id] == 1 && id !in fl && id in pages && id != m
    ensures forall id :: id in fl ==> id !in used && id in pages && id != m && multiset(fl)[id] == 1
  {
    PartitionDistinct(pages.Keys, m, pages[m].body.pageCount, used, fl);
  }

  lemma {:induction false} AllIdsStep(table: nat, n: nat)
    requires 1 <= n
    ensures AllIds(table, n + 1) == AllIds(table, n) + multiset{PageId(table, n)}
    ensures PageId(table, n) !in AllIds(table, n)
  {
    var a := set i: nat | 1 <= i < n :: PageId(table, i);
    var b := set i: nat | 1 <= i < n + 1 :: PageId(table, i);
    assert b == a + {PageId(table, n)};
    assert PageId(table, n) !in a;
  }
}

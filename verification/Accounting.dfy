/** The meta page's free list and page count: `src/page/meta.rs`, and what they do to the accounting. */
module Accounting {
  import opened Common
  import opened Pages
  import opened Stores

  function FreeListPop(meta: Page, page: Page): (res: Result<Page, PageError>) {
    if !page.body.Free? || !meta.body.Meta? then Err(WrongPageType)
    else if meta.body.freeHead != Some(page.id) then Err(NotFreeListHead)
    else Ok(meta.(body := meta.body.(freeHead := page.body.nextFree)))
  }

  function FreeListPush(meta: Page, freed: Page): (res: Result<(Page, Page), PageError>) {
    if !meta.body.Meta? || !freed.body.Free? then Err(WrongPageType)
    else if freed.id.table != meta.body.root.table then Err(WrongTable)
    else if freed.id.num == 0 then Err(ReservedPage)
    else if freed.id.num >= meta.body.pageCount then Err(PageOutOfRange)
    else if meta.body.freeHead == Some(freed.id) then Err(AlreadyFree)
    else Ok((meta.(body := meta.body.(freeHead := Some(freed.id))),
             freed.(body := Free(meta.body.freeHead))))
  }

  function BumpPageCount(meta: Page): (res: Result<(Page, PageId), PageError>) {
    if !meta.body.Meta? then Err(WrongPageType)
    else Ok((meta.(body := meta.body.(pageCount := meta.body.pageCount + 1)),
             PageId(meta.body.root.table, meta.body.pageCount)))
  }

  /** Writing to pages in use changes nothing in the accounting. */
  lemma {:induction false} SpaceFrame(pages: Store, pages': Store, m: PageId, used: multiset<PageId>, fl: seq<PageId>)
    requires Space(pages, m, used, fl)
    requires pages'.Keys == pages.Keys && pages'[m] == pages[m]
    requires forall id :: id in pages && id !in used ==> pages'[id] == pages[id]
    ensures Space(pages', m, used, fl)
  {
    PartitionDistinct(pages.Keys, m, pages[m].body.pageCount, used, fl);
    hide Partition;
  }

  lemma {:induction false} SpacePut(pages: Store, m: PageId, used: multiset<PageId>, fl: seq<PageId>, id: PageId,
                                    p: Page)
    requires Space(pages, m, used, fl) && id in used
    ensures id in pages && id != m && Space(pages[id := p], m, used, fl)
  {
    PartitionDistinct(pages.Keys, m, pages[m].body.pageCount, used, fl);
    hide Space;
    var pages' := pages[id := p];
    assert pages'.Keys == pages.Keys;
    SpaceFrame(pages, pages', m, used, fl);
  }

  /** Naming another root changes nothing in the accounting. */
  lemma {:induction false} SpaceSetRoot(pages: Store, m: PageId, used: multiset<PageId>, fl: seq<PageId>, id: PageId)
    requires Space(pages, m, used, fl) && id in used
    ensures m in pages && pages[m].body.Meta? && pages[m].id == m
    ensures Space(pages[m := pages[m].(body := pages[m].body.(root := id))], m, used, fl)
  {
    PartitionDistinct(pages.Keys, m, pages[m].body.pageCount, used, fl);
    hide Partition, Fitting;
    var pages' := pages[m := pages[m].(body := pages[m].body.(root := id))];
    FittingKept(pages[m], pages'[m]);
    assert pages'.Keys == pages.Keys;
  }

  /** A free list is acyclic: it never comes back to a page it already passed. */
  lemma {:induction false} FreeListAcyclic(fl: seq<PageId>)
    requires forall id :: id in fl ==> multiset(fl)[id] == 1
    ensures forall i, j :: 0 <= i < j < |fl| ==> fl[i] != fl[j]
  {
    forall i, j | 0 <= i < j < |fl|
      ensures fl[i] != fl[j]
    {
      assert fl == fl[..j] + fl[j..];
      assert multiset(fl) == multiset(fl[..j]) + multiset(fl[j..]);
      assert fl[i] in multiset(fl[..j]) && fl[j] in multiset(fl[j..]);
      assert fl[i] in fl;
    }
  }

  lemma {:induction false} FreeChainTail(pages: Store, pages': Store, fl: seq<PageId>)
    requires fl != [] && FreeChain(pages, fl)
    requires forall i :: 1 <= i < |fl| ==> fl[i] in pages' && pages'[fl[i]] == pages[fl[i]]
    ensures FreeChain(pages', fl[1..])
  {
    var tail := fl[1..];
    forall i | 0 <= i < |tail|
      ensures tail[i] in pages' && pages'[tail[i]].id == tail[i] && pages'[tail[i]].body == Free(Head(tail[i + 1..]))
    {
      assert tail[i] == fl[i + 1] && tail[i + 1..] == fl[i + 2..];
    }
  }

  lemma {:induction false} FreeChainCons(pages: Store, pages': Store, id: PageId, fl: seq<PageId>)
    requires FreeChain(pages, fl)
    requires forall i :: 0 <= i < |fl| ==> fl[i] in pages' && pages'[fl[i]] == pages[fl[i]]
    requires id in pages' && pages'[id].id == id && pages'[id].body == Free(Head(fl))
    ensures FreeChain(pages', [id] + fl)
  {
    var fl' := [id] + fl;
    forall i | 0 <= i < |fl'|
      ensures fl'[i] in pages' && pages'[fl'[i]].id == fl'[i] && pages'[fl'[i]].body == Free(Head(fl'[i + 1..]))
    {
      if i == 0 {
        assert fl'[1..] == fl;
      } else {
        assert fl'[i] == fl[i - 1] && fl'[i + 1..] == fl[i..];
      }
    }
  }

  lemma {:induction false} FreeChainHead(pages: Store, fl: seq<PageId>)
    requires fl != [] && FreeChain(pages, fl)
    ensures fl[0] in pages && pages[fl[0]].id == fl[0] && pages[fl[0]].body == Free(Head(fl[1..]))
  {
  }

  /** Popping the free list hands out a page that was on it and nowhere else. */
  lemma {:induction false} PopSpace(pages: Store, m: PageId, used: multiset<PageId>, fl: seq<PageId>, p: Page)
    requires Space(pages, m, used, fl) && fl != [] && p.id == fl[0]
    ensures fl[0] !in used && fl[0] != m && fl[0] in pages
    ensures FreeListPop(pages[m], pages[fl[0]]).Ok?
    ensures Space(pages[m := FreeListPop(pages[m], pages[fl[0]]).value][fl[0] := p], m, used + multiset{fl[0]}, fl[1..])
  {
    hide FreeChain, Partition, Fitting;
    var n := pages[m].body.pageCount;
    PartitionDistinct(pages.Keys, m, n, used, fl);
    FreeListAcyclic(fl);
    FreeChainHead(pages, fl);
    var pages' := pages[m := FreeListPop(pages[m], pages[fl[0]]).value][fl[0] := p];
    FittingKept(pages[m], FreeListPop(pages[m], pages[fl[0]]).value);
    FreeChainTail(pages, pages', fl);
    PartitionMove(pages.Keys, m, n, used, fl);
    assert pages'.Keys == pages.Keys;
  }

  lemma {:induction false} PartitionMove(keys: set<PageId>, m: PageId, n: nat, used: multiset<PageId>, fl: seq<PageId>)
    requires Partition(keys, m, n, used, fl) && fl != []
    ensures Partition(keys, m, n, used + multiset{fl[0]}, fl[1..])
  {
    hide AllIds;
    assert fl == [fl[0]] + fl[1..];
    assert used + multiset{fl[0]} + multiset(fl[1..]) == used + multiset(fl);
  }

  /** Raising the page count hands out a page number never used before. */
  lemma {:induction false} BumpSpace(pages: Store, m: PageId, used: multiset<PageId>, fl: seq<PageId>, p: Page)
    requires Space(pages, m, used, fl) && p.id == PageId(m.table, pages[m].body.pageCount)
    ensures BumpPageCount(pages[m]).Ok? && BumpPageCount(pages[m]).value.1 == p.id
    ensures Space(pages[m := BumpPageCount(pages[m]).value.0][p.id := p], m, used + multiset{p.id}, fl)
    ensures p.id !in used && p.id != m && p.id !in pages
  {
    hide Partition, Fitting;
    var n := pages[m].body.pageCount;
    PartitionDistinct(pages.Keys, m, n, used, fl);
    PartitionGrow(pages.Keys, m, n, used, fl);
    var pages' := pages[m := BumpPageCount(pages[m]).value.0][p.id := p];
    FittingKept(pages[m], BumpPageCount(pages[m]).value.0);
    assert pages'.Keys == pages.Keys + {p.id};
  }

  lemma {:induction false} PartitionGrow(keys: set<PageId>, m: PageId, n: nat, used: multiset<PageId>, fl: seq<PageId>)
    requires Partition(keys, m, n, used, fl)
    ensures Partition(keys + {PageId(m.table, n)}, m, n + 1, used + multiset{PageId(m.table, n)}, fl)
    ensures PageId(m.table, n) !in keys
  {
    hide AllIds;
    AllIdsStep(m.table, n);
  }

  /** Pushing a page the tree no longer uses makes it the head of the free list. */
  lemma {:induction false} PushSpace(pages: Store, m: PageId, used: multiset<PageId>, fl: seq<PageId>, id: PageId)
    requires Space(pages, m, used, fl) && id in used && id in pages && pages[id].id == id && pages[id].body.Free?
    ensures id != m && FreeListPush(pages[m], pages[id]).Ok?
    ensures var (meta, freed) := FreeListPush(pages[m], pages[id]).value;
      Space(pages[m := meta][id := freed], m, used - multiset{id}, [id] + fl)
  {
    hide FreeChain, Partition, Fitting;
    var n := pages[m].body.pageCount;
    PartitionDistinct(pages.Keys, m, n, used, fl);
    var (meta, freed) := FreeListPush(pages[m], pages[id]).value;
    var pages' := pages[m := meta][id := freed];
    FittingKept(pages[m], meta);
    FreeChainCons(pages, pages', id, fl);
    PartitionBack(pages.Keys, m, n, used, fl, id);
    assert pages'.Keys == pages.Keys;
  }

  lemma {:induction false} PartitionBack(keys: set<PageId>, m: PageId, n: nat, used: multiset<PageId>, fl: seq<PageId>,
                                         id: PageId)
    requires Partition(keys, m, n, used, fl) && id in used
    ensures Partition(keys, m, n, used - multiset{id}, [id] + fl)
  {
    hide AllIds;
    assert used - multiset{id} + multiset([id] + fl) == used + multiset(fl);
  }
}

/** Every page of a sound table can be written to disk: the budgets that the tree keeps are the ones that
    `check_invariants` and the codec ask for. */
module Storing {
  import opened Common
  import opened Schemas
  import opened Pages
  import opened Trees
  import opened Stores
  import opened Focus
  import opened Accounting
  import opened PageCodec

  lemma {:induction false} LeafEncodable(s: Schema, p: Page, lo: Option<Key>, hi: Option<Key>)
    requires p.body.Leaf? && LeafOk(s, p.body.records, lo, hi) && ValidSchema(s)
    ensures Encodable(p)
  {
    hide LeafBytes, LeafEntrySize, InternalEntrySize, RowKey, HasKey, Sorted;
    var rows := p.body.records;
    forall i | 0 <= i < |rows|
      ensures RowInvariant(rows[i]) && |rows[i].fields| <= MAX_NUM_FIELDS
    {
      assert ValidRow(s, rows[i]);
    }
  }

  lemma {:induction false} NodeEncodable(s: Schema, p: Page, lo: Option<Key>, hi: Option<Key>)
    requires p.body.Internal? && KeysOk(s, p.body.keys, lo, hi) && |p.body.children| == |p.body.keys| + 1
    ensures Encodable(p)
  {
    hide KeyBytes, InternalEntrySize, Sorted;
    forall i | 0 <= i < |p.body.keys|
      ensures InternalEntrySize(p.body.keys[i]) <= MAX_INTERNAL_ENTRY_SIZE
    {
      assert ValidKey(s, p.body.keys[i]);
    }
  }

  lemma {:induction false} TreeEncodable(s: Schema, pages: Store, t: Tree, lo: Option<Key>, hi: Option<Key>, h: nat,
                                         id: PageId)
    requires Wf(s, t, lo, hi, h) && RepT(pages, t) && ValidSchema(s) && id in Ids(t)
    ensures id in pages && Encodable(pages[id])
    decreases t, 1, 0
  {
    hide LeafOk, KeysOk, ValidSchema, Encodable;
    if id == t.id {
      if t.LeafT? {
        LeafEncodable(s, pages[t.id], lo, hi);
      } else {
        NodeEncodable(s, pages[t.id], lo, hi);
      }
    } else {
      assert t.kids[0..] == t.kids;
      KidsEncodable(s, pages, t, lo, hi, h, id, 0);
    }
  }

  lemma {:induction false} KidsEncodable(s: Schema, pages: Store, t: Tree, lo: Option<Key>, hi: Option<Key>, h: nat,
                                         id: PageId, i: nat)
    requires t.NodeT? && Wf(s, t, lo, hi, h) && RepT(pages, t) && ValidSchema(s) && i <= |t.kids|
    requires id in IdsOf(t.kids[i..])
    ensures id in pages && Encodable(pages[id])
    decreases t, 0, |t.kids| - i
  {
    hide LeafOk, KeysOk, ValidSchema, Encodable;
    var rest := t.kids[i..];
    assert i < |t.kids| && rest[0] == t.kids[i] && rest[1..] == t.kids[i + 1..];
    if id in Ids(t.kids[i]) {
      TreeEncodable(s, pages, t.kids[i], KidLo(t.keys, i, lo), KidHi(t.keys, i, hi), h - 1, id);
    } else {
      KidsEncodable(s, pages, t, lo, hi, h, id, i + 1);
    }
  }

  /** The page of the root of a well-formed tree can be written. */
  lemma {:induction false} RootEncodable(s: Schema, pages: Store, t: Tree, lo: Option<Key>, hi: Option<Key>, h: nat)
    requires Wf(s, t, lo, hi, h) && RepT(pages, t) && ValidSchema(s)
    ensures t.id in pages && Encodable(pages[t.id])
  {
    hide LeafOk, KeysOk, ValidSchema, Encodable;
    if t.LeafT? {
      LeafEncodable(s, pages[t.id], lo, hi);
    } else {
      NodeEncodable(s, pages[t.id], lo, hi);
    }
  }

  /** So can the page in focus and the one above it. */
  lemma {:induction false} ShapeEncodable(s: Schema, pages: Store, c: Ctx, t: Tree, h: nat)
    requires Shape(s, pages, c, t, h) && ValidSchema(s)
    ensures t.id in pages && Encodable(pages[t.id])
    ensures c.Down? ==> c.id in pages && Encodable(pages[c.id])
  {
    hide Wf, RepT, RepAll, Chain, KeysOk, SidesOk, ValidSchema, Encodable, AllLeaves, RootIds;
    RootEncodable(s, pages, t, Lo(c), Hi(c), h);
    if c.Down? {
      NodeEncodable(s, pages[c.id], Lo(c.up), Hi(c.up));
    }
  }

  /** Linking a leaf to another neighbour does not change what it weighs. */
  lemma {:induction false} RelinkEncodable(p: Page, prev: Option<PageId>)
    requires p.body.Leaf? && Encodable(p)
    ensures Encodable(p.(body := p.body.(prev := prev)))
  {
    hide LeafBytes, RowInvariant, Sorted, RowsShort;
  }

  lemma {:induction false} SchemaIsValid(s: Schema, pages: Store, m: PageId, used: multiset<PageId>, fl: seq<PageId>,
                                         root: PageId)
    requires Space(pages, m, used, fl) && MetaNames(pages, m, root, s)
    ensures ValidSchema(s)
  {
    hide ValidSchema, Partition, FreeChain;
  }

  /** Any page of a table can be written, wherever the focus is. */
  lemma {:induction false} FocusEncodable(s: Schema, pages: Store, m: PageId, c: Ctx, t: Tree, h: nat, fl: seq<PageId>,
                                          id: PageId)
    requires Sound(s, pages, m, c, t, h, fl) && id in pages
    ensures Encodable(pages[id]) && ValidSchema(s)
  {
    hide Sound, Encodable, ValidSchema;
    FocusTop(s, pages, m, c, t, h, fl);
    TableEncodable(s, pages, m, Plug(c, t), h + Depth(c), fl, id);
    SoundSchema(s, pages, m, c, t, h, fl);
  }

  lemma {:induction false} AllEncodable(s: Schema, pages: Store, m: PageId, c: Ctx, t: Tree, h: nat, fl: seq<PageId>)
    requires Sound(s, pages, m, c, t, h, fl)
    ensures forall id :: id in pages ==> Encodable(pages[id])
  {
    hide Sound, Encodable;
    forall id | id in pages
      ensures Encodable(pages[id])
    {
      FocusEncodable(s, pages, m, c, t, h, fl, id);
    }
  }

  lemma {:induction false} SoundSchema(s: Schema, pages: Store, m: PageId, c: Ctx, t: Tree, h: nat, fl: seq<PageId>)
    requires Sound(s, pages, m, c, t, h, fl)
    ensures ValidSchema(s)
  {
    hide Shape, Space, ValidSchema;
    SchemaIsValid(s, pages, m, CtxIds(c) + Ids(t), fl, RootOf(c, t.id));
  }

  /** Writing back a page of a sound table never fails. */
  lemma {:induction false} TableEncodable(s: Schema, pages: Store, m: PageId, t: Tree, h: nat, fl: seq<PageId>,
                                          id: PageId)
    requires Sound(s, pages, m, Top, t, h, fl) && id in pages
    ensures Encodable(pages[id])
  {
    hide Wf, RepT, Chain, Ids, ValidSchema, AllIds, Encodable;
    assert Ids(t) + multiset(fl) == AllIds(m.table, pages[m].body.pageCount) by {
      assert CtxIds(Top) + Ids(t) == Ids(t);
    }
    if id == m {
      MetaEncodable(pages, m, CtxIds(Top) + Ids(t), fl, pages[m]);
    } else if id in Ids(t) {
      TreeEncodable(s, pages, t, None, None, h, id);
    } else {
      assert id in multiset(fl);
      var i :| 0 <= i < |fl| && fl[i] == id;
      FreeEncodable(id, pages[id].body.nextFree);
      SameBody(pages[id], Page(id, 0, pages[id].body));
    }
  }

  lemma {:induction false} SameBody(p: Page, q: Page)
    requires p.body == q.body
    ensures Encodable(p) <==> Encodable(q)
  {
  }

  lemma {:induction false} FreeEncodable(id: PageId, next: Option<PageId>)
    ensures Encodable(Page(id, 0, Free(next)))
  {
  }

  /** Another meta page over the same accounting: same schema, same name, no new head of the free list. */
  lemma {:induction false} MetaEncodable(pages: Store, m: PageId, used: multiset<PageId>, fl: seq<PageId>, meta: Page)
    requires Space(pages, m, used, fl) && meta.body.Meta?
    requires meta.body.schema == pages[m].body.schema && meta.body.name == pages[m].body.name
    requires meta.body.freeHead == pages[m].body.freeHead && meta.body.pageCount >= pages[m].body.pageCount
    ensures Encodable(meta)
  {
    hide ValidSchema, AllIds, FreeChain, SchemaSize;
    HeadInRange(pages, m, used, fl);
  }

  /** The meta page after a page was taken from the free list. */
  lemma {:induction false} PoppedEncodable(pages: Store, m: PageId, used: multiset<PageId>, fl: seq<PageId>, meta: Page)
    requires Space(pages, m, used, fl) && fl != [] && meta.body.Meta?
    requires meta.body.schema == pages[m].body.schema && meta.body.name == pages[m].body.name
    requires meta.body.freeHead == pages[fl[0]].body.nextFree && meta.body.pageCount == pages[m].body.pageCount
    ensures Encodable(meta)
  {
    hide ValidSchema, AllIds, SchemaSize;
    if |fl| > 1 {
      assert fl[1] in multiset(fl);
      InRange(m.table, pages[m].body.pageCount, used, fl, fl[1]);
    }
    assert pages[fl[0]].body == Free(Stores.Head(fl[1..]));
  }

  /** The meta page and the page itself after it was put on the free list. */
  lemma {:induction false} PushedEncodable(pages: Store, m: PageId, used: multiset<PageId>, fl: seq<PageId>, id: PageId)
    requires Space(pages, m, used, fl) && id in used && id in pages && pages[id].id == id && pages[id].body.Free?
    requires FreeListPush(pages[m], pages[id]).Ok?
    ensures var (meta, freed) := FreeListPush(pages[m], pages[id]).value; Encodable(meta) && Encodable(freed)
  {
    hide ValidSchema, AllIds, SchemaSize, FreeChain;
  }

  lemma {:induction false} InRange(table: nat, n: nat, used: multiset<PageId>, fl: seq<PageId>, id: PageId)
    requires used + multiset(fl) == AllIds(table, n) && id in fl
    ensures id.num < n
  {
    assert id in multiset(fl);
    assert id in AllIds(table, n);
  }

  /** The head of the free list is a page number below the page count. */
  lemma {:induction false} HeadInRange(pages: Store, m: PageId, used: multiset<PageId>, fl: seq<PageId>)
    requires m in pages && pages[m].body.Meta? && pages[m].body.freeHead == Stores.Head(fl)
    requires used + multiset(fl) == AllIds(m.table, pages[m].body.pageCount)
    ensures pages[m].body.freeHead.Some? ==> pages[m].body.freeHead.value.num < pages[m].body.pageCount
  {
    hide AllIds;
    if fl != [] {
      InRange(m.table, pages[m].body.pageCount, used, fl, fl[0]);
    }
  }
}

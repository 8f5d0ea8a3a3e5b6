/** A table over its page store: `src/table/mod.rs`. `pages` is what the buffer pool shows its
    clients; `held` is the set of pages whose write latch is taken; `log` is the list of requests made to the pool
    since `pages` was `origin`. A latch is not reentrant, so `FetchWrite` demands that the page is not held
    already. */
module Tables {
  import opened Common
  import opened Schemas
  import opened Pages
  import opened Trees
  import opened Stores
  import opened Focus
  import opened Contents
  import opened StoredRows
  import opened Accounting
  import opened PageCodec
  import opened Steps
  import opened Storing

  class Table {
    const m: PageId
    const schema: Schema
    var pages: Store
    var held: set<PageId>
    var log: seq<Step>

    ghost var origin: Store
    ghost var tree: Tree
    ghost var height: nat
    ghost var free: seq<PageId>

    /** The log tells how `pages` and `held` came about: every request was possible, and every page written can be
        stored. None of them changed what the table is called. */
    ghost predicate Logged()
      reads this`pages, this`held, this`log, this`origin
    {
      Replay(State(origin, {}), log) == Some(State(pages, held)) && KeepsName(origin, pages, m)
    }

    /** The invariant between operations: no latch held, and a sound tree with exact accounting. */
    ghost predicate Valid()
      reads this
    {
      held == {} && Sound(schema, pages, m, Top, tree, height, free) && Logged()
    }

    /** The sorted map the table stands for. */
    ghost function Contents(): map<Key, Row>
      reads this
    {
      ContentsOf(Top, tree)
    }

    /** `Table::create`: a meta page and an empty leaf as root. */
    constructor Create(tableId: nat, schema: Schema, name: seq<Byte>)
      requires Fitting(FirstMeta(tableId, schema, name))
      ensures Valid() && Contents() == map[] && Keyed(tree)
      ensures this.schema == schema && m == PageId(tableId, 0)
      ensures pages == NewPages(tableId, schema, name)
    {
      var root := PageId(tableId, 1);
      m := PageId(tableId, 0);
      this.schema := schema;
      pages := map[
        root := Page(root, 0, Leaf([], None, None)),
        PageId(tableId, 0) := FirstMeta(tableId, schema, name)
      ];
      held, log := {}, [];
      tree := LeafT(root, []);
      height := 0;
      free := [];
      new;
      origin := pages;
      EmptyTable(schema, pages, m, root);
    }

    /** The log begins anew. */
    method Mark()
      requires held == {} && m in pages && pages[m].body.Meta?
      modifies this`log, this`origin
      ensures Logged() && log == [] && origin == pages
    {
      log := [];
      origin := pages;
    }

    method FetchWrite(id: PageId) returns (p: Page)
      requires id in pages && id !in held && Logged()
      modifies this`held, this`log
      ensures held == old(held) + {id} && Logged()
      ensures p == pages[id]
    {
      ReplayMore(State(origin, {}), log, Latch(id));
      log := log + [Latch(id)];
      held := held + {id};
      p := pages[id];
    }

    /** Writing through a guard. */
    method Put(id: PageId, p: Page)
      requires id in pages && id in held && p.id == id && Encodable(p) && Logged()
      requires (p.lsn == pages[id].lsn || p.lsn == 0) && (pages[id].body.Meta? ==> SameName(pages[id], p))
      modifies this`pages, this`log
      ensures pages == old(pages)[id := p] && Logged()
    {
      ReplayMore(State(origin, {}), log, Write(p));
      log := log + [Write(p)];
      pages := pages[id := p];
    }

    /** Dropping a guard. */
    method Release(id: PageId)
      requires id in held && Logged()
      modifies this`held, this`log
      ensures held == old(held) - {id} && Logged()
    {
      ReplayMore(State(origin, {}), log, Unlatch([id]));
      log := log + [Unlatch([id])];
      assert (set x | x in [id]) == {id};
      held := held - {id};
    }

    /** Dropping all remaining guards, as happens when an operation returns. */
    method ReleaseAll()
      requires Logged()
      modifies this`held, this`log
      ensures held == {} && Logged()
    {
      ReplayMore(State(origin, {}), log, UnlatchAll);
      log := log + [UnlatchAll];
      held := {};
    }

    /** `ancestors.clear()`: drops the guards of a stack of pages. */
    method ReleaseStack(ids: seq<PageId>)
      requires Logged()
      modifies this`held, this`log
      ensures held == old(held) - (set x | x in ids) && Logged()
    {
      ReplayMore(State(origin, {}), log, Unlatch(ids));
      log := log + [Unlatch(ids)];
      held := held - (set x | x in ids);
    }

    /** `new_page`: a page the store has not seen yet, latched. */
    method NewPage(p: Page)
      requires p.id !in pages && p.id !in held && Encodable(p) && p.lsn == 0 && Logged()
      modifies this`pages, this`held, this`log
      ensures pages == old(pages)[p.id := p]
      ensures held == old(held) + {p.id} && Logged()
    {
      ReplayMore(State(origin, {}), log, Make(p));
      log := log + [Make(p)];
      pages := pages[p.id := p];
      held := held + {p.id};
    }

    /** Takes a page from the free list, or a fresh page number when the list is empty. The page is
        new to the tree, and every other page but the meta page is left alone. */
    method Allocate(ghost used: multiset<PageId>) returns (id: PageId)
      requires Space(pages, m, used, free) && Logged()
      requires forall x :: x in held ==> x in used
      modifies this`pages, this`held, this`free, this`log
      ensures Space(pages, m, used + multiset{id}, free) && Logged()
      ensures id !in used && id != m && held == old(held) + {id}
      ensures pages.Keys == old(pages.Keys) + {id}
      ensures pages[id] == Page(id, 0, Free(None))
      ensures forall x :: x in old(pages) && x != id && x != m ==> pages[x] == old(pages)[x]
      ensures pages[m].body.root == old(pages)[m].body.root && pages[m].body.schema == old(pages)[m].body.schema
      ensures KeepsName(old(pages), pages, m) && Taken(old(pages), pages, m, id)
    {
      hide Partition, FreeChain, Fitting, Encodable, Replay, SameName;
      SpaceDistinct(pages, m, used, free);
      var meta := FetchWrite(m);
      match meta.body.freeHead {
        case Some(head) =>
          TakeFree(meta, head, used);
          id := head;
        case None =>
          id := TakeNew(meta, used);
      }
      Release(m);
    }

    /** The head of the free list, emptied and latched. */
    method TakeFree(meta: Page, head: PageId, ghost used: multiset<PageId>)
      requires Space(pages, m, used, free) && Logged() && meta == pages[m] && meta.body.freeHead == Some(head)
      requires m in held && forall x :: x in held && x != m ==> x in used
      modifies this`pages, this`held, this`free, this`log
      ensures Space(pages, m, used + multiset{head}, free) && Logged()
      ensures head !in used && head != m && head in old(pages) && held == old(held) + {head}
      ensures m in old(pages) && old(pages)[m].body.Meta?
      ensures pages == old(pages)[m := pages[m]][head := Page(head, 0, Free(None))]
      ensures pages[m].body.Meta? && pages[m].body.pageCount == old(pages)[m].body.pageCount
      ensures old(pages)[head].body.Free? && pages[m].body.freeHead == old(pages)[head].body.nextFree
      ensures pages[m].body.root == old(pages)[m].body.root && pages[m].body.schema == old(pages)[m].body.schema
      ensures KeepsName(old(pages), pages, m)
    {
      hide Partition, FreeChain, Fitting, Encodable, Replay;
      PopSpace(pages, m, used, free, Page(head, 0, Free(None)));
      FreeEncodable(head, None);
      var freePage := FetchWrite(head);
      var popped := FreeListPop(meta, freePage);
      PoppedEncodable(pages, m, used, free, popped.value);
      Put(m, popped.value);
      Put(head, Page(head, 0, Free(None)));
      free := free[1..];
    }

    /** A page number never used before, with a page of its own, latched. */
    method TakeNew(meta: Page, ghost used: multiset<PageId>) returns (id: PageId)
      requires Space(pages, m, used, free) && Logged() && meta == pages[m]
      requires m in held && forall x :: x in held && x != m ==> x in used
      modifies this`pages, this`held, this`log
      ensures Space(pages, m, used + multiset{id}, free) && Logged()
      ensures id !in used && id != m && id !in old(pages) && held == old(held) + {id}
      ensures m in old(pages) && old(pages)[m].body.Meta?
      ensures pages == old(pages)[m := pages[m]][id := Page(id, 0, Free(None))]
      ensures pages[m].body.Meta? && pages[m].body.pageCount == old(pages)[m].body.pageCount + 1
      ensures id == PageId(m.table, old(pages)[m].body.pageCount)
      ensures pages[m].body.freeHead == old(pages)[m].body.freeHead
      ensures pages[m].body.root == old(pages)[m].body.root && pages[m].body.schema == old(pages)[m].body.schema
      ensures KeepsName(old(pages), pages, m)
    {
      hide Partition, FreeChain, Fitting, Encodable, Replay;
      BumpSpace(pages, m, used, free, Page(PageId(m.table, meta.body.pageCount), 0, Free(None)));
      var bumped := BumpPageCount(meta);
      MetaEncodable(pages, m, used, free, bumped.value.0);
      id := bumped.value.1;
      FreeEncodable(id, None);
      Put(m, bumped.value.0);
      NewPage(Page(id, 0, Free(None)));
    }

    /** Puts an emptied page the tree no longer uses on the free list, dropping its latch. */
    method FreePage(id: PageId, ghost used: multiset<PageId>)
      requires Space(pages, m, used, free) && Logged()
      requires id in held && (forall x :: x in held ==> x in used)
      requires id in pages && pages[id].id == id && pages[id].body.Free?
      modifies this`pages, this`held, this`free, this`log
      ensures Space(pages, m, used - multiset{id}, free) && Logged()
      ensures held == old(held) - {id}
      ensures pages.Keys == old(pages.Keys)
      ensures forall x :: x in old(pages) && x != id && x != m ==> pages[x] == old(pages)[x]
      ensures pages[m].body.root == old(pages)[m].body.root && pages[m].body.schema == old(pages)[m].body.schema
      ensures KeepsName(old(pages), pages, m)
      ensures pages[m].body.freeHead == Some(id) && pages[id].body == Free(old(pages)[m].body.freeHead)
      ensures pages[m].body.pageCount == old(pages)[m].body.pageCount
    {
      hide Partition, FreeChain, Fitting, Encodable, Replay;
      SpaceDistinct(pages, m, used, free);
      PushSpace(pages, m, used, free, id);
      var meta := FetchWrite(m);
      var pushed := FreeListPush(meta, pages[id]);
      PushedEncodable(pages, m, used, free, id);
      Put(m, pushed.value.0);
      Put(id, pushed.value.1);
      free := [id] + free;
      Release(m);
      Release(id);
    }

    method RootId() returns (id: PageId)
      requires m in pages && pages[m].body.Meta? && m !in held
      ensures id == pages[m].body.root
    {
      id := pages[m].body.root;
    }

    /** Reads the root from the meta page, under a read guard that is dropped at once. */
    method LookUpRoot() returns (id: PageId)
      requires m in pages && pages[m].body.Meta? && m !in held && Logged()
      modifies this`log
      ensures id == pages[m].body.root && Logged()
    {
      ReplayMore(State(origin, {}), log, Look(m));
      log := log + [Look(m)];
      id := pages[m].body.root;
    }

    method SetRootId(id: PageId, ghost used: multiset<PageId>)
      requires Space(pages, m, used, free) && m !in held && Logged()
      modifies this`pages, this`held, this`log
      ensures held == old(held) && Logged()
      ensures pages == old(pages)[m := old(pages)[m].(body := old(pages)[m].body.(root := id))]
    {
      hide Partition, FreeChain, Fitting, Encodable, Replay;
      var meta := FetchWrite(m);
      MetaEncodable(pages, m, used, free, meta.(body := meta.body.(root := id)));
      Put(m, meta.(body := meta.body.(root := id)));
      Release(m);
    }
  }

  /** The map of a table is that of the rows in its leaf pages. */
  lemma {:induction false} TableMeans(tb: Table)
    requires tb.Valid()
    ensures MapOf(tb.Contents(), RowsStored(tb.pages))
  {
    hide Sound, MapOf, RowsStored, ContentsOf, Replay;
    ContentsMeans(tb.schema, tb.pages, tb.m, tb.tree, tb.height, tb.free);
  }

  lemma {:induction false} RowsLess(tb: Table, m0: map<Key, Row>, rows0: set<Row>, k: Key)
    requires tb.Valid() && MapOf(m0, rows0) && tb.Contents() == m0 - {k}
    ensures RowsStored(tb.pages) == OtherThan(rows0, k)
  {
    hide Sound, MapOf, RowsStored, ContentsOf, Replay, OtherThan;
    TableMeans(tb);
    StoredLess(m0, rows0, k, RowsStored(tb.pages));
  }

  /** Two meta pages of the same table: the same id and LSN, the same schema and name. */
  ghost predicate SameName(p: Page, q: Page) {
    && p.body.Meta? && q.body.Meta? && p.id == q.id && p.lsn == q.lsn
    && p.body.schema == q.body.schema && p.body.name == q.body.name
  }

  ghost predicate KeepsName(before: Store, after: Store, m: PageId) {
    m in before && m in after && SameName(before[m], after[m])
  }

  /** Where a page comes from: the head of the free list, which then begins with the page behind it, or if the list is
      empty the next page number. */
  ghost predicate Taken(before: Store, after: Store, m: PageId, id: PageId) {
    && m in before && m in after && before[m].body.Meta? && after[m].body.Meta?
    && match before[m].body.freeHead
       case Some(head) =>
         && id == head && id in before && before[id].body.Free? && after[m].body.freeHead == before[id].body.nextFree
         && after[m].body.pageCount == before[m].body.pageCount
       case None =>
         && id == PageId(m.table, before[m].body.pageCount) && id !in before
         && after[m].body.freeHead == None && after[m].body.pageCount == before[m].body.pageCount + 1
  }

  /** The pages of a new table: its meta page, and an empty leaf without neighbours as root. */
  ghost function NewPages(tableId: nat, schema: Schema, name: seq<Byte>): Store {
    map[PageId(tableId, 0) := Page(PageId(tableId, 0), 0, Meta(PageId(tableId, 1), 2, None, schema, name)),
        PageId(tableId, 1) := Page(PageId(tableId, 1), 0, Leaf([], None, None))]
  }

  /** The meta page of a new table. */
  function FirstMeta(tableId: nat, schema: Schema, name: seq<Byte>): Page {
    Page(PageId(tableId, 0), 0, Meta(PageId(tableId, 1), 2, None, schema, name))
  }

  /** `Table::create` with its error: the flush at its end fails exactly when the meta page cannot be written. */
  method CreateTable(tableId: nat, schema: Schema, name: seq<Byte>) returns (tb: Table?)
    requires ValidSchema(schema)
    ensures tb != null <==> Encodable(FirstMeta(tableId, schema, name))
    ensures tb != null ==> fresh(tb) && tb.Valid() && tb.Contents() == map[] && Keyed(tb.tree) && tb.schema == schema
    ensures tb != null ==> tb.m == PageId(tableId, 0) && tb.pages == NewPages(tableId, schema, name)
  {
    hide Sound, Keyed, ContentsOf, ValidSchema;
    var meta := FirstMeta(tableId, schema, name);
    if FreeSpace(meta).None? || |name| > 65535 {
      return null;
    }
    tb := new Table.Create(tableId, schema, name);
  }

  lemma {:induction false} EmptyTable(s: Schema, pages: Store, m: PageId, root: PageId)
    requires m == PageId(m.table, 0) && root == PageId(m.table, 1) && pages.Keys == {m, root}
    requires pages[root] == Page(root, 0, Leaf([], None, None))
    requires pages[m].id == m && pages[m].body.Meta? && pages[m].body.root == root && pages[m].body.pageCount == 2
    requires pages[m].body.freeHead == None && pages[m].body.schema == s && Fitting(pages[m])
    ensures Sound(s, pages, m, Top, LeafT(root, []), 0, [])
    ensures ContentsOf(Top, LeafT(root, [])) == map[]
  {
    hide AllIds, Fitting, Space, RowsOf, ToMap;
    var t := LeafT(root, []);
    assert AllLeaves(Top, t) == [t];
    EmptySpace(pages, m, root);
    NoContents(root);
    assert CtxIds(Top) + Ids(t) == multiset{root};
  }

  lemma {:induction false} NoContents(root: PageId)
    ensures ContentsOf(Top, LeafT(root, [])) == map[]
  {
    LeafRows(LeafT(root, []));
    RowsAround(Top, LeafT(root, []));
  }

  /** The two page numbers of a new table are accounted for. */
  lemma {:induction false} EmptySpace(pages: Store, m: PageId, root: PageId)
    requires m == PageId(m.table, 0) && root == PageId(m.table, 1) && pages.Keys == {m, root}
    requires pages[m].id == m && pages[m].body.Meta? && pages[m].body.root == root && pages[m].body.pageCount == 2
    requires pages[m].body.freeHead == None && Fitting(pages[m])
    ensures Space(pages, m, multiset{root}, [])
  {
    hide AllIds, Fitting;
    OneId(m.table);
    assert multiset{root} + multiset([]) == multiset{root};
  }

  lemma {:induction false} OneId(table: nat)
    ensures AllIds(table, 2) == multiset{PageId(table, 1)}
  {
    assert (set i: nat | 1 <= i < 2 :: PageId(table, i)) == {PageId(table, 1)};
  }
}

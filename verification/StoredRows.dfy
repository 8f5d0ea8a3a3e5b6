/** The rows of a table as they lie in its leaf pages, each under the value of its first field. */
module StoredRows {
  import opened Common
  import opened Schemas
  import opened Pages
  import opened Trees
  import opened Stores
  import opened Focus
  import opened Contents

  /** All rows of all leaf pages. */
  ghost function RowsStored(pages: Store): set<Row> {
    set id, r | id in pages && pages[id].body.Leaf? && r in pages[id].body.records :: r
  }

  /** A leaf page of the tree has no rows but those of the tree. */
  lemma {:induction false} LeafInTree(pages: Store, t: Tree, id: PageId, r: Row)
    requires RepT(pages, t) && id in Ids(t) && id in pages && pages[id].body.Leaf? && r in pages[id].body.records
    ensures r in Rows(t)
    decreases t, 1
  {
    if t.LeafT? {
      LeafRows(t);
    } else {
      LeafInTrees(pages, t.kids, id, r);
    }
  }

  lemma {:induction false} LeafInTrees(pages: Store, ts: seq<Tree>, id: PageId, r: Row)
    requires RepAll(pages, ts) && id in IdsOf(ts) && id in pages && pages[id].body.Leaf?
    requires r in pages[id].body.records
    ensures r in RowsOf(LeavesOf(ts))
    decreases ts, 0
  {
    RowsOfAppend(Leaves(ts[0]), LeavesOf(ts[1..]));
    if id in Ids(ts[0]) {
      LeafInTree(pages, ts[0], id, r);
    } else {
      LeafInTrees(pages, ts[1..], id, r);
    }
  }

  /** Every row of the tree is in one of its leaf pages. */
  lemma {:induction false} PageOfRow(pages: Store, t: Tree, r: Row) returns (id: PageId)
    requires RepT(pages, t) && r in Rows(t)
    ensures id in pages && pages[id].body.Leaf? && r in pages[id].body.records
    decreases t
  {
    if t.LeafT? {
      LeafRows(t);
      id := t.id;
    } else {
      var i := RowBelow(t.kids, r);
      id := PageOfRow(pages, t.kids[i], r);
    }
  }

  /** A leaf page is a page of the tree. */
  lemma {:induction false} LeafIsUsed(pages: Store, m: PageId, used: multiset<PageId>, fl: seq<PageId>, id: PageId)
    requires Space(pages, m, used, fl) && id in pages && pages[id].body.Leaf?
    ensures id in used
  {
    hide AllIds, Fitting;
    assert id in used + multiset(fl);
    assert id !in fl;
  }

  /** The rows in the leaf pages are the rows of the tree. */
  lemma {:induction false} StoredAreRows(s: Schema, pages: Store, m: PageId, t: Tree, h: nat, fl: seq<PageId>)
    requires Sound(s, pages, m, Top, t, h, fl)
    ensures forall r :: r in RowsStored(pages) <==> r in RowsOf(AllLeaves(Top, t))
  {
    hide Wf, RepT, Chain, Space, Leaves, RowsOf, Ids;
    assert CtxIds(Top) + Ids(t) == Ids(t) && AllLeaves(Top, t) == Leaves(t);
    forall r
      ensures r in RowsStored(pages) <==> r in Rows(t)
    {
      if r in RowsStored(pages) {
        var id :| id in pages && pages[id].body.Leaf? && r in pages[id].body.records;
        LeafIsUsed(pages, m, Ids(t), fl, id);
        LeafInTree(pages, t, id, r);
      }
      if r in Rows(t) {
        var id := PageOfRow(pages, t, r);
      }
    }
  }

  /** The rows `m` holds, each under the value of its first field. */
  ghost predicate MapOf(m: map<Key, Row>, rows: set<Row>) {
    && (forall r :: r in rows ==> RowKey(r) in m && m[RowKey(r)] == r)
    && (forall k :: k in m ==> m[k] in rows && KeyedBy(m[k], k))
  }

  /** What the map of a table is: the rows in its leaf pages, each under the value of its first field. */
  lemma {:induction false} ContentsMeans(s: Schema, pages: Store, m: PageId, t: Tree, h: nat, fl: seq<PageId>)
    requires Sound(s, pages, m, Top, t, h, fl)
    ensures MapOf(ContentsOf(Top, t), RowsStored(pages))
  {
    hide Wf, RepT, Chain, Space, RowsOf, AllLeaves, RowsStored, ToMap, SortedRows, ValidRow, RowKey, KeyedBy;
    var rows := RowsOf(AllLeaves(Top, t));
    StoredAreRows(s, pages, m, t, h, fl);
    FocusSorted(s, Top, t, h);
    TopRowsValid(s, t, h);
    forall r | r in RowsStored(pages)
      ensures RowKey(r) in ToMap(rows) && ToMap(rows)[RowKey(r)] == r
    {
      var i :| 0 <= i < |rows| && rows[i] == r;
      ToMapAt(rows, i);
    }
    forall k | k in ToMap(rows)
      ensures ToMap(rows)[k] in RowsStored(pages) && KeyedBy(ToMap(rows)[k], k)
    {
      var i := ToMapFrom(rows, k);
      ToMapAt(rows, i);
      ValidHasKey(s, rows[i]);
      KeyOfRow(rows[i]);
    }
  }

  lemma {:induction false} ValidHasKey(s: Schema, r: Row)
    requires ValidRow(s, r)
    ensures HasKey(r)
  {
  }

  lemma {:induction false} TopRowsValid(s: Schema, t: Tree, h: nat)
    requires Wf(s, t, None, None, h)
    ensures forall r :: r in RowsOf(AllLeaves(Top, t)) ==> ValidRow(s, r)
  {
    hide Wf, Leaves, RowsOf, ValidRow;
    RowsValid(s, t, None, None, h);
    assert AllLeaves(Top, t) == Leaves(t);
  }

  // ------------------------------------------------- the operations, by first fields

  /** Some row has this first field. */
  ghost predicate FieldTaken(rows: set<Row>, v: RowValue) {
    exists r :: r in rows && r.fields != [] && r.fields[0] == v
  }

  /** A key is in the map exactly if a row has its value as first field. */
  lemma {:induction false} TakenIsIn(m: map<Key, Row>, rows: set<Row>, row: Row)
    requires MapOf(m, rows) && HasKey(row)
    ensures RowKey(row) in m <==> FieldTaken(rows, row.fields[0])
  {
    hide RowKey;
    KeyOfRow(row);
    forall r | r in rows
      ensures KeyedBy(r, RowKey(r))
    {
    }
    if FieldTaken(rows, row.fields[0]) {
      var r :| r in rows && r.fields != [] && r.fields[0] == row.fields[0];
      assert KeyedBy(r, RowKey(row));
      KeyOfRow(r);
    }
  }

  lemma {:induction false} MapHas(m: map<Key, Row>, rows: set<Row>)
    requires MapOf(m, rows)
    ensures forall r :: r in rows <==> RowKey(r) in m && m[RowKey(r)] == r
  {
    hide RowKey, KeyedBy;
  }

  lemma {:induction false} SameRows(m: map<Key, Row>, rows: set<Row>, rows': set<Row>)
    requires MapOf(m, rows) && MapOf(m, rows')
    ensures rows == rows'
  {
    hide RowKey, KeyedBy;
  }

  /** One more entry of the map is one more row. */
  lemma {:induction false} StoredMore(m: map<Key, Row>, rows: set<Row>, row: Row, rows': set<Row>)
    requires MapOf(m, rows) && RowKey(row) !in m && MapOf(m[RowKey(row) := row], rows')
    ensures rows' == rows + {row}
  {
    hide RowKey, KeyedBy;
    var m' := m[RowKey(row) := row];
    assert m'[RowKey(row)] == row;
    forall r
      ensures r in rows' <==> r in rows || r == row
    {
      if r in rows {
        assert m'[RowKey(r)] == r;
      }
      if r in rows' && r != row {
        assert m[RowKey(r)] == r;
      }
    }
  }

  ghost function OtherThan(rows: set<Row>, k: Key): set<Row> {
    set r | r in rows && !KeyedBy(r, k)
  }

  /** One entry fewer is the row under the key gone. */
  lemma {:induction false} StoredLess(m: map<Key, Row>, rows: set<Row>, k: Key, rows': set<Row>)
    requires MapOf(m, rows) && MapOf(m - {k}, rows')
    ensures rows' == OtherThan(rows, k)
  {
    hide RowKey, KeyedBy;
    var m' := m - {k};
    forall r
      ensures r in rows' <==> r in rows && !KeyedBy(r, k)
    {
      if r in rows {
        KeyedUnder(m, rows, r, k);
        if !KeyedBy(r, k) {
          assert m'[RowKey(r)] == r;
        }
      }
      if r in rows' {
        assert m[RowKey(r)] == r;
        KeyedUnder(m, rows, r, k);
      }
    }
  }

  lemma {:induction false} KeyedUnder(m: map<Key, Row>, rows: set<Row>, r: Row, k: Key)
    requires MapOf(m, rows) && r in rows
    ensures KeyedBy(r, k) <==> RowKey(r) == k
  {
    hide RowKey;
    assert KeyedBy(m[RowKey(r)], RowKey(r));
  }

  /** What a lookup answers. */
  ghost predicate FoundIn(rows: set<Row>, k: Key, res: Option<Row>) {
    match res
    case Some(r) => r in rows && KeyedBy(r, k)
    case None => forall r :: r in rows ==> !KeyedBy(r, k)
  }

  lemma {:induction false} LookupFinds(m: map<Key, Row>, rows: set<Row>, k: Key)
    requires MapOf(m, rows)
    ensures FoundIn(rows, k, if k in m then Some(m[k]) else None)
  {
  }
}

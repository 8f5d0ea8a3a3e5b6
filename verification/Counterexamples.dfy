/** Inputs on which the code does not do what one might expect. Each is outside the condition that the
    corresponding theorem names. */
module Counterexamples {
  import opened Common
  import opened Schemas
  import opened Bytes
  import opened Pages
  import opened Balancing
  import opened Trees
  import opened Stores
  import opened Focus
  import opened Joining
  import opened Recutting
  import opened Deleting
  import opened DeleteMethods
  import opened Packing
  import opened Vacuuming
  import opened Tables
  import opened Finding
  import opened Lookups
  import opened InsertMethods
  import opened Contents
  import opened PageCodec
  import Steps
  import Misrouting
  import Pools
  import BufferPools
  import PoolRuns

  // --------------------------------------------------------------------- keys and rows

  function Zeros(n: nat): (s: seq<Byte>)
    ensures |s| == n
  {
    seq(n, _ => 0)
  }

  /** A string key of `n` + 1 bytes that begins with `b`. */
  function StrOf(b: Byte, n: nat): (k: Key)
    ensures k.StrKey? && |k.s| == n + 1 && k.s[0] == b
  {
    StrKey([b] + Zeros(n))
  }

  function RowOf(b: Byte, n: nat): Row {
    Row([StrV([b] + Zeros(n))])
  }

  function Strings(): Schema {
    Schema([Column([97], StringCol, false)])
  }

  lemma {:induction false} StrOrder(b: Byte, n: nat, b': Byte, n': nat)
    requires b < b'
    ensures KeyLess(StrOf(b, n), StrOf(b', n'))
  {
  }

  lemma {:induction false} RowOfFacts(b: Byte, n: nat)
    requires n <= 1000
    ensures RowKey(RowOf(b, n)) == StrOf(b, n) && ValidRow(Strings(), RowOf(b, n)) && ValidKey(Strings(), StrOf(b, n))
    ensures LeafEntrySize(RowOf(b, n)) == n + (if n < 127 then 8 else 9)
    ensures InternalEntrySize(StrOf(b, n)) == n + (if n < 127 then 15 else 16)
  {
    var fs := RowOf(b, n).fields;
    assert fs[1..] == [];
    assert FieldsSize(fs) == ValueSize(fs[0]) + FieldsSize([]);
  }

  // ------------------------------------------------------------------- tables from rows

  /** A table made by inserting these rows one by one. */
  method Inserted(rows: seq<Row>) returns (tb: Table)
    requires SortedRows(rows) && forall i :: 0 <= i < |rows| ==> ValidRow(Strings(), rows[i])
    ensures fresh(tb) && tb.Valid() && tb.Contents() == ToMap(rows) && tb.schema == Strings()
    ensures tb.m == PageId(0, 0)
  {
    hide Sound, RowsOf, AllLeaves, Keyed, ToMap, ValidRow, RowKey, SortedRows, Fitting, Steps.Replay;
    StringsFit();
    tb := new Table.Create(0, Strings(), [97]);
    NoEntries(rows[..0]);
    for i := 0 to |rows|
      invariant tb.Valid() && tb.Contents() == ToMap(rows[..i]) && tb.schema == Strings() && tb.m == PageId(0, 0)
    {
      NextRow(rows, i);
      var _ := Insert(tb, rows[i]);
    }
    assert rows[..|rows|] == rows;
  }

  lemma {:induction false} StringsFit()
    ensures Fitting(FirstMeta(0, Strings(), [97]))
  {
    var cs := Strings().columns;
    assert cs[1..] == [];
    assert ColumnsSize(cs) == 2 + VarintLen(|cs[0].name|) + |cs[0].name| + ColumnsSize([]);
  }

  lemma {:induction false} NextRow(rows: seq<Row>, i: nat)
    requires SortedRows(rows) && i < |rows|
    ensures RowKey(rows[i]) !in ToMap(rows[..i])
    ensures ToMap(rows[..i + 1]) == ToMap(rows[..i])[RowKey(rows[i]) := rows[i]]
  {
    hide RowKey;
    assert rows[..i + 1][..i] == rows[..i] && rows[..i + 1][i] == rows[i];
    if RowKey(rows[i]) in ToMap(rows[..i]) {
      hide ToMap;
      var j := ToMapFrom(rows[..i], RowKey(rows[i]));
      assert false;
    }
  }

  /** The rows of a table are those of its map, in order. */
  lemma {:induction false} RowsAre(tb: Table, rows: seq<Row>)
    requires tb.Valid() && tb.Contents() == ToMap(rows) && SortedRows(rows)
    ensures RowsOf(AllLeaves(Top, tb.tree)) == rows
  {
    hide Wf, RepT, Chain, Space, RowsOf, AllLeaves, ToMap, RowKey, SortedRows;
    FocusSorted(tb.schema, Top, tb.tree, tb.height);
    SortedUnique(RowsOf(AllLeaves(Top, tb.tree)), rows);
  }

  // ----------------------------------------------------------- a bulk load without a key

  function Starts(a: nat, m: nat): seq<nat>
    decreases m
  {
    if m == 0 then [] else [a] + Starts(a + 4, m - 1)
  }

  lemma {:induction false} FourToALeaf(z: seq<nat>, a: nat, m: nat)
    requires (forall j :: 0 <= j < |z| ==> z[j] == 1009) && 1 <= m && a + 4 * (m - 1) < |z| <= a + 4 * m
    ensures Cuts(z, LEAF_USABLE, 0, a, a + 1) == Starts(a, m)
    decreases m
  {
    hide Cuts;
    EvenCuts(z, 1009, LEAF_USABLE, 0, 4, a, a + 1);
    if m > 1 {
      FourToALeaf(z, a + 4, m - 1);
    } else {
      assert Starts(a + 4, 0) == [];
    }
  }

  lemma {:induction false} SixLeaves(rows: seq<Row>)
    requires 21 <= |rows| <= 24 && forall i :: 0 <= i < |rows| ==> LeafEntrySize(rows[i]) == 1009
    ensures LeafCuts(rows) == [0, 4, 8, 12, 16, 20]
  {
    hide Cuts, LeafEntrySize;
    FourToALeaf(RowSizes(rows), 0, 6);
    assert Starts(20, 1) == [20] && Starts(16, 2) == [16, 20] && Starts(12, 3) == [12, 16, 20];
    assert Starts(8, 4) == [8, 12, 16, 20] && Starts(4, 5) == [4, 8, 12, 16, 20];
  }

  /** Six leaves under separators of the greatest size: five children fill a page, and the sixth gets a
      page of its own without a key. */
  lemma {:induction false} LoadCanLeaveNoKey(rows: seq<Row>)
    requires 21 <= |rows| <= 24
    requires forall i :: 0 <= i < |rows| ==>
      LeafEntrySize(rows[i]) == 1009 && InternalEntrySize(RowKey(rows[i])) == 1016
    ensures SmallKeys(RecordKeys(rows)) && !LoadKeyed(rows)
  {
    hide Cuts, LeafEntrySize, InternalEntrySize, RowKey;
    SixLeaves(rows);
    var lows := Pick(RecordKeys(rows), LeafCuts(rows));
    EvenCuts(KeySizes(lows), 1016, INTERNAL_USABLE, 1, 4, 0, 1);
    EvenCuts(KeySizes(lows), 1016, INTERNAL_USABLE, 1, 4, 5, 6);
    assert KeyCuts(lows) == [0, 5];
  }

  function ManyRows(): (rows: seq<Row>)
    ensures |rows| == 21
  {
    seq(21, i requires 0 <= i < 21 => RowOf(i, 1000))
  }

  /** Such tables exist. */
  lemma {:induction false} ManyRowsFit()
    ensures Sorted(RecordKeys(ManyRows())) && (forall i :: 0 <= i < 21 ==> ValidRow(Strings(), ManyRows()[i]))
    ensures SmallKeys(RecordKeys(ManyRows())) && !LoadKeyed(ManyRows())
  {
    hide LoadKeyed, ValidRow, LeafEntrySize, InternalEntrySize, RowKey, StrOf, RowOf, SmallKeys;
    var rows := ManyRows();
    forall i | 0 <= i < 21
      ensures ValidRow(Strings(), rows[i]) && LeafEntrySize(rows[i]) == 1009
      ensures InternalEntrySize(RowKey(rows[i])) == 1016 && RecordKeys(rows)[i] == StrOf(i, 1000)
    {
      RowOfFacts(i, 1000);
    }
    forall i, j | 0 <= i < j < 21
      ensures KeyLess(RecordKeys(rows)[i], RecordKeys(rows)[j])
    {
      StrOrder(i, 1000, j, 1000);
    }
    LoadCanLeaveNoKey(rows);
  }

  // ------------------------------------------------------------- a deletion without a sibling

  /** The leaves of that bulk load. */
  function ManyLeaves(): (ts: seq<Tree>)
    ensures |ts| == 6
  {
    LeafCutsAre();
    LeafTrees(0, ManyRows(), LeafCuts(ManyRows()))
  }

  lemma {:induction false} LeafCutsAre()
    ensures LeafCuts(ManyRows()) == [0, 4, 8, 12, 16, 20]
  {
    hide LeafCuts, RowOf, LeafEntrySize, InternalEntrySize, RowKey;
    ManySizes();
    SixLeaves(ManyRows());
  }

  lemma {:induction false} ManySizes()
    ensures forall i :: 0 <= i < 21 ==>
      LeafEntrySize(ManyRows()[i]) == 1009 && RowKey(ManyRows()[i]) == StrOf(i, 1000)
        && InternalEntrySize(StrOf(i, 1000)) == 1016
  {
    hide LeafEntrySize, InternalEntrySize, RowKey, RowOf, StrOf;
    forall i | 0 <= i < 21
      ensures LeafEntrySize(ManyRows()[i]) == 1009 && RowKey(ManyRows()[i]) == StrOf(i, 1000)
      ensures InternalEntrySize(StrOf(i, 1000)) == 1016
    {
      RowOfFacts(i, 1000);
    }
  }

  function ManyLows(): (ks: seq<Key>)
    ensures |ks| == 6
  {
    [StrOf(0, 1000), StrOf(4, 1000), StrOf(8, 1000), StrOf(12, 1000), StrOf(16, 1000), StrOf(20, 1000)]
  }

  /** Five leaves under one page, the sixth under a page without a key. */
  function ManyTree(): Tree {
    NodeT(PageId(0, 9), [StrOf(20, 1000)],
          [NodeT(PageId(0, 7), ManyLows()[1..5], ManyLeaves()[..5]), NodeT(PageId(0, 8), [], [ManyLeaves()[5]])])
  }

  lemma {:induction false} ManyLowsAre()
    ensures Pick(RecordKeys(ManyRows()), LeafCuts(ManyRows())) == ManyLows() && SmallKeys(ManyLows())
    ensures KeyCuts(ManyLows()) == [0, 5] && UpLows(ManyLows()) == [StrOf(0, 1000), StrOf(20, 1000)]
    ensures KeyCuts([StrOf(0, 1000), StrOf(20, 1000)]) == [0]
  {
    hide KeyCuts, LeafEntrySize, InternalEntrySize, RowKey, RowOf, StrOf, LeafCuts, ManyLows;
    ManyPick();
    LongKeys(ManyLows());
    LongKeys([StrOf(0, 1000), StrOf(20, 1000)]);
    ManyLowEnds();
  }

  lemma {:induction false} ManyLowEnds()
    ensures ManyLows()[0] == StrOf(0, 1000) && ManyLows()[5] == StrOf(20, 1000)
    ensures forall i :: 0 <= i < 6 ==> exists b: Byte :: ManyLows()[i] == StrOf(b, 1000)
  {
    hide StrOf;
  }

  lemma {:induction false} ManyPick()
    ensures Pick(RecordKeys(ManyRows()), LeafCuts(ManyRows())) == ManyLows()
    ensures forall i :: 0 <= i < 6 ==> InternalEntrySize(ManyLows()[i]) == 1016
    ensures InternalEntrySize(StrOf(0, 1000)) == 1016 && InternalEntrySize(StrOf(20, 1000)) == 1016
  {
    hide LeafEntrySize, InternalEntrySize, RowKey, RowOf, StrOf, LeafCuts;
    ManySizes();
    LeafCutsAre();
  }

  /** Separators of the greatest size: a page takes five children. */
  lemma {:induction false} LongKeys(lows: seq<Key>)
    requires 2 <= |lows| <= 6 && forall i :: 0 <= i < |lows| ==> InternalEntrySize(lows[i]) == 1016
    ensures SmallKeys(lows) && KeyCuts(lows) == if |lows| == 6 then [0, 5] else [0]
  {
    hide Cuts, InternalEntrySize;
    EvenCuts(KeySizes(lows), 1016, INTERNAL_USABLE, 1, 4, 0, 1);
    if |lows| == 6 {
      EvenCuts(KeySizes(lows), 1016, INTERNAL_USABLE, 1, 4, 5, 6);
    }
  }

  /** What the bulk load builds. */
  lemma {:induction false} ManyLoad()
    ensures SmallKeys(RecordKeys(ManyRows())) && LoadTree(0, ManyRows()) == ManyTree()
  {
    hide StrOf, LeafCuts, KeyCuts, LoadFrom, LeafTrees, LoadKeyed, ManyRows, ManyLows, Pick, RecordKeys, SmallKeys;
    hide UpLows;
    ManyRowsFit();
    LeafCutsAre();
    ManyLowsAre();
    var lows, ts, up := ManyLows(), ManyLeaves(), [StrOf(0, 1000), StrOf(20, 1000)];
    LoadStep(0, 7, lows, ts);
    var us := NodeTrees(0, 7, lows, ts, [0, 5]);
    assert lows[6..6] == [] && ts[5..6] == [ts[5]] && ts[0..5] == ts[..5];
    assert us == ManyTree().kids;
    LoadStep(0, 9, up, us);
    var top := NodeTrees(0, 9, up, us, [0]);
    assert up[1..2] == [up[1]] && us[0..2] == us;
    assert top == [ManyTree()];
    LoadEnd(0, 10, UpLows(up), top);
  }

  /** Deleting the last row empties the only leaf below the page without a key. */
  lemma {:induction false} ManyTreePanics()
    ensures DeletePanics(ManyTree(), StrOf(20, 1000))
  {
    hide StrOf, ManyLows, RowKey, RebalancePanics, Search, FindChildIndex, RoutedLeaf, ManyLeaves;
    var t, k := ManyTree(), StrOf(20, 1000);
    LastLeaf();
    EqualRoutesRight(k);
    var c := KidCtx(Top, t, 1);
    RouteStep(Top, t, k);
    NoKeysRoute(k);
    RouteStep(c, t.kids[1], k);
    var c2, l := KidCtx(c, t.kids[1], 0), ManyLeaves()[5];
    RouteEnd(c2, l, k);
    assert RowsWithout(l.rows, 0) == [];
    assert c2.left == [] && c2.right == [];
    NoBytes(l.id);
    PanicHere(c2, LeafT(l.id, []));
  }

  lemma {:induction false} NoBytes(id: PageId)
    ensures UnderfullTree(LeafT(id, []))
  {
    assert LeafBytes([]) == 0;
  }

  lemma {:induction false} EqualRoutesRight(k: Key)
    ensures FindChildIndex([k], k) == 1
  {
    assert LowerBound([k], k) == 0;
  }

  lemma {:induction false} NoKeysRoute(k: Key)
    ensures FindChildIndex([], k) == 0
  {
  }

  lemma {:induction false} LastLeaf()
    ensures var l := ManyLeaves()[5];
      l.LeafT? && l.rows == [RowOf(20, 1000)] && Search(RecordKeys(l.rows), StrOf(20, 1000)) == Hit(0)
  {
    hide RowOf, StrOf, LeafCuts, Search, RowKey;
    LeafCutsAre();
    var l := ManyLeaves()[5];
    assert ManyRows()[20..21] == [RowOf(20, 1000)];
    RowOfFacts(20, 1000);
    SearchHit(RecordKeys(l.rows), 0);
  }

  /** Vacuum on that table leaves a page without a key, and deleting the last row then panics. */
  method PanickingDelete() returns (tb: Table, res: Result<Option<Row>, PageError>)
    ensures res == Err(Panic)
  {
    hide Sound, RowsOf, AllLeaves, Keyed, ToMap, ManyRows, StrOf, LoadTree, ManyTree, DeletePanics, DeleteFits;
    hide LoadKeyed, SmallKeys, LostAt, FailedDelete, Spelled;
    ManySorted();
    ManyRowsFit();
    tb := Inserted(ManyRows());
    NoEntries(ManyRows());
    var _ := Vacuum(tb);
    RowsAre(tb, ManyRows());
    ManyLoad();
    ManyTreePanics();
    res := Delete(tb, StrOf(20, 1000));
  }

  lemma {:induction false} ManySorted()
    ensures SortedRows(ManyRows())
  {
    hide RowKey, RowOf, StrOf;
    ManySizes();
    forall i, j | 0 <= i < j < 21
      ensures KeyLess(RowKey(ManyRows()[i]), RowKey(ManyRows()[j]))
    {
      StrOrder(i, 1000, j, 1000);
    }
  }

  // ---------------------------------------------------- a borrow with no room above it

  /** How long the key of row `i` is, besides its first byte. */
  function TailOf(i: nat): nat { if i == 16 || i >= 21 then 20 else if i == 20 then 971 else 1000 }

  function Weight(i: nat): nat { if i == 16 || i >= 21 then 28 else if i == 20 then 980 else 1009 }

  /** Rows that fill five leaves and begin a sixth; the fifth and the sixth begin with a short key. */
  function TightRows(): (rows: seq<Row>)
    ensures |rows| == 23
  {
    seq(23, i requires 0 <= i < 23 => RowOf(i, TailOf(i)))
  }

  lemma {:induction false} TightRow(i: nat)
    requires i < 23
    ensures TightRows()[i] == RowOf(i, TailOf(i)) && RowKey(TightRows()[i]) == StrOf(i, TailOf(i))
    ensures ValidRow(Strings(), TightRows()[i]) && LeafEntrySize(TightRows()[i]) == Weight(i)
    ensures InternalEntrySize(StrOf(i, TailOf(i))) == if Weight(i) == 28 then 35 else Weight(i) + 7
  {
    hide LeafEntrySize, InternalEntrySize, RowKey, RowOf, StrOf, ValidRow;
    RowOfFacts(i, TailOf(i));
  }

  lemma {:induction false} TightSorted()
    ensures SortedRows(TightRows()) && forall i :: 0 <= i < 23 ==> ValidRow(Strings(), TightRows()[i])
  {
    hide RowKey, RowOf, StrOf, ValidRow, TightRows;
    var rows := TightRows();
    forall i | 0 <= i < 23
      ensures ValidRow(Strings(), rows[i]) && RowKey(rows[i]) == StrOf(i, TailOf(i))
    {
      TightRow(i);
    }
    forall i, j | 0 <= i < j < 23
      ensures KeyLess(RowKey(rows[i]), RowKey(rows[j]))
    {
      StrOrder(i, TailOf(i), j, TailOf(j));
    }
  }

  lemma {:induction false} SumFour(a: nat, b: nat, c: nat, d: nat)
    ensures Sum([a, b, c, d]) == a + b + c + d
  {
    hide Sum;
    assert [a, b, c, d] == [a] + [b] + [c] + [d];
    SumAppend([a] + [b] + [c], [d]);
    SumAppend([a] + [b], [c]);
    SumAppend([a], [b]);
    SumOne(a);
    SumOne(b);
    SumOne(c);
    SumOne(d);
  }

  lemma {:induction false} SumFive(a: nat, b: nat, c: nat, d: nat, e: nat)
    ensures Sum([a, b, c, d, e]) == a + b + c + d + e
  {
    hide Sum;
    assert [a, b, c, d, e] == [a, b, c, d] + [e];
    SumAppend([a, b, c, d], [e]);
    SumFour(a, b, c, d);
    SumOne(e);
  }

  /** Four rows of 1009 bytes fill a leaf. */
  lemma {:induction false} FourFill(z: seq<nat>, a: nat)
    requires a + 4 < |z| && (forall i :: a <= i < a + 4 ==> z[i] == 1009) && z[a + 4] >= 20
    ensures Cuts(z, LEAF_USABLE, 0, a, a + 1) == [a] + Cuts(z, LEAF_USABLE, 0, a + 4, a + 5)
  {
    hide Cuts, Sum;
    assert z[a + 0..a + 4] == [1009, 1009, 1009, 1009];
    SumFour(1009, 1009, 1009, 1009);
    PageCut(z, LEAF_USABLE, 0, a, a + 1, a + 4);
  }

  lemma {:induction false} LastCuts(z: seq<nat>)
    requires |z| == 23 && z[16..23] == [28, 1009, 1009, 1009, 980, 28, 28]
    ensures Cuts(z, LEAF_USABLE, 0, 16, 17) == [16, 21]
  {
    hide Cuts, Sum;
    assert z[16..23][5] == z[21];
    assert z[16 + 0..21] == [28, 1009, 1009, 1009, 980] by { assert z[16..21] == z[16..23][..5]; }
    SumFive(28, 1009, 1009, 1009, 980);
    PageCut(z, LEAF_USABLE, 0, 16, 17, 21);
    assert z[21 + 0..23] == [28] + [28] by { assert z[21..23] == z[16..23][5..]; }
    SumAppend([28], [28]);
    SumOne(28);
    LastCut(z, LEAF_USABLE, 0, 21, 22);
  }

  lemma {:induction false} TightSizes()
    ensures var z := RowSizes(TightRows()); |z| == 23 && forall i :: 0 <= i < 23 ==> z[i] == Weight(i)
  {
    hide RowOf, LeafEntrySize, TightRows, Weight;
    forall i | 0 <= i < 23
      ensures RowSizes(TightRows())[i] == Weight(i)
    {
      TightRow(i);
    }
  }

  lemma {:induction false} TightCuts()
    ensures LeafCuts(TightRows()) == [0, 4, 8, 12, 16, 21]
  {
    hide Cuts, TightRows, RowSizes;
    var z := RowSizes(TightRows());
    TightSizes();
    FourFill(z, 0);
    FourFill(z, 4);
    FourFill(z, 8);
    FourFill(z, 12);
    assert z[16..23] == [28, 1009, 1009, 1009, 980, 28, 28];
    LastCuts(z);
  }

  function TightKeys(): (ks: seq<Key>)
    ensures |ks| == 5
  {
    [StrOf(4, 1000), StrOf(8, 1000), StrOf(12, 1000), StrOf(16, 20), StrOf(21, 20)]
  }

  function TightLeaves(): (ts: seq<Tree>)
    ensures |ts| == 6
  {
    TightCuts();
    LeafTrees(0, TightRows(), LeafCuts(TightRows()))
  }

  /** A root with five separators, the last of them short, over six leaves. */
  function TightTree(): Tree {
    NodeT(PageId(0, 7), TightKeys(), TightLeaves())
  }

  lemma {:induction false} TightLows()
    ensures Pick(RecordKeys(TightRows()), LeafCuts(TightRows())) == [StrOf(0, 1000)] + TightKeys()
    ensures SmallKeys(RecordKeys(TightRows()))
  {
    hide RowKey, RowOf, StrOf, LeafCuts, TightRows, LeafEntrySize, InternalEntrySize;
    TightCuts();
    forall i | 0 <= i < 23
      ensures RecordKeys(TightRows())[i] == StrOf(i, TailOf(i))
      ensures InternalEntrySize(StrOf(i, TailOf(i))) <= MAX_INTERNAL_ENTRY_SIZE
    {
      TightRow(i);
    }
  }

  lemma {:induction false} TightKeySizes()
    ensures KeySizes(TightKeys()) == [1016, 1016, 1016, 35, 35]
  {
    hide StrOf, InternalEntrySize;
    RowOfFacts(4, 1000);
    RowOfFacts(8, 1000);
    RowOfFacts(12, 1000);
    RowOfFacts(16, 20);
    RowOfFacts(21, 20);
  }

  /** All six leaves go under one page. */
  lemma {:induction false} TightUp()
    ensures KeyCuts([StrOf(0, 1000)] + TightKeys()) == [0]
  {
    hide Cuts, Sum, StrOf, InternalEntrySize, TightKeys;
    var lows := [StrOf(0, 1000)] + TightKeys();
    TightKeySizes();
    assert KeySizes(lows)[0 + 1..|KeySizes(lows)|] == KeySizes(TightKeys());
    SumFive(1016, 1016, 1016, 35, 35);
    LastCut(KeySizes(lows), INTERNAL_USABLE, 1, 0, 1);
  }

  /** What the bulk load builds. */
  lemma {:induction false} TightLoad()
    ensures SmallKeys(RecordKeys(TightRows())) && LoadTree(0, TightRows()) == TightTree()
  {
    hide StrOf, LeafCuts, KeyCuts, LoadFrom, LeafTrees, TightRows, TightKeys, Pick, RecordKeys;
    TightCuts();
    TightLows();
    TightUp();
    var low, ts := StrOf(0, 1000), TightLeaves();
    var lows := [low] + TightKeys();
    SmallPick(RecordKeys(TightRows()), LeafCuts(TightRows()));
    hide SmallKeys;
    LoadStep(0, 7, lows, ts);
    var top := NodeTrees(0, 7, lows, ts, [0]);
    assert lows[1..6] == TightKeys() && ts[0..6] == ts;
    assert top == [TightTree()];
    LoadEnd(0, 8, UpLows(lows), top);
  }

  lemma {:induction false} SmallPick(keys: seq<Key>, cuts: seq<nat>)
    requires SmallKeys(keys) && forall g :: 0 <= g < |cuts| ==> cuts[g] < |keys|
    ensures SmallKeys(Pick(keys, cuts))
  {
  }

  // -------------------------------------------------------------------- deleting its last row

  function FifthRows(): (rows: seq<Row>)
    ensures |rows| == 5
  {
    [RowOf(16, 20), RowOf(17, 1000), RowOf(18, 1000), RowOf(19, 1000), RowOf(20, 971)]
  }

  lemma {:induction false} TightLeavesAre()
    ensures TightLeaves()[4] == LeafT(PageId(0, 5), FifthRows())
    ensures TightLeaves()[5] == LeafT(PageId(0, 6), [RowOf(21, 20), RowOf(22, 20)])
  {
    hide RowOf, LeafCuts;
    TightCuts();
    assert TightRows()[16..21] == FifthRows();
    assert TightRows()[21..23] == [RowOf(21, 20), RowOf(22, 20)];
  }

  /** Where leaf `g` begins. */
  function StartOf(g: nat): nat { if g == 5 then 21 else 4 * g }

  lemma {:induction false} TightKey(i: nat)
    requires i < 5
    ensures TightKeys()[i] == StrOf(StartOf(i + 1), TailOf(StartOf(i + 1)))
  {
    hide StrOf;
  }

  lemma {:induction false} TightKeysSorted()
    ensures Sorted(TightKeys())
  {
    hide StrOf, TightKeys, KeyLess;
    forall i, j | 0 <= i < j < 5
      ensures KeyLess(TightKeys()[i], TightKeys()[j])
    {
      var a, b := StartOf(i + 1), StartOf(j + 1);
      TightKey(i);
      TightKey(j);
      StrOrder(a, TailOf(a), b, TailOf(b));
    }
  }

  /** The last key is led to the last leaf. */
  lemma {:induction false} RouteToLast()
    ensures FindChildIndex(TightKeys(), StrOf(22, 20)) == 5
    ensures RoutedLeaf(Top, TightTree(), StrOf(22, 20)) == (KidCtx(Top, TightTree(), 5), TightLeaves()[5])
  {
    hide StrOf, RowOf, FindChildIndex, RoutedLeaf, TightLeaves, TightKeys;
    TightKeysSorted();
    var i := FindChildIndex(TightKeys(), StrOf(22, 20));
    ChildBounds(TightKeys(), StrOf(22, 20), i);
    StrOrder(21, 20, 22, 20);
    TightKey(4);
    RouteStep(Top, TightTree(), StrOf(22, 20));
    TightLeavesAre();
    RouteEnd(KidCtx(Top, TightTree(), 5), TightTree().kids[5], StrOf(22, 20));
  }

  lemma {:induction false} LastHit()
    ensures var rows := [RowOf(21, 20), RowOf(22, 20)];
      Search(RecordKeys(rows), StrOf(22, 20)) == Hit(1) && RowsWithout(rows, 1) == [RowOf(21, 20)]
  {
    hide RowOf, StrOf, RowKey, Search, KeyLess, ValidRow, ValidKey, LeafEntrySize, InternalEntrySize, RecordKeys;
    RowOfFacts(21, 20);
    RowOfFacts(22, 20);
    StrOrder(21, 20, 22, 20);
    SecondHit(RowOf(21, 20), RowOf(22, 20));
  }

  lemma {:induction false} SecondHit(a: Row, b: Row)
    requires KeyLess(RowKey(a), RowKey(b))
    ensures Search(RecordKeys([a, b]), RowKey(b)) == Hit(1) && RowsWithout([a, b], 1) == [a]
  {
    hide RowKey, Search, KeyLess, RecordKeys;
    SearchHit(RecordKeys([a, b]), 1);
  }

  lemma {:induction false} PairWeights()
    ensures RowSizes(FifthRows() + [RowOf(21, 20)]) == [28, 1009, 1009, 1009, 980, 28]
  {
    hide RowOf, LeafEntrySize;
    RowOfFacts(16, 20);
    RowOfFacts(17, 1000);
    RowOfFacts(18, 1000);
    RowOfFacts(19, 1000);
    RowOfFacts(20, 971);
    RowOfFacts(21, 20);
  }

  /** Where the borrow cuts: neither at the old place nor before the first row. */
  lemma {:induction false} CutInside(z: seq<nat>)
    requires z == [28, 1009, 1009, 1009, 980, 28]
    ensures 1 <= BalanceDown(z, 0, 5) <= 4 && Sum(z) == 4063
  {
    hide BalanceDown, Sum;
    assert z[..5] == [28, 1009, 1009, 1009, 980] && z[5..] == [28] && z == z[..5] + z[5..];
    assert z[..1] == [28] && z[1..] == [1009, 1009, 1009, 980, 28];
    SumFive(28, 1009, 1009, 1009, 980);
    SumFive(1009, 1009, 1009, 980, 28);
    SumOne(28);
    SumAppend(z[..5], z[5..]);
  }

  lemma {:induction false} LoneBytes()
    ensures LeafBytes([RowOf(21, 20)]) == 28
  {
    hide RowOf, LeafEntrySize, LeafBytes;
    RowOfFacts(21, 20);
    LeafBytesOne(RowOf(21, 20));
  }

  /** The pair after the deletion: not mergeable, and cut at a row with a long key. */
  lemma {:induction false} BorrowMeetsFull()
    ensures var l, r, sep := LeafT(PageId(0, 5), FifthRows()), LeafT(PageId(0, 6), [RowOf(21, 20)]), StrOf(21, 20);
      var k := TreeCut(l, sep, r, OnLeft);
      && UnderfullTree(r) && !FitsJoined(l, sep, r) && 1 <= k <= 4
      && CutKey(l, sep, r, k) == StrOf(16 + k, TailOf(16 + k))
  {
    hide StrOf, RowOf, LeafEntrySize, RowKey, BalanceDown, RowSizes, FifthRows, Sum;
    var all := FifthRows() + [RowOf(21, 20)];
    PairWeights();
    CutInside(RowSizes(all));
    LoneBytes();
    var k := BalanceDown(RowSizes(all), 0, 5);
    assert all[k] == RowOf(16 + k, TailOf(16 + k)) by { FifthRow(k); }
    RowOfFacts(16 + k, TailOf(16 + k));
  }

  lemma {:induction false} FifthRow(k: nat)
    requires k < 5
    ensures FifthRows()[k] == RowOf(16 + k, TailOf(16 + k))
  {
    hide RowOf;
  }

  lemma {:induction false} TightBytes()
    ensures KeyBytes(Without(TightKeys(), 4)) == 3083
  {
    hide StrOf, InternalEntrySize, Sum;
    TightKeySizes();
    var rest := Without(TightKeys(), 4);
    assert rest == TightKeys()[..4];
    assert KeySizes(rest) == KeySizes(TightKeys())[..4] == [1016, 1016, 1016, 35];
    SumFour(1016, 1016, 1016, 35);
  }

  /** Deleting the last key of this tree leaves the last leaf underfull; it cannot merge, so it borrows; the new
      separator is longer than the old one by more than the root has room for. */
  lemma {:induction false} DeleteCanFail()
    ensures var gap := FailedDelete(TightTree(), StrOf(22, 20));
      gap.Some? && gap.value.0 == StrOf(21, 20)
        && exists i :: 17 <= i <= 20 && gap.value.1 == StrOf(i, TailOf(i))
    ensures !DeleteFits(TightTree(), StrOf(22, 20)) && !DeletePanics(TightTree(), StrOf(22, 20))
  {
    hide StrOf, RowOf, RoutedLeaf, RebalanceFits, RebalancePanics, FailedBorrow, Search, RecordKeys, RowsWithout;
    hide TightTree, TightLeaves;
    RouteToLast();
    TightLeavesAre();
    LastHit();
    AscentFails();
  }

  /** The ascent from there comes to a borrow and fails. */
  lemma {:induction false} AscentFails()
    ensures TightTree().NodeT? && |TightTree().kids| == 6
    ensures var c, r := KidCtx(Top, TightTree(), 5), LeafT(PageId(0, 6), [RowOf(21, 20)]);
      && !RebalanceFits(c, r) && !RebalancePanics(c, r)
      && FailedBorrow(c, r).Some? && FailedBorrow(c, r).value.0 == StrOf(21, 20)
      && exists i :: 17 <= i <= 20 && FailedBorrow(c, r).value.1 == StrOf(i, TailOf(i))
  {
    hide StrOf, RowOf, KeyBytes, InternalEntrySize, UnderfullTree, FitsJoined, TreeCut, CutKey, Without, FifthRows;
    hide RebalanceFits, RebalancePanics, FailedBorrow, TightKeys, TightLeaves;
    var c, r := KidCtx(Top, TightTree(), 5), LeafT(PageId(0, 6), [RowOf(21, 20)]);
    BorrowMeetsFull();
    TightLeavesAre();
    TightBytes();
    TightKey(4);
    assert c.left == TightLeaves()[..5] && c.right == [] && c.left[4] == TightLeaves()[4];
    assert Enclosing(c, r).kids[4] == TightLeaves()[4] && Enclosing(c, r).kids[5] == r;
    var k := TreeCut(TightLeaves()[4], StrOf(21, 20), r, OnLeft);
    LongKey(16 + k);
    FitsStep(c, r);
  }

  lemma {:induction false} LongKey(i: nat)
    requires 17 <= i <= 20
    ensures InternalEntrySize(StrOf(i, TailOf(i))) >= 987
  {
    hide InternalEntrySize, StrOf;
    TightRow(i);
  }

  /** A table with these rows, made by inserting them and vacuumed: deleting the last row ends in `PageFull`, and
      then the row before the last two is in the table and is not found. */
  method FailingDelete() returns (tb: Table, res: Result<Option<Row>, PageError>)
    ensures res == Err(PageFull) && SpelledTable(tb)
    ensures tb.Contents() == ToMap(TightRows()) - {StrOf(22, 20)}
    ensures StrOf(20, 971) in tb.Contents() && Find(tb.tree, StrOf(20, 971)) == None
  {
    hide Sound, RowsOf, AllLeaves, Keyed, ToMap, TightRows, StrOf, LoadTree, TightTree, DeletePanics, DeleteFits;
    hide LoadKeyed, SmallKeys, LostOnly, FailedDelete, Spelled, TailOf, Find;
    TightSorted();
    tb := Inserted(TightRows());
    NoEntries(TightRows());
    var _ := Vacuum(tb);
    RowsAre(tb, TightRows());
    TightLoad();
    DeleteCanFail();
    ghost var gap := FailedDelete(TightTree(), StrOf(22, 20)).value;
    res := Delete(tb, StrOf(22, 20));
    RowIsLost(tb.tree, tb.Contents(), gap);
  }

  lemma {:induction false} RowIsLost(t: Tree, m: map<Key, Row>, gap: (Key, Key))
    requires LostOnly(t, m, gap.0, gap.1) && m == ToMap(TightRows()) - {StrOf(22, 20)}
    requires gap.0 == StrOf(21, 20) && exists i :: 17 <= i <= 20 && gap.1 == StrOf(i, TailOf(i))
    ensures StrOf(20, 971) in m && Find(t, StrOf(20, 971)) == None
  {
    hide ToMap, StrOf, TightRows, RowOf, RowKey, Find, SortedRows, Misrouting.Between;
    TightSorted();
    TightRow(20);
    ToMapAt(TightRows(), 20);
    StrOrder(20, 971, 22, 20);
    RowBetween(gap);
  }

  lemma {:induction false} RowBetween(gap: (Key, Key))
    requires gap.0 == StrOf(21, 20) && exists i :: 17 <= i <= 20 && gap.1 == StrOf(i, TailOf(i))
    ensures Misrouting.Between(gap.0, gap.1, StrOf(20, 971))
  {
    hide StrOf;
    StrOrder(20, 971, 21, 20);
    var i :| 17 <= i <= 20 && gap.1 == StrOf(i, TailOf(i));
    if i < 20 {
      StrOrder(i, TailOf(i), 20, 971);
    }
  }

  // -------------------------------------------------------------- a name the reader refuses

  lemma {:induction false} AsciiIsUtf8(s: seq<Byte>)
    requires forall i :: 0 <= i < |s| ==> s[i] < 0x80
    ensures Utf8(s)
  {
    if s != [] {
      AsciiIsUtf8(s[1..]);
    }
  }

  /** A meta page with one column whose name is `n` letters long. */
  function MetaOf(n: nat): Page {
    Page(PageId(0, 0), 0, Meta(PageId(0, 1), 2, None, Schema([Column(seq(n, _ => 97), IntegerCol, false)]), [97]))
  }

  /** Column names of 1011 bytes are written but not read back; those of 1010 bytes are. */
  lemma {:induction false} LongNameIsRefused()
    ensures Encodable(MetaOf(1011)) && Typed(MetaOf(1011)) && !Returns(MetaOf(1011)) && Returns(MetaOf(1010))
  {
    var c := Column(seq(1011, _ => 97), IntegerCol, false);
    AsciiIsUtf8(c.name);
    AsciiIsUtf8([97]);
    hide Utf8;
    assert ColumnsSize([c]) == 2 + VarintLen(1011) + 1011 + ColumnsSize([]) by { assert [c][1..] == []; }
    assert |MetaOf(1011).body.schema.columns[0].name| == 1011;
  }

  function PlainLeaf(): Page {
    Page(PageId(0, 1), 0, Leaf([], None, None))
  }

  lemma {:induction false} PlainLeafOk()
    ensures Encodable(PlainLeaf()) && Typed(PlainLeaf()) && Returns(PlainLeaf())
  {
    assert LeafBytes([]) == 0;
  }

  function LosingRequests(): (reqs: seq<PoolRuns.Request>)
    ensures |reqs| == 3
  {
    [PoolRuns.Create(MetaOf(1011)), PoolRuns.Drop(0), PoolRuns.Create(PlainLeaf())]
  }

  /** The map after the first two requests. */
  lemma {:induction false} MetaShows(views: PoolRuns.Views, anss: seq<PoolRuns.Answer>, id: PageId)
    requires |anss| == 3 && anss[0] == PoolRuns.Opened && anss[1] == PoolRuns.Done && views(id) == None
    ensures PoolRuns.AfterAll(views, LosingRequests()[..2], anss[..2])(id) ==
      if id == PageId(0, 0) then Some(MetaOf(1011)) else None
    ensures anss[2] == PoolRuns.Opened && id == PageId(0, 0) ==>
      PoolRuns.AfterAll(views, LosingRequests(), anss)(id) == Some(MetaOf(1011))
  {
    var reqs := LosingRequests();
    assert reqs[..2][..1] == reqs[..1] && anss[..2][..1] == anss[..1];
    assert reqs[..1][..0] == [] && anss[..1][..0] == [];
    assert reqs[..2][1] == reqs[1] && reqs[..1][0] == reqs[0] && anss[..2][1] == anss[1] && anss[..1][0] == anss[0];
    assert MetaOf(1011).id == PageId(0, 0);
    hide MetaOf;
    var first := PoolRuns.After(views, reqs[0], anss[0]);
    assert PoolRuns.AfterAll(views, reqs[..1], anss[..1]) == first;
    assert PoolRuns.AfterAll(views, reqs[..2], anss[..2]) == PoolRuns.After(first, reqs[1], anss[1]) == first;
    assert PoolRuns.AfterAll(views, reqs, anss) == PoolRuns.After(first, reqs[2], anss[2]);
  }

  /** With one frame and an empty disk there is one answer to each request. */
  lemma {:induction false} LosingAnswers(views: PoolRuns.Views, anss: seq<PoolRuns.Answer>,
                                         opens: seq<seq<PoolRuns.Guard>>)
    requires |anss| == 3 && |opens| == 4 && opens[0] == [] && forall id :: views(id) == None
    requires PoolRuns.Explained(1, views, LosingRequests(), anss, opens, 3)
    ensures anss == [PoolRuns.Opened, PoolRuns.Done, PoolRuns.Opened]
    ensures |opens[3]| == 1 && opens[3][0].id == PageId(0, 1)
  {
    hide Encodable, Typed, Returns, MetaOf, PoolRuns.AfterAll;
    LongNameIsRefused();
    var reqs := LosingRequests();
    assert PoolRuns.NowOpen(opens[0], reqs[0], anss[0], opens[1]);
    assert PoolRuns.AfterAll(views, reqs[..0], anss[..0]) == views by { StartViews(views, reqs, anss); }
    assert PoolRuns.Allowed(1, views, opens[0], reqs[0], anss[0]);
    assert PoolRuns.OpenIds([]) == {};
    assert anss[0] == PoolRuns.Opened;
    assert PoolRuns.Allowed(1, PoolRuns.AfterAll(views, reqs[..1], anss[..1]), opens[1], reqs[1], anss[1]);
    assert PoolRuns.NowOpen(opens[1], reqs[1], anss[1], opens[2]);
    assert anss[1] == PoolRuns.Done;
    assert opens[2] == [];
    var now := PoolRuns.AfterAll(views, reqs[..2], anss[..2]);
    assert PoolRuns.Allowed(1, now, opens[2], reqs[2], anss[2]);
    assert PoolRuns.NowOpen(opens[2], reqs[2], anss[2], opens[3]);
    forall id
      ensures now(id).Some? ==> Encodable(now(id).value)
    {
      MetaShows(views, anss, id);
    }
    assert !PoolRuns.Blocked(now, opens[2]);
    MetaShows(views, anss, PageId(0, 1));
  }

  lemma {:induction false} StartViews(views: PoolRuns.Views, reqs: seq<PoolRuns.Request>, anss: seq<PoolRuns.Answer>)
    ensures PoolRuns.AfterAll(views, reqs[..0], anss[..0]) == views
  {
  }

  /** With one frame, a page that is not the one held is not cached. */
  lemma {:induction false} OneCached(pool: BufferPools.BufferPool, open: seq<PoolRuns.Guard>, id: PageId)
    requires pool.Valid() && pool.frames.Length == 1 && |open| == 1 && open[0].id != id
    requires PoolRuns.Held(pool.table, pool.guards, pool.writing, open)
    ensures id !in pool.table
  {
    hide Pools.DiskOk, Pools.Contained, Pools.Counted, Pools.Mapped, PoolRuns.FramesOf;
    if id in pool.table {
      assert false;
    }
  }

  lemma {:induction false} MetaIsLost(pool: BufferPools.BufferPool, crc: Crc, views: PoolRuns.Views,
                                      anss: seq<PoolRuns.Answer>, open: seq<PoolRuns.Guard>)
    requires anss == [PoolRuns.Opened, PoolRuns.Done, PoolRuns.Opened] && views(PageId(0, 0)) == None
    requires PoolRuns.Agrees(pool, PoolRuns.AfterAll(views, LosingRequests(), anss), open)
    requires pool.frames.Length == 1 && |open| == 1 && open[0].id == PageId(0, 1)
    ensures pool.Valid() && PageId(0, 0) !in pool.table && PageId(0, 0) in pool.disk
    ensures Pools.OnDisk(pool.disk, pool.crc, PageId(0, 0)) == None
  {
    hide Encodable, Typed, Returns, Pools.Inv, Pools.View, Pools.OnDisk, PoolRuns.Held, MetaOf, PoolRuns.AfterAll;
    hide PoolRuns.Seen;
    var meta := PageId(0, 0);
    var now := PoolRuns.AfterAll(views, LosingRequests(), anss);
    LongNameIsRefused();
    MetaShows(views, anss, meta);
    OneCached(pool, open, meta);
    assert PoolRuns.Sees(pool, now, meta);
    PoolRuns.SeenMeans(pool, now, meta);
    BufferPools.ReadableReturns(pool.disk, pool.crc, meta);
  }

  /** Such a meta page in a pool of one frame: creating another page evicts it, and then it cannot be fetched. */
  method LosingEviction(crc: Crc) returns (anss: seq<PoolRuns.Answer>, res: Result<nat, BufferPools.BpmError>)
    ensures anss == [PoolRuns.Opened, PoolRuns.Done, PoolRuns.Opened]
    ensures res.Err? && res.error.Unreadable?
  {
    hide Encodable, Typed, Returns, Pools.DiskOk, Pools.Inv, Pools.View, PoolRuns.Agrees, MetaOf, PoolRuns.Explained;
    hide PoolRuns.AfterAll, Pools.Saved, Pools.PagesKept, Pools.MappingsKept, Pools.Stuck, Pools.Exhausted;
    LongNameIsRefused();
    PlainLeafOk();
    BufferPools.EmptyDisk(crc);
    var pool, open;
    ghost var views, opens;
    pool, anss, open, views, opens := PoolRuns.Session(map[], 1, crc, LosingRequests());
    LosingAnswers(views, anss, opens);
    MetaIsLost(pool, crc, views, anss, open);
    res := pool.Checkout(PageId(0, 0), false);
  }
}

/** The sorted map that a tree stands for. */
module Contents {
  import opened Common
  import opened Schemas
  import opened Pages
  import opened Trees
  import opened Focus

  /** Rows in strictly increasing key order, all with keys in [lo, hi). */
  ghost predicate RowsIn(rows: seq<Row>, lo: Option<Key>, hi: Option<Key>) {
    && (forall i, j :: 0 <= i < j < |rows| ==> KeyLess(RowKey(rows[i]), RowKey(rows[j])))
    && (forall i :: 0 <= i < |rows| ==> AtLeast(lo, RowKey(rows[i])) && Below(RowKey(rows[i]), hi))
  }

  lemma {:induction false} RowsInAppend(a: seq<Row>, b: seq<Row>, lo: Option<Key>, mid: Key, hi: Option<Key>)
    requires RowsIn(a, lo, Some(mid)) && RowsIn(b, Some(mid), hi)
    requires AtLeast(lo, mid) && (b != [] || hi == None || !KeyLess(hi.value, mid))
    ensures RowsIn(a + b, lo, hi)
  {
    hide RowKey;
    var ab := a + b;
    forall i | 0 <= i < |ab|
      ensures AtLeast(lo, RowKey(ab[i])) && Below(RowKey(ab[i]), hi)
    {
      if i < |a| && b != [] {
        assert KeyLess(RowKey(a[i]), mid);
        assert !KeyLess(RowKey(b[0]), mid);
      }
    }
    forall i, j | 0 <= i < j < |ab|
      ensures KeyLess(RowKey(ab[i]), RowKey(ab[j]))
    {
      if i < |a| && |a| <= j {
        assert KeyLess(RowKey(a[i]), mid);
        assert !KeyLess(RowKey(b[j - |a|]), mid);
      }
    }
  }

  /** The rows below a sound tree are sorted and inside its bounds. */
  lemma {:induction false} RowsSorted(s: Schema, t: Tree, lo: Option<Key>, hi: Option<Key>, h: nat)
    requires Wf(s, t, lo, hi, h)
    ensures RowsIn(Rows(t), lo, hi)
    decreases t, 1, 0
  {
    hide ValidRow, KeyBytes, LeafBytes, RowKey;
    if t.LeafT? {
      assert [t][1..] == [];
      assert RowsOf([t]) == t.rows + RowsOf([]);
      assert Rows(t) == t.rows;
      forall i, j | 0 <= i < j < |t.rows|
        ensures KeyLess(RowKey(t.rows[i]), RowKey(t.rows[j]))
      {
        assert KeyLess(RecordKeys(t.rows)[i], RecordKeys(t.rows)[j]);
      }
    } else {
      KidRowsSorted(s, t, lo, hi, h, 0);
      assert t.kids[0..] == t.kids;
    }
  }

  lemma {:induction false} KidRowsSorted(s: Schema, t: Tree, lo: Option<Key>, hi: Option<Key>, h: nat, i: nat)
    requires t.NodeT? && Wf(s, t, lo, hi, h) && i < |t.kids|
    ensures RowsIn(RowsOf(LeavesOf(t.kids[i..])), KidLo(t.keys, i, lo), hi)
    decreases t, 0, |t.kids| - i
  {
    hide ValidKey, KeyBytes, RowsIn;
    var rest := t.kids[i..];
    assert rest[0] == t.kids[i] && rest[1..] == t.kids[i + 1..];
    RowsSorted(s, t.kids[i], KidLo(t.keys, i, lo), KidHi(t.keys, i, hi), h - 1);
    RowsOfAppend(Leaves(t.kids[i]), LeavesOf(t.kids[i + 1..]));
    if i + 1 < |t.kids| {
      KidRowsSorted(s, t, lo, hi, h, i + 1);
      assert Below(t.keys[i], hi);
      if i > 0 {
        assert KeyLess(t.keys[i - 1], t.keys[i]);
      } else {
        assert Above(lo, t.keys[i]);
      }
      RowsInAppend(Rows(t.kids[i]), RowsOf(LeavesOf(t.kids[i + 1..])), KidLo(t.keys, i, lo), t.keys[i], hi);
    } else {
      assert t.kids[i + 1..] == [];
      assert RowsOf(LeavesOf(t.kids[i + 1..])) == [];
      assert RowsOf(LeavesOf(rest)) == Rows(t.kids[i]);
    }
  }

  lemma {:induction false} RowBelow(ts: seq<Tree>, r: Row) returns (i: nat)
    requires r in RowsOf(LeavesOf(ts))
    ensures i < |ts| && r in Rows(ts[i])
  {
    RowsOfAppend(Leaves(ts[0]), LeavesOf(ts[1..]));
    if r in Rows(ts[0]) {
      i := 0;
    } else {
      i := RowBelow(ts[1..], r);
      i := i + 1;
    }
  }

  /** Every row to the left of the focus lies below its lower bound. */
  lemma {:induction false} BeforeBelow(s: Schema, c: Ctx, h: nat, r: Row)
    requires CtxWf(s, c, h) && r in RowsOf(LeavesBefore(c))
    ensures Lo(c).Some? && KeyLess(RowKey(r), Lo(c).value)
    decreases c
  {
    hide RowKey, ValidKey, KeyBytes, Wf;
    RowsOfAppend(LeavesBefore(c.up), LeavesOf(c.left));
    if r in RowsOf(LeavesOf(c.left)) {
      var i := RowBelow(c.left, r);
      RowsSorted(s, c.left[i], KidLo(c.keys, i, Lo(c.up)), KidHi(c.keys, i, Hi(c.up)), h);
      assert KeyLess(RowKey(r), c.keys[i]);
      if i < |c.left| - 1 {
        assert KeyLess(c.keys[i], c.keys[|c.left| - 1]);
      }
    } else {
      BeforeBelow(s, c.up, h + 1, r);
      if c.left != [] {
        assert Above(Lo(c.up), c.keys[|c.left| - 1]);
      }
    }
  }

  /** Every row to the right of the focus lies at or above its upper bound. */
  lemma {:induction false} AfterAbove(s: Schema, c: Ctx, h: nat, r: Row)
    requires CtxWf(s, c, h) && r in RowsOf(LeavesAfter(c))
    ensures Hi(c).Some? && !KeyLess(RowKey(r), Hi(c).value)
    decreases c
  {
    hide RowKey, ValidKey, KeyBytes, Wf;
    RowsOfAppend(LeavesOf(c.right), LeavesAfter(c.up));
    if r in RowsOf(LeavesOf(c.right)) {
      var i := RowBelow(c.right, r);
      var j := |c.left| + 1 + i;
      RowsSorted(s, c.right[i], KidLo(c.keys, j, Lo(c.up)), KidHi(c.keys, j, Hi(c.up)), h);
      assert !KeyLess(RowKey(r), c.keys[j - 1]);
      if i > 0 {
        assert KeyLess(c.keys[|c.left|], c.keys[j - 1]);
      }
    } else {
      AfterAbove(s, c.up, h + 1, r);
      if c.right != [] {
        assert Below(c.keys[|c.left|], Hi(c.up));
      }
    }
  }

  // ------------------------------------------------------------- rows as a map

  predicate SortedRows(rows: seq<Row>) {
    forall i, j :: 0 <= i < j < |rows| ==> KeyLess(RowKey(rows[i]), RowKey(rows[j]))
  }

  function ToMap(rows: seq<Row>): map<Key, Row> {
    if rows == [] then map[]
    else ToMap(rows[..|rows| - 1])[RowKey(rows[|rows| - 1]) := rows[|rows| - 1]]
  }

  lemma {:induction false} ToMapAt(rows: seq<Row>, i: nat)
    requires SortedRows(rows) && i < |rows|
    ensures RowKey(rows[i]) in ToMap(rows) && ToMap(rows)[RowKey(rows[i])] == rows[i]
  {
    hide RowKey;
    var n := |rows| - 1;
    if i < n {
      ToMapAt(rows[..n], i);
      assert KeyLess(RowKey(rows[i]), RowKey(rows[n]));
    }
  }

  lemma {:induction false} ToMapFrom(rows: seq<Row>, k: Key) returns (i: nat)
    requires k in ToMap(rows)
    ensures i < |rows| && RowKey(rows[i]) == k
  {
    var n := |rows| - 1;
    if k == RowKey(rows[n]) {
      i := n;
    } else {
      i := ToMapFrom(rows[..n], k);
    }
  }

  /** Position in `a + [r] + b` of the i-th row of `a + b`. */
  lemma {:induction false} WithoutMiddle(a: seq<Row>, r: Row, b: seq<Row>, i: nat)
    requires i < |a + b|
    ensures (a + b)[i] == (a + [r] + b)[if i < |a| then i else i + 1]
  {
  }

  lemma {:induction false} SortedWithout(a: seq<Row>, r: Row, b: seq<Row>)
    requires SortedRows(a + [r] + b)
    ensures SortedRows(a + b)
  {
    hide RowKey;
    var all, rest := a + [r] + b, a + b;
    forall i, j | 0 <= i < j < |rest|
      ensures KeyLess(RowKey(rest[i]), RowKey(rest[j]))
    {
      WithoutMiddle(a, r, b, i);
      WithoutMiddle(a, r, b, j);
    }
  }

  /** A row among sorted rows is one entry of the map, no more and no less. */
  lemma {:induction false} ToMapMiddle(a: seq<Row>, r: Row, b: seq<Row>)
    requires SortedRows(a + [r] + b)
    ensures RowKey(r) !in ToMap(a + b)
    ensures ToMap(a + [r] + b) == ToMap(a + b)[RowKey(r) := r]
    ensures ToMap(a + b) == ToMap(a + [r] + b) - {RowKey(r)}
  {
    hide RowKey, ToMap;
    var all, rest := a + [r] + b, a + b;
    SortedWithout(a, r, b);
    assert all[|a|] == r;
    if RowKey(r) in ToMap(rest) {
      var i := ToMapFrom(rest, RowKey(r));
      WithoutMiddle(a, r, b, i);
      assert false;
    }
    ToMapAt(all, |a|);
    forall k | k in ToMap(rest)
      ensures k in ToMap(all) && ToMap(all)[k] == ToMap(rest)[k]
    {
      hide SortedRows;
      var i := ToMapFrom(rest, k);
      WithoutMiddle(a, r, b, i);
      ToMapAt(rest, i);
      ToMapAt(all, if i < |a| then i else i + 1);
    }
    forall k | k in ToMap(all) && k != RowKey(r)
      ensures k in ToMap(rest)
    {
      hide SortedRows;
      var i := ToMapFrom(all, k);
      var j := if i < |a| then i else i - 1;
      WithoutMiddle(a, r, b, j);
      ToMapAt(rest, j);
    }
  }

  /** Sorted rows are determined by their map. */
  lemma {:induction false} SortedUnique(a: seq<Row>, b: seq<Row>)
    requires SortedRows(a) && SortedRows(b) && ToMap(a) == ToMap(b)
    ensures a == b
    decreases |a|
  {
    if a == [] || b == [] {
      NoEntries(a);
      NoEntries(b);
    } else {
      var m, n := |a| - 1, |b| - 1;
      SameLast(a, b);
      hide ToMap, RowKey;
      assert a == a[..m] + [a[m]] + [] && b == b[..n] + [b[n]] + [];
      ToMapMiddle(a[..m], a[m], []);
      ToMapMiddle(b[..n], b[n], []);
      assert a[..m] + [] == a[..m] && b[..n] + [] == b[..n];
      SortedUnique(a[..m], b[..n]);
    }
  }

  lemma {:induction false} NoEntries(rows: seq<Row>)
    ensures ToMap(rows) == map[] <==> rows == []
  {
    if rows != [] {
      assert RowKey(rows[|rows| - 1]) in ToMap(rows);
    }
  }

  lemma {:induction false} SameLast(a: seq<Row>, b: seq<Row>)
    requires SortedRows(a) && SortedRows(b) && ToMap(a) == ToMap(b) && a != [] && b != []
    ensures a[|a| - 1] == b[|b| - 1]
  {
    hide ToMap, RowKey;
    var m, n := |a| - 1, |b| - 1;
    ToMapAt(a, m);
    ToMapAt(b, n);
    var i := ToMapFrom(b, RowKey(a[m]));
    ToMapAt(b, i);
    var j := ToMapFrom(a, RowKey(b[n]));
    ToMapAt(a, j);
    assert !KeyLess(RowKey(b[n]), RowKey(b[i])) && !KeyLess(RowKey(a[m]), RowKey(a[j]));
  }

  // ----------------------------------------------------------- the whole table

  /** The sorted map a tree stands for, seen from a focus. */
  function ContentsOf(c: Ctx, t: Tree): map<Key, Row> {
    ToMap(RowsOf(AllLeaves(c, t)))
  }

  lemma {:induction false} RowsAround(c: Ctx, t: Tree)
    ensures RowsOf(AllLeaves(c, t)) == RowsOf(LeavesBefore(c)) + Rows(t) + RowsOf(LeavesAfter(c))
  {
    RowsOfAppend(LeavesBefore(c) + Leaves(t), LeavesAfter(c));
    RowsOfAppend(LeavesBefore(c), Leaves(t));
  }

  lemma {:induction false} LeafRows(t: Tree)
    requires t.LeafT?
    ensures Rows(t) == t.rows
  {
    assert [t][1..] == [];
    assert RowsOf([t]) == t.rows + RowsOf([]);
  }

  /** All rows of a sound table, in chain order, are strictly sorted. */
  lemma {:induction false} FocusSorted(s: Schema, c: Ctx, t: Tree, h: nat)
    requires CtxWf(s, c, h) && Wf(s, t, Lo(c), Hi(c), h)
    ensures SortedRows(RowsOf(AllLeaves(c, t)))
  {
    hide Wf, CtxWf, Plug, RowsOf, Leaves, LeavesBefore, LeavesAfter, RowKey;
    PlugWf(s, c, t, h);
    PlugLeaves(c, t);
    RowsSorted(s, Plug(c, t), None, None, h + Depth(c));
  }

  // ------------------------------------------------------------------- valid rows

  ghost predicate AllValid(s: Schema, rows: seq<Row>) {
    forall r :: r in rows ==> ValidRow(s, r)
  }

  lemma {:induction false} RowsValid(s: Schema, t: Tree, lo: Option<Key>, hi: Option<Key>, h: nat)
    requires Wf(s, t, lo, hi, h)
    ensures AllValid(s, Rows(t))
    decreases t, 1, 0
  {
    hide ValidRow, KeyBytes, LeafBytes, RowKey;
    if t.LeafT? {
      LeafRows(t);
    } else {
      hide AllValid;
      KidRowsValid(s, t, lo, hi, h, 0);
      assert t.kids[0..] == t.kids;
    }
  }

  lemma {:induction false} KidRowsValid(s: Schema, t: Tree, lo: Option<Key>, hi: Option<Key>, h: nat, i: nat)
    requires t.NodeT? && Wf(s, t, lo, hi, h) && i <= |t.kids|
    ensures AllValid(s, RowsOf(LeavesOf(t.kids[i..])))
    decreases t, 0, |t.kids| - i
  {
    hide ValidRow, ValidKey, KeyBytes;
    if i < |t.kids| {
      var rest := t.kids[i..];
      assert rest[0] == t.kids[i] && rest[1..] == t.kids[i + 1..];
      RowsValid(s, t.kids[i], KidLo(t.keys, i, lo), KidHi(t.keys, i, hi), h - 1);
      KidRowsValid(s, t, lo, hi, h, i + 1);
      RowsOfAppend(Leaves(t.kids[i]), LeavesOf(t.kids[i + 1..]));
    }
  }

  ghost predicate KeyFits(c: Ctx, k: Key) {
    AtLeast(Lo(c), k) && Below(k, Hi(c))
  }

  lemma {:induction false} SortedInsert(a: seq<Row>, r: Row, b: seq<Row>)
    requires SortedRows(a + b)
    requires forall x :: x in a ==> KeyLess(RowKey(x), RowKey(r))
    requires forall x :: x in b ==> KeyLess(RowKey(r), RowKey(x))
    ensures SortedRows(a + [r] + b)
  {
    hide RowKey;
    var all := a + [r] + b;
    forall i, j | 0 <= i < j < |all|
      ensures KeyLess(RowKey(all[i]), RowKey(all[j]))
    {
      if i != |a| && j != |a| {
        WithoutMiddle(a, r, b, if i < |a| then i else i - 1);
        WithoutMiddle(a, r, b, if j < |a| then j else j - 1);
      } else if i == |a| {
        assert all[j] in b;
      } else {
        assert all[i] in a;
      }
    }
  }

  /** The leaf whose range covers `k` decides whether `k` is in the table, and with which row. */
  lemma {:induction false} LeafDecides(s: Schema, c: Ctx, t: Tree, h: nat, k: Key)
    requires CtxWf(s, c, h) && t.LeafT? && Wf(s, t, Lo(c), Hi(c), h) && KeyFits(c, k)
    ensures match Search(RecordKeys(t.rows), k)
      case Hit(i) => k in ContentsOf(c, t) && ContentsOf(c, t)[k] == t.rows[i]
      case Miss(_) => k !in ContentsOf(c, t)
  {
    hide Wf, CtxWf, ToMap, SortedRows, RowKey, Sorted, RowsOf, AllLeaves, LeavesBefore, LeavesAfter, Search;
    var before, after := RowsOf(LeavesBefore(c)), RowsOf(LeavesAfter(c));
    var rows := RowsOf(AllLeaves(c, t));
    FocusSorted(s, c, t, h);
    RowsAround(c, t);
    LeafRows(t);
    match Search(RecordKeys(t.rows), k)
    case Hit(i) =>
      assert rows[|before| + i] == t.rows[i];
      ToMapAt(rows, |before| + i);
    case Miss(_) =>
      LeafSorted(s, c, t, h);
      if k in ToMap(rows) {
        var i := ToMapFrom(rows, k);
        NotAmong(t.rows, k);
        if i < |before| {
          BeforeBelow(s, c, h, rows[i]);
        } else if i >= |before| + |t.rows| {
          assert rows[i] == after[i - |before| - |t.rows|];
          AfterAbove(s, c, h, rows[i]);
        }
        assert false;
      }
  }

  lemma {:induction false} NotAmong(rows: seq<Row>, k: Key)
    requires k !in RecordKeys(rows)
    ensures forall i :: 0 <= i < |rows| ==> RowKey(rows[i]) != k
  {
    forall i | 0 <= i < |rows|
      ensures RowKey(rows[i]) != k
    {
      assert RecordKeys(rows)[i] in RecordKeys(rows);
    }
  }

  lemma {:induction false} LeafSorted(s: Schema, c: Ctx, t: Tree, h: nat)
    requires t.LeafT? && Wf(s, t, Lo(c), Hi(c), h)
    ensures Sorted(RecordKeys(t.rows))
  {
  }

  /** Adding a new row where the search says it belongs adds one entry to the map. */
  lemma {:induction false} LeafInsertContents(s: Schema, c: Ctx, t: Tree, h: nat, r: Row, i: nat)
    requires CtxWf(s, c, h) && t.LeafT? && Wf(s, t, Lo(c), Hi(c), h) && KeyFits(c, RowKey(r))
    requires Search(RecordKeys(t.rows), RowKey(r)) == Miss(i)
    ensures var rows' := RowsOf(LeavesBefore(c)) + (t.rows[..i] + [r] + t.rows[i..]) + RowsOf(LeavesAfter(c));
      SortedRows(rows') && RowKey(r) !in ContentsOf(c, t) && ToMap(rows') == ContentsOf(c, t)[RowKey(r) := r]
  {
    hide Wf, CtxWf, ToMap, SortedRows, RowKey, Sorted, RowsOf, AllLeaves, LeavesBefore, LeavesAfter, Search;
    var before, after := RowsOf(LeavesBefore(c)), RowsOf(LeavesAfter(c));
    var a, b := before + t.rows[..i], t.rows[i..] + after;
    FocusSorted(s, c, t, h);
    RowsAround(c, t);
    LeafRows(t);
    LeafSorted(s, c, t, h);
    assert RowsOf(AllLeaves(c, t)) == a + b;
    forall x | x in a
      ensures KeyLess(RowKey(x), RowKey(r))
    {
      if x in before {
        BeforeBelow(s, c, h, x);
      } else {
        var j :| 0 <= j < i && t.rows[j] == x;
        assert KeyLess(RecordKeys(t.rows)[j], RowKey(r));
      }
    }
    forall x | x in b
      ensures KeyLess(RowKey(r), RowKey(x))
    {
      if x in after {
        AfterAbove(s, c, h, x);
      } else {
        var j :| i <= j < |t.rows| && t.rows[j] == x;
        assert KeyLess(RowKey(r), RecordKeys(t.rows)[j]);
      }
    }
    SortedInsert(a, r, b);
    ToMapMiddle(a, r, b);
    assert before + (t.rows[..i] + [r] + t.rows[i..]) + after == a + [r] + b;
  }

  /** Taking a found row out of its leaf takes one entry out of the map. */
  lemma {:induction false} LeafRemoveContents(s: Schema, c: Ctx, t: Tree, h: nat, k: Key, i: nat)
    requires CtxWf(s, c, h) && t.LeafT? && Wf(s, t, Lo(c), Hi(c), h)
    requires Search(RecordKeys(t.rows), k) == Hit(i)
    ensures k in ContentsOf(c, t) && ContentsOf(c, t)[k] == t.rows[i]
    ensures ContentsOf(c, LeafT(t.id, t.rows[..i] + t.rows[i + 1..])) == ContentsOf(c, t) - {k}
  {
    hide Wf, CtxWf, ToMap, SortedRows, RowKey, Sorted, RowsOf, AllLeaves, LeavesBefore, LeavesAfter, Search;
    var before, after := RowsOf(LeavesBefore(c)), RowsOf(LeavesAfter(c));
    var a, b := before + t.rows[..i], t.rows[i + 1..] + after;
    var t' := LeafT(t.id, t.rows[..i] + t.rows[i + 1..]);
    FocusSorted(s, c, t, h);
    RowsAround(c, t);
    RowsAround(c, t');
    LeafRows(t);
    LeafRows(t');
    assert RowKey(t.rows[i]) == k;
    assert RowsOf(AllLeaves(c, t)) == a + [t.rows[i]] + b;
    assert RowsOf(AllLeaves(c, t')) == a + b;
    ToMapMiddle(a, t.rows[i], b);
    ToMapAt(a + [t.rows[i]] + b, |a|);
  }
}

/** What inserting into and splitting a page do to the tree, and why there is always room. */
module Splitting {
  import opened Common
  import opened Schemas
  import opened Pages
  import opened Trees

  // ------------------------------------------------------------------------ leaves

  lemma {:induction false} LeafInsertOk(s: Schema, rows: seq<Row>, lo: Option<Key>, hi: Option<Key>, r: Row, i: nat)
    requires LeafOk(s, rows, lo, hi) && ValidRow(s, r)
    requires AtLeast(lo, RowKey(r)) && Below(RowKey(r), hi)
    requires Search(RecordKeys(rows), RowKey(r)) == Miss(i)
    requires LeafBytes(rows) + LeafEntrySize(r) <= LEAF_USABLE
    ensures LeafOk(s, rows[..i] + [r] + rows[i..], lo, hi)
  {
    hide ValidRow, RowKey, Search, LeafBytes, LeafEntrySize, Sorted;
    var rows' := rows[..i] + [r] + rows[i..];
    assert LeafBytes(rows') == LeafBytes(rows) + LeafEntrySize(r) by {
      LeafBytesMiddle(rows[..i], r, rows[i..]);
      assert rows[..i] + rows[i..] == rows;
    }
    SortedInsertKeys(RecordKeys(rows), RowKey(r), i);
    assert RecordKeys(rows') == RecordKeys(rows)[..i] + [RowKey(r)] + RecordKeys(rows)[i..];
  }

  lemma {:induction false} LeafPartOk(s: Schema, rows: seq<Row>, lo: Option<Key>, hi: Option<Key>, at: nat)
    requires LeafOk(s, rows, lo, hi) && 0 < at < |rows|
    ensures var sep := RowKey(rows[at]);
      && LeafOk(s, rows[..at], lo, Some(sep))
      && LeafOk(s, rows[at..], Some(sep), hi)
      && ValidKey(s, sep) && Above(lo, sep) && Below(sep, hi)
  {
    hide ValidRow, RowKey, LeafBytes, ValidKey;
    var l, r := rows[..at], rows[at..];
    var ks := RecordKeys(rows);
    ValidRowKey(s, rows[at]);
    LeafBytesAppend(l, r);
    assert l + r == rows;
    assert RecordKeys(l) == ks[..at] && RecordKeys(r) == ks[at..];
    assert KeyLess(ks[0], ks[at]);
    forall i | 0 <= i < |r|
      ensures AtLeast(Some(ks[at]), RowKey(r[i]))
    {
      assert i > 0 ==> KeyLess(ks[at], ks[at + i]);
    }
  }

  lemma {:induction false} RowSizesBounded(s: Schema, rows: seq<Row>)
    requires forall i :: 0 <= i < |rows| ==> ValidRow(s, rows[i])
    ensures forall i :: 0 <= i < |rows| ==> 1 <= RowSizes(rows)[i] <= MAX_LEAF_ENTRY_SIZE
  {
  }

  /** A leaf too full for one more valid row has at least four rows; split by size, whichever
      half gets the row has room for it. */
  lemma {:induction false} LeafSplitRoom(s: Schema, rows: seq<Row>, r: Row)
    requires LeafBytes(rows) <= LEAF_USABLE && ValidRow(s, r)
    requires forall i :: 0 <= i < |rows| ==> ValidRow(s, rows[i])
    requires LeafBytes(rows) + LeafEntrySize(r) > LEAF_USABLE
    ensures |rows| >= 4
    ensures var at := SplitOff(RowSizes(rows), 1);
      && LeafBytes(rows[..at]) + LeafEntrySize(r) <= LEAF_USABLE
      && LeafBytes(rows[at..]) + LeafEntrySize(r) <= LEAF_USABLE
  {
    assert LeafEntrySize(r) <= MAX_LEAF_ENTRY_SIZE;
    hide ValidRow, LeafEntrySize, Sum, SplitOff;
    var sizes := RowSizes(rows);
    RowSizesBounded(s, rows);
    hide RowSizes;
    AtLeastFour(sizes, MAX_LEAF_ENTRY_SIZE);
    LeafHalves(sizes);
    RowSizesParts(rows, SplitOff(sizes, 1));
  }

  lemma {:induction false} AtLeastFour(sizes: seq<nat>, max: nat)
    requires forall i :: 0 <= i < |sizes| ==> sizes[i] <= max
    requires 3 * max < Sum(sizes)
    ensures 4 <= |sizes|
  {
    SumAtMost(sizes, max);
    assert |sizes| <= 3 ==> |sizes| * max <= 3 * max;
  }

  lemma {:induction false} RowSizesParts(rows: seq<Row>, at: nat)
    requires at <= |rows|
    ensures RowSizes(rows[..at]) == RowSizes(rows)[..at] && RowSizes(rows[at..]) == RowSizes(rows)[at..]
  {
  }

  lemma {:induction false} KeySizesParts(keys: seq<Key>, at: nat)
    requires at < |keys|
    ensures KeySizes(keys[..at]) == KeySizes(keys)[..at] && KeySizes(keys[at + 1..]) == KeySizes(keys)[at + 1..]
  {
  }

  /** The halves of a split leaf: at most 3039 and 2028 bytes. */
  lemma {:induction false} LeafHalves(sizes: seq<nat>)
    requires 2 <= |sizes| && Sum(sizes) <= LEAF_USABLE
    requires forall i :: 0 <= i < |sizes| ==> 1 <= sizes[i] <= MAX_LEAF_ENTRY_SIZE
    ensures var at := SplitOff(sizes, 1); Sum(sizes[..at]) <= 3039 && Sum(sizes[at..]) <= 2028
  {
    hide SplitOff, Sum;
    SplitHalves(sizes, 1, MAX_LEAF_ENTRY_SIZE);
    var at := SplitOff(sizes, 1);
    if |sizes| - at == 1 {
      assert sizes[at..] == [sizes[at]];
      SumOne(sizes[at]);
    }
  }

  // --------------------------------------------------------------- internal pages

  lemma {:induction false} KeySizesBounded(s: Schema, keys: seq<Key>)
    requires forall i :: 0 <= i < |keys| ==> ValidKey(s, keys[i])
    ensures forall i :: 0 <= i < |keys| ==> 1 <= KeySizes(keys)[i] <= MAX_INTERNAL_ENTRY_SIZE
  {
  }

  /** An internal page too full for one more separator has at least four keys; split by size,
      whichever half gets the separator has room for it, with two bytes to spare. */
  lemma {:induction false} InternalSplitRoom(s: Schema, keys: seq<Key>, sep: Key)
    requires KeyBytes(keys) <= INTERNAL_USABLE && ValidKey(s, sep)
    requires forall i :: 0 <= i < |keys| ==> ValidKey(s, keys[i])
    requires KeyBytes(keys) + InternalEntrySize(sep) > INTERNAL_USABLE
    ensures |keys| >= 4
    ensures var at := SplitOff(KeySizes(keys), 2);
      && KeyBytes(keys[..at]) + InternalEntrySize(sep) + 2 <= INTERNAL_USABLE
      && KeyBytes(keys[at + 1..]) + InternalEntrySize(sep) + 2 <= INTERNAL_USABLE
  {
    assert InternalEntrySize(sep) <= MAX_INTERNAL_ENTRY_SIZE;
    hide ValidKey, InternalEntrySize, Sum, SplitOff;
    var sizes := KeySizes(keys);
    KeySizesBounded(s, keys);
    hide KeySizes;
    AtLeastFour(sizes, MAX_INTERNAL_ENTRY_SIZE);
    InternalHalves(sizes);
    KeySizesParts(keys, SplitOff(sizes, 2));
  }

  /** The halves of a split internal page: at most 3047 and 2033 bytes. */
  lemma {:induction false} InternalHalves(sizes: seq<nat>)
    requires 3 <= |sizes| && Sum(sizes) <= INTERNAL_USABLE
    requires forall i :: 0 <= i < |sizes| ==> 1 <= sizes[i] <= MAX_INTERNAL_ENTRY_SIZE
    ensures var at := SplitOff(sizes, 2); Sum(sizes[..at]) <= 3047 && Sum(sizes[at + 1..]) <= 2033
  {
    hide SplitOff, Sum;
    SplitHalves(sizes, 2, MAX_INTERNAL_ENTRY_SIZE);
    var at := SplitOff(sizes, 2);
    SumSplit(sizes[at..], 1);
    assert sizes[at..][1..] == sizes[at + 1..];
    if |sizes| - at == 2 {
      assert sizes[at + 1..] == [sizes[at + 1]];
      SumOne(sizes[at + 1]);
    }
  }

  lemma {:induction false} KeysInsertOk(s: Schema, keys: seq<Key>, lo: Option<Key>, hi: Option<Key>, sep: Key, i: nat)
    requires KeysOk(s, keys, lo, hi) && ValidKey(s, sep) && i <= |keys|
    requires Above(KidLo(keys, i, lo), sep) && Below(sep, KidHi(keys, i, hi))
    requires KeyBytes(keys) + InternalEntrySize(sep) <= INTERNAL_USABLE
    ensures KeysOk(s, keys[..i] + [sep] + keys[i..], lo, hi)
  {
    hide ValidKey, KeyBytes, InternalEntrySize, KidLo, KidHi, Sorted;
    var keys' := keys[..i] + [sep] + keys[i..];
    assert KeyBytes(keys') == KeyBytes(keys) + InternalEntrySize(sep) by {
      KeyBytesMiddle(keys[..i], sep, keys[i..]);
      assert keys[..i] + keys[i..] == keys;
    }
    SearchGap(keys, sep, i, lo, hi);
    GapBounds(keys, sep, i, lo, hi);
    SortedInsertKeys(keys, sep, i);
  }

  lemma {:induction false} GapBounds(keys: seq<Key>, sep: Key, i: nat, lo: Option<Key>, hi: Option<Key>)
    requires i <= |keys|
    requires forall j :: 0 <= j < |keys| ==> Above(lo, keys[j]) && Below(keys[j], hi)
    requires Above(KidLo(keys, i, lo), sep) && Below(sep, KidHi(keys, i, hi))
    ensures Above(lo, sep) && Below(sep, hi)
  {
  }

  lemma {:induction false} SortedInsertKeys(keys: seq<Key>, sep: Key, i: nat)
    requires Sorted(keys) && Search(keys, sep) == Miss(i)
    ensures Sorted(keys[..i] + [sep] + keys[i..])
  {
    hide Search;
  }

  /** A key strictly between two neighbouring separators is found to belong between them. */
  lemma {:induction false} SearchGap(keys: seq<Key>, sep: Key, i: nat, lo: Option<Key>, hi: Option<Key>)
    requires Sorted(keys) && i <= |keys|
    requires Above(KidLo(keys, i, lo), sep) && Below(sep, KidHi(keys, i, hi))
    ensures Search(keys, sep) == Miss(i)
  {
    assert forall j :: 0 <= j < i ==> KeyLess(keys[j], sep);
    assert forall j :: i <= j < |keys| ==> KeyLess(sep, keys[j]);
  }

  lemma {:induction false} KeysPartOk(s: Schema, keys: seq<Key>, lo: Option<Key>, hi: Option<Key>, at: nat)
    requires KeysOk(s, keys, lo, hi) && at < |keys|
    ensures KeysOk(s, keys[..at], lo, Some(keys[at])) && KeysOk(s, keys[at + 1..], Some(keys[at]), hi)
    ensures ValidKey(s, keys[at]) && Above(lo, keys[at]) && Below(keys[at], hi)
  {
    hide ValidKey, KeyBytes;
    assert KeyBytes(keys[..at]) <= KeyBytes(keys) && KeyBytes(keys[at + 1..]) <= KeyBytes(keys) by {
      KeyBytesMiddle(keys[..at], keys[at], keys[at + 1..]);
      assert keys[..at] + [keys[at]] + keys[at + 1..] == keys;
    }
  }

  // ------------------------------------------------ nodes with one child under repair

  /** Every child but the one at `i` is sound. */
  ghost predicate KidsBut(s: Schema, keys: seq<Key>, kids: seq<Tree>, lo: Option<Key>, hi: Option<Key>,
                          h: nat, i: int)
    requires |kids| == |keys| + 1
  {
    forall j :: 0 <= j < |kids| && j != i ==> Wf(s, kids[j], KidLo(keys, j, lo), KidHi(keys, j, hi), h)
  }

  /** Child `i` of a node gives way to two children with a separator between them. */
  function WithKid(id: PageId, keys: seq<Key>, kids: seq<Tree>, i: nat, l: Tree, sep: Key, r: Tree): Tree
    requires i <= |keys| && |kids| == |keys| + 1
  {
    NodeT(id, keys[..i] + [sep] + keys[i..], kids[..i] + [l, r] + kids[i + 1..])
  }

  lemma {:induction false} WithKidOk(s: Schema, id: PageId, keys: seq<Key>, kids: seq<Tree>, i: nat, l: Tree, sep: Key,
                                     r: Tree,
                  lo: Option<Key>, hi: Option<Key>, h: nat)
    requires i <= |keys| && |kids| == |keys| + 1
    requires KeysOk(s, keys, lo, hi) && KidsBut(s, keys, kids, lo, hi, h, i)
    requires KeyBytes(keys) + InternalEntrySize(sep) <= INTERNAL_USABLE
    requires ValidKey(s, sep) && Above(KidLo(keys, i, lo), sep) && Below(sep, KidHi(keys, i, hi))
    requires Wf(s, l, KidLo(keys, i, lo), Some(sep), h) && Wf(s, r, Some(sep), KidHi(keys, i, hi), h)
    ensures Wf(s, WithKid(id, keys, kids, i, l, sep, r), lo, hi, h + 1)
  {
    hide Wf, KeysOk, KeyBytes, ValidKey, InternalEntrySize;
    KeysInsertOk(s, keys, lo, hi, sep, i);
    var t := WithKid(id, keys, kids, i, l, sep, r);
    forall j | 0 <= j < |t.kids|
      ensures Wf(s, t.kids[j], KidLo(t.keys, j, lo), KidHi(t.keys, j, hi), h)
    {
      if j < i {
        assert t.kids[j] == kids[j];
      } else if j > i + 1 {
        assert t.kids[j] == kids[j - 1];
      }
    }
    KidsAllOk(s, id, t.keys, t.kids, lo, hi, h, -1);
  }

  /** The children of the two halves of a split, one child possibly under repair. */
  lemma {:induction false} KidsPartOk(s: Schema, keys: seq<Key>, kids: seq<Tree>, lo: Option<Key>, hi: Option<Key>,
                   h: nat, i: int, at: nat)
    requires at < |keys| && |kids| == |keys| + 1 && KidsBut(s, keys, kids, lo, hi, h, i)
    ensures KidsBut(s, keys[..at], kids[..at + 1], lo, Some(keys[at]), h, i)
    ensures KidsBut(s, keys[at + 1..], kids[at + 1..], Some(keys[at]), hi, h, i - at - 1)
  {
    hide Wf;
  }

  lemma {:induction false} KidsAllOk(s: Schema, id: PageId, keys: seq<Key>, kids: seq<Tree>, lo: Option<Key>,
                                     hi: Option<Key>, h: nat, i: int)
    requires |kids| == |keys| + 1 && KeysOk(s, keys, lo, hi)
    requires KidsBut(s, keys, kids, lo, hi, h, i) && !(0 <= i < |kids|)
    ensures Wf(s, NodeT(id, keys, kids), lo, hi, h + 1)
  {
    hide KeysOk;
  }
}

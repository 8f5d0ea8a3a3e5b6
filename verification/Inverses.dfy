/** Splitting a page and merging the halves again: `split_page` and `merge_from_right` in `src/page`. */
module Inverses {
  import opened Common
  import opened Schemas
  import opened Pages

  /** A leaf or internal page within its budget, keys in order. */
  predicate InOrder(p: Page) {
    match p.body
    case Leaf(rows, _, _) => Sorted(RecordKeys(rows)) && LeafBytes(rows) <= LEAF_USABLE
    case Internal(keys, children) => Sorted(keys) && KeyBytes(keys) <= INTERNAL_USABLE && |children| == |keys| + 1
    case _ => false
  }

  /** What the separator weighs: nothing in a leaf, where it is only a copy. */
  function SeparatorSize(p: Page, sep: Key): nat {
    if p.body.Internal? then InternalEntrySize(sep) else 0
  }

  /** A page that can be split comes back whole when its halves are merged with the separator that the
      split returned, and no byte is lost or made up on the way. */
  lemma {:induction false} SplitThenMerge(p: Page, newId: PageId)
    requires InOrder(p) && SplitPage(p, newId).Ok?
    ensures var (l, sep, r) := SplitPage(p, newId).value;
      && MergeFromRight(l, r, sep) == Ok((p, Page(newId, 0, Free(None))))
      && EntriesSize(l) + SeparatorSize(p, sep) + EntriesSize(r) == EntriesSize(p)
      && 1 <= EntriesSize(l) && 1 <= EntriesSize(r)
  {
    if p.body.Leaf? {
      SplitLeafThenMerge(p, newId);
    } else {
      SplitInternalThenMerge(p, newId);
    }
  }

  lemma {:induction false} SplitLeafThenMerge(p: Page, newId: PageId)
    requires p.body.Leaf? && InOrder(p) && |p.body.records| >= 2
    ensures var (l, sep, r) := SplitPage(p, newId).value;
      && MergeFromRight(l, r, sep) == Ok((p, Page(newId, 0, Free(None))))
      && EntriesSize(l) + EntriesSize(r) == EntriesSize(p) && 1 <= EntriesSize(l) && 1 <= EntriesSize(r)
  {
    hide LeafBytes, SplitOff, RowSizes, LeafEntrySize, RowKey, KeyLess;
    var rows := p.body.records;
    var at := SplitOff(RowSizes(rows), 1);
    assert rows == rows[..at] + rows[at..];
    LeafBytesAppend(rows[..at], rows[at..]);
    assert KeyLess(RecordKeys(rows)[at - 1], RecordKeys(rows)[at]);
    SomeBytes(rows[..at]);
    SomeBytes(rows[at..]);
  }

  lemma {:induction false} SomeBytes(rows: seq<Row>)
    requires rows != []
    ensures 1 <= LeafBytes(rows)
  {
    hide LeafBytes, LeafEntrySize;
    assert rows == [rows[0]] + rows[1..];
    LeafBytesAppend([rows[0]], rows[1..]);
    LeafBytesOne(rows[0]);
  }

  lemma {:induction false} SomeKeyBytes(keys: seq<Key>)
    requires keys != []
    ensures 1 <= KeyBytes(keys)
  {
    hide KeyBytes, InternalEntrySize;
    assert keys == [keys[0]] + keys[1..];
    KeyBytesAppend([keys[0]], keys[1..]);
    KeyBytesOne(keys[0]);
  }

  lemma {:induction false} SplitInternalThenMerge(p: Page, newId: PageId)
    requires p.body.Internal? && InOrder(p) && |p.body.keys| >= 3
    ensures var (l, sep, r) := SplitPage(p, newId).value;
      && MergeFromRight(l, r, sep) == Ok((p, Page(newId, 0, Free(None))))
      && EntriesSize(l) + InternalEntrySize(sep) + EntriesSize(r) == EntriesSize(p) && 1 <= EntriesSize(l)
      && 1 <= EntriesSize(r)
  {
    hide KeyBytes, SplitOff, KeySizes, InternalEntrySize, KeyLess;
    var keys, children := p.body.keys, p.body.children;
    var at := SplitOff(KeySizes(keys), 2);
    assert keys == keys[..at] + [keys[at]] + keys[at + 1..];
    assert children == children[..at + 1] + children[at + 1..];
    KeyBytesMiddle(keys[..at], keys[at], keys[at + 1..]);
    assert KeyLess(keys[at - 1], keys[at]) && KeyLess(keys[at], keys[at + 1]);
    SomeKeyBytes(keys[..at]);
    SomeKeyBytes(keys[at + 1..]);
  }
}

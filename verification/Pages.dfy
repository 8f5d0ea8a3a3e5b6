/** Pages and the operations on one or two of them: `src/page/mod.rs`, `src/page/leaf.rs`,
    `src/page/internal.rs`. A page is a value that is moved into and out of its frame, so an
    operation that edits a page in place is a function from the old page to the new one. */
module Pages {
  import opened Common
  import opened Schemas

  const PAGE_SIZE: nat := 4096
  const MAX_LEAF_HEADER_SIZE: nat := 41
  const MAX_INTERNAL_HEADER_SIZE: nat := 23
  const LEAF_USABLE: nat := PAGE_SIZE - MAX_LEAF_HEADER_SIZE
  const INTERNAL_USABLE: nat := PAGE_SIZE - MAX_INTERNAL_HEADER_SIZE - PAGE_ID_SIZE
  const LEAF_UNDERFULL_BYTES: nat := LEAF_USABLE / 2
  const INTERNAL_UNDERFULL_BYTES: nat := (INTERNAL_USABLE - MAX_INTERNAL_ENTRY_SIZE) / 2

  datatype PageId = PageId(table: nat, num: nat)

  datatype Body =
    | Leaf(records: seq<Row>, next: Option<PageId>, prev: Option<PageId>)
    | Internal(keys: seq<Key>, children: seq<PageId>)
    | Meta(root: PageId, pageCount: nat, freeHead: Option<PageId>, schema: Schema, name: seq<Byte>)
    | Free(nextFree: Option<PageId>)

  /** `lsn` is 0 for a page that was never logged. */
  datatype Page = Page(id: PageId, lsn: Bits64, body: Body)

  /** `Panic` stands for an out-of-range index in the source, which aborts the program. */
  datatype PageError =
    | Panic | WrongPageType | DuplicateKey | PageFull | KeyTooLongForPage | TooSmallToSplit
    | InvalidMerge | InvalidBorrow | KeyNotInOrder | MissingKey
    | NotFreeListHead | WrongTable | ReservedPage | PageOutOfRange | AlreadyFree

  // ------------------------------------------------------------ sizes of entries

  function RowSizes(rows: seq<Row>): (s: seq<nat>)
    ensures |s| == |rows|
  {
    seq(|rows|, i requires 0 <= i < |rows| => LeafEntrySize(rows[i]))
  }

  function KeySizes(keys: seq<Key>): (s: seq<nat>)
    ensures |s| == |keys|
  {
    seq(|keys|, i requires 0 <= i < |keys| => InternalEntrySize(keys[i]))
  }

  function LeafBytes(rows: seq<Row>): nat { Sum(RowSizes(rows)) }

  function KeyBytes(keys: seq<Key>): nat { Sum(KeySizes(keys)) }

  function SchemaSize(s: Schema): nat {
    VarintLen(|s.columns|) + ColumnsSize(s.columns)
  }

  function ColumnsSize(cs: seq<Column>): nat {
    if cs == [] then 0
    else 2 + VarintLen(|cs[0].name|) + |cs[0].name| + ColumnsSize(cs[1..])
  }

  /** `entries_size` */
  function EntriesSize(p: Page): nat {
    match p.body
    case Internal(keys, _) => KeyBytes(keys)
    case Leaf(records, _, _) => LeafBytes(records)
    case _ => 0
  }

  /** `free_space`: what is left with the largest possible header, or None if the page overflows. */
  function FreeSpace(p: Page): Option<nat> {
    var used := match p.body
      case Internal(keys, _) => MAX_INTERNAL_HEADER_SIZE + KeyBytes(keys) + PAGE_ID_SIZE
      case Leaf(records, _, _) => MAX_LEAF_HEADER_SIZE + LeafBytes(records)
      case Free(_) => MAX_INTERNAL_HEADER_SIZE + 1 + PAGE_ID_SIZE
      case Meta(_, _, _, schema, name) =>
        MAX_INTERNAL_HEADER_SIZE + PAGE_ID_SIZE + 4 + 1 + PAGE_ID_SIZE + SchemaSize(schema)
          + VarintLen(|name|) + |name|;
    if used <= PAGE_SIZE then Some(PAGE_SIZE - used) else None
  }

  predicate HasRoom(p: Page, n: nat) {
    FreeSpace(p).Some? && n <= FreeSpace(p).value
  }

  predicate IsUnderfull(p: Page) {
    match p.body
    case Leaf(_, _, _) => EntriesSize(p) < LEAF_UNDERFULL_BYTES
    case Internal(_, _) => EntriesSize(p) < INTERNAL_UNDERFULL_BYTES
    case _ => false
  }

  predicate IsDeleteSafe(p: Page) {
    match p.body
    case Internal(_, _) =>
      HasRoom(p, MAX_INTERNAL_ENTRY_SIZE)
      && EntriesSize(p) >= INTERNAL_UNDERFULL_BYTES + MAX_INTERNAL_ENTRY_SIZE
    case Leaf(_, _, _) => EntriesSize(p) >= LEAF_UNDERFULL_BYTES + MAX_LEAF_ENTRY_SIZE
    case _ => false
  }

  predicate IsSplitSafe(p: Page) {
    p.body.Internal? && HasRoom(p, MAX_INTERNAL_ENTRY_SIZE)
  }

  predicate CanInsert(p: Page, r: Row) {
    p.body.Leaf? && HasRoom(p, LeafEntrySize(r))
  }

  predicate CanInsertSeparator(p: Page, k: Key) {
    p.body.Internal? && HasRoom(p, InternalEntrySize(k))
  }

  // ------------------------------------------------------------------ searching

  predicate Sorted(keys: seq<Key>) {
    forall i, j :: 0 <= i < j < |keys| ==> KeyLess(keys[i], keys[j])
  }

  function RecordKeys(rows: seq<Row>): (ks: seq<Key>)
    ensures |ks| == |rows|
    ensures forall i :: 0 <= i < |ks| ==> ks[i] == RowKey(rows[i])
  {
    seq(|rows|, i requires 0 <= i < |rows| => RowKey(rows[i]))
  }

  datatype Found = Hit(at: nat) | Miss(at: nat)

  function LowerBound(keys: seq<Key>, k: Key): (i: nat)
    ensures i <= |keys|
    ensures forall j :: 0 <= j < i ==> KeyLess(keys[j], k)
    ensures i < |keys| ==> !KeyLess(keys[i], k)
  {
    if keys == [] || !KeyLess(keys[0], k) then 0 else 1 + LowerBound(keys[1..], k)
  }

  /** What `binary_search` answers on a sorted slice: the position of `k`, or where it belongs. */
  function Search(keys: seq<Key>, k: Key): (f: Found)
    ensures f.at <= |keys|
    ensures f.Hit? ==> f.at < |keys| && keys[f.at] == k
    ensures Sorted(keys) && f.Miss? ==> k !in keys
    ensures forall j :: 0 <= j < f.at ==> KeyLess(keys[j], k)
    ensures Sorted(keys) && f.Miss? ==> forall j :: f.at <= j < |keys| ==> KeyLess(k, keys[j])
  {
    var i := LowerBound(keys, k);
    if i < |keys| && keys[i] == k then Hit(i)
    else
      assert Sorted(keys) ==> forall j :: i <= j < |keys| ==> KeyLess(k, keys[j]) by {
        if i < |keys| && Rank(keys[i]) == Rank(k) { RankInjective(keys[i], k); }
      }
      Miss(i)
  }

  /** `find_child_index`: a key equal to a separator belongs to the right of it. */
  function FindChildIndex(keys: seq<Key>, k: Key): (i: nat)
    ensures i <= |keys|
  {
    match Search(keys, k)
    case Hit(i) => i + 1
    case Miss(i) => i
  }

  // -------------------------------------------------------------- leaf operations

  function LeafInsert(p: Page, r: Row): (res: Result<Page, PageError>) {
    if !p.body.Leaf? then Err(WrongPageType)
    else
      match Search(RecordKeys(p.body.records), RowKey(r))
      case Hit(_) => Err(DuplicateKey)
      case Miss(i) =>
        if !CanInsert(p, r) then Err(PageFull)
        else Ok(p.(body := p.body.(records := p.body.records[..i] + [r] + p.body.records[i..])))
  }

  function LeafGet(p: Page, k: Key): (res: Result<Option<Row>, PageError>) {
    if !p.body.Leaf? then Err(WrongPageType)
    else
      match Search(RecordKeys(p.body.records), k)
      case Hit(i) => Ok(Some(p.body.records[i]))
      case Miss(_) => Ok(None)
  }

  function LeafRemove(p: Page, k: Key): (res: Result<(Page, Option<Row>), PageError>) {
    if !p.body.Leaf? then Err(WrongPageType)
    else
      match Search(RecordKeys(p.body.records), k)
      case Hit(i) =>
        Ok((p.(body := p.body.(records := p.body.records[..i] + p.body.records[i + 1..])),
            Some(p.body.records[i])))
      case Miss(_) => Ok((p, None))
  }

  function LeafMergeFromRight(p: Page, right: Page): (res: Result<(Page, Page), PageError>) {
    if !p.body.Leaf? || !right.body.Leaf? then Err(WrongPageType)
    else if !HasRoom(p, EntriesSize(right)) then Err(PageFull)
    else if p.body.next != Some(right.id) then Err(InvalidMerge)
    else
      var l, r := p.body.records, right.body.records;
      if l != [] && r != [] && !KeyLess(RowKey(l[|l| - 1]), RowKey(r[0])) then Err(InvalidMerge)
      else Ok((p.(body := Leaf(l + r, right.body.next, p.body.prev)), right.(body := Free(None))))
  }

  function LeafBorrowFromRight(p: Page, right: Page): (res: Result<(Page, Page, Key), PageError>) {
    if !p.body.Leaf? || !right.body.Leaf? then Err(WrongPageType)
    else if p.body.next != Some(right.id) then Err(InvalidBorrow)
    else
      var l, r := p.body.records, right.body.records;
      if r == [] then Err(InvalidBorrow)
      else if l != [] && !KeyLess(RowKey(l[|l| - 1]), RowKey(r[0])) then Err(InvalidBorrow)
      else if |r| < 2 then Err(InvalidBorrow)
      else if !HasRoom(p, LeafEntrySize(r[0])) then Err(PageFull)
      else Ok((p.(body := p.body.(records := l + [r[0]])),
               right.(body := right.body.(records := r[1..])),
               RowKey(r[1])))
  }

  function LeafBorrowFromLeft(p: Page, left: Page): (res: Result<(Page, Page, Key), PageError>) {
    if !p.body.Leaf? || !left.body.Leaf? then Err(WrongPageType)
    else if p.body.prev != Some(left.id) then Err(InvalidBorrow)
    else
      var l, r := left.body.records, p.body.records;
      if l == [] then Err(InvalidBorrow)
      else
        var last := l[|l| - 1];
        if r != [] && !KeyLess(RowKey(last), RowKey(r[0])) then Err(InvalidBorrow)
        else if |l| < 2 then Err(InvalidBorrow)
        else if !HasRoom(p, LeafEntrySize(last)) then Err(PageFull)
        else Ok((p.(body := p.body.(records := [last] + r)),
                 left.(body := left.body.(records := l[..|l| - 1])),
                 RowKey(last)))
  }

  // ---------------------------------------------------------- internal operations

  function InternalInsert(p: Page, sep: Key, child: PageId): (res: Result<Page, PageError>) {
    if InternalEntrySize(sep) > MAX_INTERNAL_ENTRY_SIZE then Err(KeyTooLongForPage)
    else if !p.body.Internal? then Err(WrongPageType)
    else
      var keys, children := p.body.keys, p.body.children;
      match Search(keys, sep)
      case Hit(_) => Err(DuplicateKey)
      case Miss(i) =>
        if !CanInsertSeparator(p, sep) then Err(PageFull)
        else if |children| <= i then Err(Panic)
        else Ok(p.(body := Internal(keys[..i] + [sep] + keys[i..],
                                    children[..i + 1] + [child] + children[i + 1..])))
  }

  predicate InternalCanMergeWith(p: Page, right: Page, sep: Key) {
    p.body.Internal? && right.body.Internal?
    && HasRoom(p, EntriesSize(right) + InternalEntrySize(sep))
  }

  function InternalMergeFromRight(p: Page, right: Page, sep: Key): (res: Result<(Page, Page), PageError>) {
    if !p.body.Internal? || !right.body.Internal? then Err(WrongPageType)
    else if !InternalCanMergeWith(p, right, sep) then Err(PageFull)
    else
      var l, r := p.body.keys, right.body.keys;
      if r != [] && !KeyLess(sep, r[0]) then Err(InvalidMerge)
      else if l != [] && !KeyLess(l[|l| - 1], sep) then Err(InvalidMerge)
      else Ok((p.(body := Internal(l + [sep] + r, p.body.children + right.body.children)),
               right.(body := Free(None))))
  }

  function InternalBorrowFromRight(p: Page, right: Page, sep: Key): (res: Result<(Page, Page, Key), PageError>) {
    if !p.body.Internal? || !right.body.Internal? then Err(WrongPageType)
    else
      var l, r := p.body.keys, right.body.keys;
      if r == [] then Err(InvalidBorrow)
      else if l != [] && !KeyLess(l[|l| - 1], sep) then Err(InvalidBorrow)
      else if !KeyLess(sep, r[0]) then Err(InvalidBorrow)
      else if !HasRoom(p, InternalEntrySize(sep)) then Err(PageFull)
      else if right.body.children == [] then Err(Panic)
      else Ok((p.(body := Internal(l + [sep], p.body.children + [right.body.children[0]])),
               right.(body := Internal(r[1..], right.body.children[1..])),
               r[0]))
  }

  function InternalBorrowFromLeft(p: Page, left: Page, sep: Key): (res: Result<(Page, Page, Key), PageError>) {
    if !p.body.Internal? || !left.body.Internal? then Err(WrongPageType)
    else
      var l, r := left.body.keys, p.body.keys;
      if l == [] then Err(InvalidBorrow)
      else if r != [] && !KeyLess(sep, r[0]) then Err(InvalidBorrow)
      else if !KeyLess(l[|l| - 1], sep) then Err(InvalidBorrow)
      else if !HasRoom(p, InternalEntrySize(sep)) then Err(PageFull)
      else
        var lc := left.body.children;
        if lc == [] then Err(Panic)
        else Ok((p.(body := Internal([sep] + r, [lc[|lc| - 1]] + p.body.children)),
                 left.(body := Internal(l[..|l| - 1], lc[..|lc| - 1])),
                 l[|l| - 1]))
  }

  function InternalRemove(p: Page, k: Key): (res: Result<(Page, Option<(Key, PageId)>), PageError>) {
    if !p.body.Internal? then Err(WrongPageType)
    else
      var keys, children := p.body.keys, p.body.children;
      match Search(keys, k)
      case Miss(_) => Ok((p, None))
      case Hit(i) =>
        if |children| <= i + 1 then Err(Panic)
        else Ok((p.(body := Internal(keys[..i] + keys[i + 1..], children[..i + 1] + children[i + 2..])),
                 Some((k, children[i + 1]))))
  }

  function InternalReplaceKey(p: Page, old_: Key, new_: Key): (res: Result<Page, PageError>) {
    if !p.body.Internal? then Err(WrongPageType)
    else
      var keys := p.body.keys;
      match Search(keys, old_)
      case Miss(_) => Err(MissingKey)
      case Hit(i) =>
        if !(i == 0 || KeyLess(keys[i - 1], new_)) then Err(KeyNotInOrder)
        else if !(i + 1 == |keys| || KeyLess(new_, keys[i + 1])) then Err(KeyNotInOrder)
        else if !ReplacementFits(p, old_, new_) then Err(PageFull)
        else Ok(p.(body := p.body.(keys := keys[i := new_])))
  }

  /** The capacity guard of `internal_replace_key`. */
  predicate ReplacementFits(p: Page, old_: Key, new_: Key) {
    FreeSpace(p).Some? && InternalEntrySize(new_) <= FreeSpace(p).value + InternalEntrySize(old_)
  }

  // -------------------------------------------------------------------- splitting

  /** First position from `i` on at which the running total reaches `target`. */
  function FirstReaching(sizes: seq<nat>, target: nat, i: nat): (at: nat)
    requires i < |sizes| && target <= Sum(sizes)
    requires i == 0 || Sum(sizes[..i]) < target
    ensures at < |sizes|
    ensures target <= Sum(sizes[..at + 1])
    ensures at == 0 || Sum(sizes[..at]) < target
    decreases |sizes| - i
  {
    assert sizes[..|sizes|] == sizes;
    if target <= Sum(sizes[..i + 1]) then i else FirstReaching(sizes, target, i + 1)
  }

  function SplitPoint(sizes: seq<nat>): (at: nat)
    requires sizes != []
    ensures at < |sizes|
    ensures Sum(sizes) / 2 <= Sum(sizes[..at + 1])
    ensures at == 0 || Sum(sizes[..at]) < Sum(sizes) / 2
  {
    FirstReaching(sizes, Sum(sizes) / 2, 0)
  }

  /** How many entries stay in the left page, given that at least `keep` must go right. */
  function SplitOff(sizes: seq<nat>, keep: nat): (at: nat)
    requires 1 <= keep < |sizes|
    ensures 1 <= at <= |sizes| - keep
  {
    var at := SplitPoint(sizes) + 1;
    if |sizes| - keep < at then |sizes| - keep else at
  }

  function SplitPage(p: Page, newId: PageId): (res: Result<(Page, Key, Page), PageError>) {
    match p.body
    case Internal(keys, children) =>
      if |keys| < 3 then Err(TooSmallToSplit)
      else
        var at := SplitOff(KeySizes(keys), 2);
        if |children| < at + 1 then Err(Panic)
        else Ok((p.(body := Internal(keys[..at], children[..at + 1])),
                 keys[at],
                 Page(newId, 0, Internal(keys[at + 1..], children[at + 1..]))))
    case Leaf(records, next, prev) =>
      if |records| < 2 then Err(TooSmallToSplit)
      else
        var at := SplitOff(RowSizes(records), 1);
        Ok((p.(body := Leaf(records[..at], Some(newId), prev)),
            RowKey(records[at]),
            Page(newId, 0, Leaf(records[at..], next, Some(p.id)))))
    case _ => Err(WrongPageType)
  }

  // -------------------------------------------------- dispatch over the page kind

  predicate CanMergeWith(p: Page, right: Page, sep: Key) {
    if p.body.Internal? then InternalCanMergeWith(p, right, sep)
    else p.body.Leaf? && right.body.Leaf? && HasRoom(p, EntriesSize(right))
  }

  function MergeFromRight(p: Page, right: Page, sep: Key): Result<(Page, Page), PageError> {
    if p.body.Internal? then InternalMergeFromRight(p, right, sep) else LeafMergeFromRight(p, right)
  }

  function BorrowFromRight(p: Page, right: Page, sep: Key): Result<(Page, Page, Key), PageError> {
    if p.body.Internal? then InternalBorrowFromRight(p, right, sep) else LeafBorrowFromRight(p, right)
  }

  function BorrowFromLeft(p: Page, left: Page, sep: Key): Result<(Page, Page, Key), PageError> {
    if p.body.Internal? then InternalBorrowFromLeft(p, left, sep) else LeafBorrowFromLeft(p, left)
  }

  // -------------------------------------------------------- facts about the sizes

  /** The thresholds in bytes of entries: a leaf is underfull below 2027 and delete-safe from 3040 on, an internal page
      below 1524 and from 2540 on with room for a greatest separator. */
  lemma {:induction false} Thresholds(p: Page)
    ensures IsUnderfull(p) <==>
      (p.body.Leaf? && LeafBytes(p.body.records) < 2027) || (p.body.Internal? && KeyBytes(p.body.keys) < 1524)
    ensures IsDeleteSafe(p) <==>
      || (p.body.Leaf? && LeafBytes(p.body.records) >= 3040)
      || (p.body.Internal? && 2540 <= KeyBytes(p.body.keys) <= 3049)
    ensures IsSplitSafe(p) <==> p.body.Internal? && KeyBytes(p.body.keys) <= 3049
  {
    hide LeafBytes, KeyBytes;
  }

  /** Two underfull neighbours can always merge, whatever separator of legal size is between them. */
  lemma {:induction false} UnderfullMerge(p: Page, right: Page, sep: Key)
    requires IsUnderfull(p) && IsUnderfull(right) && (p.body.Leaf? <==> right.body.Leaf?)
    requires InternalEntrySize(sep) <= MAX_INTERNAL_ENTRY_SIZE
    ensures CanMergeWith(p, right, sep)
  {
    hide LeafBytes, KeyBytes, InternalEntrySize;
  }

  lemma {:induction false} RowRoom(p: Page, r: Row)
    requires p.body.Leaf?
    ensures CanInsert(p, r) <==> LeafBytes(p.body.records) + LeafEntrySize(r) <= LEAF_USABLE
    ensures CanInsert(p, r) <==> HasRoom(p, LeafEntrySize(r))
  {
    hide LeafBytes, LeafEntrySize;
  }

  lemma {:induction false} KeyRoom(p: Page, k: Key)
    requires p.body.Internal?
    ensures CanInsertSeparator(p, k) <==> KeyBytes(p.body.keys) + InternalEntrySize(k) <= INTERNAL_USABLE
    ensures CanInsertSeparator(p, k) <==> HasRoom(p, InternalEntrySize(k))
  {
    hide KeyBytes, InternalEntrySize;
  }

  lemma {:induction false} LeafBytesAppend(a: seq<Row>, b: seq<Row>)
    ensures LeafBytes(a + b) == LeafBytes(a) + LeafBytes(b)
  {
    assert RowSizes(a + b) == RowSizes(a) + RowSizes(b);
    SumAppend(RowSizes(a), RowSizes(b));
  }

  lemma {:induction false} KeyBytesAppend(a: seq<Key>, b: seq<Key>)
    ensures KeyBytes(a + b) == KeyBytes(a) + KeyBytes(b)
  {
    assert KeySizes(a + b) == KeySizes(a) + KeySizes(b);
    SumAppend(KeySizes(a), KeySizes(b));
  }

  lemma {:induction false} LeafBytesOne(r: Row)
    ensures LeafBytes([r]) == LeafEntrySize(r)
  {
    assert RowSizes([r]) == [LeafEntrySize(r)];
    SumOne(LeafEntrySize(r));
  }

  lemma {:induction false} KeyBytesOne(k: Key)
    ensures KeyBytes([k]) == InternalEntrySize(k)
  {
    assert KeySizes([k]) == [InternalEntrySize(k)];
    SumOne(InternalEntrySize(k));
  }

  /** Taking one row out of the middle takes exactly its bytes. */
  lemma {:induction false} LeafBytesMiddle(a: seq<Row>, r: Row, b: seq<Row>)
    ensures LeafBytes(a + [r] + b) == LeafBytes(a + b) + LeafEntrySize(r)
  {
    LeafBytesAppend(a + [r], b);
    LeafBytesAppend(a, [r]);
    LeafBytesAppend(a, b);
    LeafBytesOne(r);
  }

  lemma {:induction false} KeyBytesMiddle(a: seq<Key>, k: Key, b: seq<Key>)
    ensures KeyBytes(a + [k] + b) == KeyBytes(a + b) + InternalEntrySize(k)
    ensures KeyBytes(a + [k] + b) == KeyBytes(a) + InternalEntrySize(k) + KeyBytes(b)
  {
    KeyBytesAppend(a + [k], b);
    KeyBytesAppend(a, [k]);
    KeyBytesAppend(a, b);
    KeyBytesOne(k);
  }

  /** The bytes either side of a size-based split, when no entry outweighs `max`. */
  lemma {:induction false} SplitHalves(sizes: seq<nat>, keep: nat, max: nat)
    requires 1 <= keep < |sizes|
    requires forall i :: 0 <= i < |sizes| ==> 1 <= sizes[i] <= max
    ensures var at := SplitOff(sizes, keep);
      && Sum(sizes[..at]) < Sum(sizes) / 2 + max
      && (Sum(sizes[at..]) <= Sum(sizes) - Sum(sizes) / 2 || |sizes| - at == keep)
  {
    hide Sum;
    var sp := SplitPoint(sizes);
    var at := SplitOff(sizes, keep);
    hide SplitPoint, SplitOff;
    SumSplit(sizes, at);
    PrefixGrows(sizes, at, sp + 1);
    PrefixStep(sizes, sp);
    if sp == 0 {
      PrefixStep(sizes, 1);
      PrefixGrows(sizes, 2, |sizes|);
      assert sizes[..|sizes|] == sizes;
    }
  }

  lemma {:induction false} PrefixStep(sizes: seq<nat>, i: nat)
    requires i < |sizes|
    ensures Sum(sizes[..i + 1]) == Sum(sizes[..i]) + sizes[i]
    ensures i == 0 ==> Sum(sizes[..i]) == 0
  {
    assert sizes[..i + 1] == sizes[..i] + [sizes[i]];
    SumAppend(sizes[..i], [sizes[i]]);
    SumOne(sizes[i]);
  }

  lemma {:induction false} PrefixGrows(sizes: seq<nat>, i: nat, j: nat)
    requires i <= j <= |sizes|
    ensures Sum(sizes[..i]) <= Sum(sizes[..j])
  {
    assert sizes[..j] == sizes[..i] + sizes[i..j];
    SumAppend(sizes[..i], sizes[i..j]);
  }
}

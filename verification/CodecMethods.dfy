/** Writing a page into its 4096 bytes and reading it back, step by step: `src/page/codec.rs`,
    `src/page/invariants.rs` and `read_slot_ranges` in `src/page/mod.rs`. */
module CodecMethods {
  import opened Common
  import opened Schemas
  import opened Bytes
  import opened Pages
  import opened ValueCodec
  import opened PageCodec
  import opened Layout
  import opened Spelling

  datatype CorruptionKind = ExceedsCapacity | RowTooLarge(slot: nat) | MissingKey | InvalidKey(value: RowValue)
    | KeyTooLarge(slot: nat) | UnsortedKeys(at: nat) | ChildCountMismatch(keys: nat, children: nat)
    | PageNumOutOfRange(num: nat) | TableNameTooLong

  datatype EncodeError = Corrupt(kind: CorruptionKind) | TooManyFields

  // ------------------------------------------------------------------ check_invariants

  lemma {:induction false} SortedNext(keys: seq<Key>, k: Key)
    requires Sorted(keys)
    ensures Sorted(keys + [k]) <==> (keys == [] || KeyLess(keys[|keys| - 1], k))
  {
    var all := keys + [k];
    if keys != [] && KeyLess(keys[|keys| - 1], k) {
      forall i, j | 0 <= i < j < |all|
        ensures KeyLess(all[i], all[j])
      {
        if j == |keys| && i < |keys| - 1 {
          assert KeyLess(keys[i], keys[|keys| - 1]);
        }
      }
    }
    if keys != [] && Sorted(all) {
      assert KeyLess(all[|keys| - 1], all[|keys|]);
    }
  }

  lemma {:induction false} SortedPrefix(keys: seq<Key>, i: nat)
    requires Sorted(keys) && i <= |keys|
    ensures Sorted(keys[..i])
  {
  }

  /** What is wrong with a row of a leaf, if anything. */
  ghost function RowFault(rows: seq<Row>, i: nat): Option<CorruptionKind>
    requires i < |rows|
  {
    var fs := rows[i].fields;
    if LeafEntrySize(rows[i]) > 1013 then Some(RowTooLarge(i))
    else if fs == [] then Some(CorruptionKind.MissingKey)
    else if !fs[0].IntV? && !fs[0].StrV? then Some(CorruptionKind.InvalidKey(fs[0]))
    else if fs[0].StrV? && |fs[0].s| > 1001 then Some(KeyTooLarge(i))
    else if i > 0 && !KeyLess(RowKey(rows[i - 1]), RowKey(rows[i])) then Some(UnsortedKeys(i))
    else None
  }

  /** What is wrong with the first row with which anything is. */
  ghost predicate FirstRowFault(rows: seq<Row>, i: nat, bad: CorruptionKind) {
    i < |rows| && RowFault(rows, i) == Some(bad) && forall j :: 0 <= j < i ==> RowFault(rows, j) == None
  }

  /** The same for the keys of an internal page; all lengths are looked at before the order. */
  ghost predicate FirstKeyFault(keys: seq<Key>, i: nat, bad: CorruptionKind) {
    && i < |keys|
    && if keys[i].StrKey? && |keys[i].s| > 1001 then
         bad == KeyTooLarge(i) && forall j :: 0 <= j < i ==> keys[j].StrKey? ==> |keys[j].s| <= 1001
       else
         && bad == UnsortedKeys(i) && i > 0 && !KeyLess(keys[i - 1], keys[i])
         && (forall j :: 0 <= j < |keys| ==> keys[j].StrKey? ==> |keys[j].s| <= 1001)
         && forall j :: 0 < j < i ==> KeyLess(keys[j - 1], keys[j])
  }

  /** What is reported of a page. */
  ghost predicate Reported(p: Page, bad: CorruptionKind) {
    if FreeSpace(p).None? then bad == ExceedsCapacity
    else
      match p.body
      case Leaf(rows, _, _) => exists i: nat :: FirstRowFault(rows, i, bad)
      case Internal(keys, children) =>
        if |children| != |keys| + 1 then bad == ChildCountMismatch(|keys|, |children|)
        else exists i: nat :: FirstKeyFault(keys, i, bad)
      case Meta(_, count, head, _, _) =>
        head.Some? && head.value.num >= count && bad == PageNumOutOfRange(head.value.num)
      case Free(_) => false
  }

  lemma {:induction false} RowFaultIs(rows: seq<Row>, i: nat)
    requires i < |rows|
    ensures LeafEntrySize(rows[i]) <= MAX_LEAF_ENTRY_SIZE && HasKey(rows[i]) ==>
      (InternalEntrySize(RowKey(rows[i])) <= MAX_INTERNAL_ENTRY_SIZE <==>
       rows[i].fields[0].IntV? || |rows[i].fields[0].s| <= 1001)
    ensures HasKey(rows[i]) <==>
      rows[i].fields != [] && (rows[i].fields[0].IntV? || rows[i].fields[0].StrV?)
  {
    hide LeafEntrySize, InternalEntrySize, RowKey;
    KeyOfRow(rows[i]);
    if HasKey(rows[i]) && LeafEntrySize(rows[i]) <= MAX_LEAF_ENTRY_SIZE {
      KeyCost(rows[i]);
    }
  }

  method CheckRows(rows: seq<Row>) returns (bad: Option<CorruptionKind>)
    ensures bad.None? <==> (forall i :: 0 <= i < |rows| ==> RowInvariant(rows[i])) && Sorted(RecordKeys(rows))
    ensures bad.Some? ==> exists i: nat :: FirstRowFault(rows, i, bad.value)
  {
    hide LeafEntrySize, InternalEntrySize, RowKey, KeyLess, Sorted, HasKey;
    var prev: Option<Key> := None;
    assert Sorted(RecordKeys(rows[..0])) by { SortedNone(RecordKeys(rows[..0])); }
    for i := 0 to |rows|
      invariant prev == if i == 0 then None else Some(RowKey(rows[i - 1]))
      invariant forall j :: 0 <= j < i ==> RowInvariant(rows[j])
      invariant Sorted(RecordKeys(rows[..i])) && forall j :: 0 <= j < i ==> RowFault(rows, j) == None
    {
      RowFaultIs(rows, i);
      if LeafEntrySize(rows[i]) > MAX_LEAF_ENTRY_SIZE {
        assert FirstRowFault(rows, i, RowTooLarge(i));
        return Some(RowTooLarge(i));
      }
      if rows[i].fields == [] {
        assert FirstRowFault(rows, i, CorruptionKind.MissingKey);
        return Some(CorruptionKind.MissingKey);
      }
      if KeyOfValue(rows[i].fields[0]).None? {
        assert FirstRowFault(rows, i, CorruptionKind.InvalidKey(rows[i].fields[0]));
        return Some(CorruptionKind.InvalidKey(rows[i].fields[0]));
      }
      assert HasKey(rows[i]);
      var key := RowKey(rows[i]);
      if InternalEntrySize(key) > MAX_INTERNAL_ENTRY_SIZE {
        assert FirstRowFault(rows, i, KeyTooLarge(i));
        return Some(KeyTooLarge(i));
      }
      assert RecordKeys(rows[..i + 1]) == RecordKeys(rows[..i]) + [key];
      SortedNext(RecordKeys(rows[..i]), key);
      if prev.Some? && !KeyLess(prev.value, key) {
        assert RecordKeys(rows)[..i + 1] == RecordKeys(rows[..i + 1]);
        if Sorted(RecordKeys(rows)) {
          SortedPrefix(RecordKeys(rows), i + 1);
        }
        assert FirstRowFault(rows, i, UnsortedKeys(i));
        return Some(UnsortedKeys(i));
      }
      prev := Some(key);
    }
    assert rows[..|rows|] == rows;
    return None;
  }

  lemma {:induction false} SortedNone(keys: seq<Key>)
    requires keys == []
    ensures Sorted(keys)
  {
  }

  method CheckKeys(keys: seq<Key>) returns (bad: Option<CorruptionKind>)
    ensures bad.None? <==> (forall i :: 0 <= i < |keys| ==>
      InternalEntrySize(keys[i]) <= MAX_INTERNAL_ENTRY_SIZE) && Sorted(keys)
    ensures bad.Some? ==> exists i: nat :: FirstKeyFault(keys, i, bad.value)
  {
    hide InternalEntrySize, KeyLess, Sorted;
    for i := 0 to |keys|
      invariant forall j :: 0 <= j < i ==>
        InternalEntrySize(keys[j]) <= MAX_INTERNAL_ENTRY_SIZE && (keys[j].StrKey? ==> |keys[j].s| <= 1001)
    {
      KeyWithin(keys[i]);
      if InternalEntrySize(keys[i]) > MAX_INTERNAL_ENTRY_SIZE {
        assert FirstKeyFault(keys, i, KeyTooLarge(i));
        return Some(KeyTooLarge(i));
      }
    }
    SortedNone(keys[..0]);
    for i := 0 to |keys|
      invariant Sorted(keys[..i]) && forall j :: 0 < j < i ==> KeyLess(keys[j - 1], keys[j])
    {
      assert keys[..i + 1] == keys[..i] + [keys[i]];
      SortedNext(keys[..i], keys[i]);
      if i > 0 && !KeyLess(keys[i - 1], keys[i]) {
        if Sorted(keys) {
          SortedPrefix(keys, i + 1);
        }
        assert FirstKeyFault(keys, i, UnsortedKeys(i));
        return Some(UnsortedKeys(i));
      }
    }
    assert keys[..|keys|] == keys;
    return None;
  }

  /** `check_invariants` finds nothing wrong exactly with the pages that satisfy the invariant, and otherwise reports
      the first thing that is. */
  method CheckInvariants(p: Page) returns (bad: Option<CorruptionKind>)
    ensures bad.None? <==> Invariant(p)
    ensures bad.Some? ==> Reported(p, bad.value)
  {
    hide RowInvariant, Sorted, FreeSpace, InternalEntrySize, FirstRowFault, FirstKeyFault;
    if FreeSpace(p).None? {
      return Some(ExceedsCapacity);
    }
    match p.body {
      case Leaf(rows, _, _) =>
        bad := CheckRows(rows);
      case Internal(keys, children) =>
        if |children| != |keys| + 1 {
          return Some(ChildCountMismatch(|keys|, |children|));
        }
        bad := CheckKeys(keys);
      case Meta(_, count, head, _, name) =>
        if head.Some? && head.value.num >= count {
          return Some(PageNumOutOfRange(head.value.num));
        }
        NameWithin(p);
        bad := if |name| > 65535 then Some(TableNameTooLong) else None;
      case Free(_) =>
        bad := None;
    }
  }

  lemma {:induction false} NameWithin(p: Page)
    requires p.body.Meta? && FreeSpace(p).Some?
    ensures |p.body.name| <= 65535
  {
  }

  // ---------------------------------------------------------------------------- writing

  function Overwrite(raw: seq<Byte>, pos: nat, b: seq<Byte>): (r: seq<Byte>)
    requires pos + |b| <= |raw|
    ensures |r| == |raw|
  {
    raw[..pos] + b + raw[pos + |b|..]
  }

  lemma {:induction false} OverwriteOutside(raw: seq<Byte>, pos: nat, b: seq<Byte>, lo: nat, hi: nat)
    requires pos + |b| <= |raw| && lo <= hi <= |raw| && (hi <= pos || pos + |b| <= lo)
    ensures Overwrite(raw, pos, b)[lo..hi] == raw[lo..hi]
  {
  }

  lemma {:induction false} OverwriteInside(raw: seq<Byte>, pos: nat, b: seq<Byte>)
    requires pos + |b| <= |raw|
    ensures Overwrite(raw, pos, b)[pos..pos + |b|] == b
  {
  }

  method WriteAt(buf: array<Byte>, pos: nat, b: seq<Byte>)
    requires pos + |b| <= buf.Length
    modifies buf
    ensures buf[..] == Overwrite(old(buf[..]), pos, b)
  {
    for i := 0 to |b|
      invariant forall j :: 0 <= j < i ==> buf[pos + j] == b[j]
      invariant forall j :: 0 <= j < buf.Length && !(pos <= j < pos + i) ==> buf[j] == old(buf[j])
    {
      buf[pos + i] := b[i];
    }
  }

  /** One more entry: its data below the last, its slot after the last. */
  lemma {:induction false} WrittenStep(raw: seq<Byte>, base: nat, encs: seq<seq<Byte>>, i: nat)
    requires |raw| == PAGE_SIZE && i < |encs| && base + 4 * |encs| + Used(encs, |encs|) <= PAGE_SIZE
    requires Written(raw, base, encs, i)
    ensures var s := SlotOf(encs, i);
      && s.offset + |encs[i]| == PAGE_SIZE - Used(encs, i)
      && base + 4 * |encs| <= s.offset
      && var raw' := Overwrite(Overwrite(raw, s.offset, encs[i]), base + 4 * i, SlotBytes(s));
         Written(raw', base, encs, i + 1) && raw'[..base] == raw[..base]
  {
    hide Used, Overwrite, SlotBytes, EntryWritten;
    var s := SlotOf(encs, i);
    UsedStep(encs, i);
    UsedGrows(encs, i + 1, |encs|);
    var raw1 := Overwrite(raw, s.offset, encs[i]);
    var raw2 := Overwrite(raw1, base + 4 * i, SlotBytes(s));
    forall j | 0 <= j < i + 1
      ensures EntryWritten(raw2, base, encs, j)
    {
      if j < i {
        hide Written;
        WrittenAt(raw, base, encs, i, j);
        EarlierStays(raw, base, encs, i, j);
      } else {
        NewestWritten(raw, base, encs, i);
      }
    }
    OverwriteOutside(raw, s.offset, encs[i], 0, base);
    OverwriteOutside(raw1, base + 4 * i, SlotBytes(s), 0, base);
    assert raw2[..base] == raw2[0..base] && raw[..base] == raw[0..base];
  }

  /** An entry written before is not touched by the next one. */
  lemma {:induction false} EarlierStays(raw: seq<Byte>, base: nat, encs: seq<seq<Byte>>, i: nat, j: nat)
    requires |raw| == PAGE_SIZE && j < i < |encs| && base + 4 * |encs| + Used(encs, |encs|) <= PAGE_SIZE
    requires EntryWritten(raw, base, encs, j)
    ensures var s := SlotOf(encs, i);
      && base + 4 * |encs| <= s.offset && s.offset + |encs[i]| <= PAGE_SIZE
      && EntryWritten(Overwrite(Overwrite(raw, s.offset, encs[i]), base + 4 * i, SlotBytes(s)), base, encs, j)
  {
    hide Used, Overwrite, SlotBytes;
    var s, sj := SlotOf(encs, i), SlotOf(encs, j);
    UsedStep(encs, i);
    UsedGrows(encs, i + 1, |encs|);
    UsedStep(encs, j);
    UsedGrows(encs, j + 1, |encs|);
    UsedGrows(encs, j + 1, i);
    var raw1 := Overwrite(raw, s.offset, encs[i]);
    OverwriteOutside(raw, s.offset, encs[i], base + 4 * j, base + 4 * j + 4);
    OverwriteOutside(raw1, base + 4 * i, SlotBytes(s), base + 4 * j, base + 4 * j + 4);
    OverwriteOutside(raw, s.offset, encs[i], sj.offset, sj.offset + sj.length);
    OverwriteOutside(raw1, base + 4 * i, SlotBytes(s), sj.offset, sj.offset + sj.length);
  }

  lemma {:induction false} NewestWritten(raw: seq<Byte>, base: nat, encs: seq<seq<Byte>>, i: nat)
    requires |raw| == PAGE_SIZE && i < |encs| && base + 4 * |encs| + Used(encs, |encs|) <= PAGE_SIZE
    ensures var s := SlotOf(encs, i);
      && base + 4 * |encs| <= s.offset && s.offset + |encs[i]| <= PAGE_SIZE
      && EntryWritten(Overwrite(Overwrite(raw, s.offset, encs[i]), base + 4 * i, SlotBytes(s)), base, encs, i)
  {
    hide Used, Overwrite, SlotBytes;
    var s := SlotOf(encs, i);
    UsedStep(encs, i);
    UsedGrows(encs, i + 1, |encs|);
    var raw1 := Overwrite(raw, s.offset, encs[i]);
    OverwriteInside(raw, s.offset, encs[i]);
    OverwriteOutside(raw1, base + 4 * i, SlotBytes(s), s.offset, s.offset + |encs[i]|);
    OverwriteInside(raw1, base + 4 * i, SlotBytes(s));
  }

  /** Fills slots upward from `base` and data downward from the end of the page; they never cross. */
  method WriteSlots(buf: array<Byte>, base: nat, encs: seq<seq<Byte>>) returns (slotOffset: nat, dataOffset: nat)
    requires buf.Length == PAGE_SIZE && base + 4 * |encs| + Used(encs, |encs|) <= PAGE_SIZE
    modifies buf
    ensures Written(buf[..], base, encs, |encs|) && buf[..base] == old(buf[..base])
    ensures slotOffset == base + 4 * |encs| && dataOffset == PAGE_SIZE - Used(encs, |encs|) && slotOffset <= dataOffset
    ensures forall j :: slotOffset <= j < dataOffset ==> buf[j] == old(buf[j])
  {
    hide Used, Overwrite, SlotBytes, Written;
    slotOffset, dataOffset := base, PAGE_SIZE;
    WrittenNone(buf[..], base, encs);
    for i := 0 to |encs|
      invariant slotOffset == base + 4 * i && dataOffset == PAGE_SIZE - Used(encs, i)
      invariant Written(buf[..], base, encs, i) && buf[..base] == old(buf[..base])
      invariant forall j :: base + 4 * |encs| <= j < dataOffset ==> buf[j] == old(buf[j])
    {
      WrittenStep(buf[..], base, encs, i);
      UsedStep(encs, i);
      ghost var before := buf[..];
      dataOffset := dataOffset - |encs[i]|;
      WriteAt(buf, dataOffset, encs[i]);
      WriteAt(buf, slotOffset, SlotBytes(Slot(dataOffset, |encs[i]|)));
      GapKept(before, dataOffset, encs[i], slotOffset, SlotBytes(Slot(dataOffset, |encs[i]|)), base + 4 * |encs|);
      assert buf[..base] == buf[..][..base] && before[..base] == old(buf[..base]);
      slotOffset := slotOffset + SLOT_ENTRY_SIZE;
    }
  }

  /** What lies between the slots and the new entry is not touched. */
  lemma {:induction false} GapKept(raw: seq<Byte>, at: nat, data: seq<Byte>, slotAt: nat, slot: seq<Byte>, lo: nat)
    requires at + |data| <= |raw| && slotAt + |slot| <= lo <= |raw|
    ensures var raw' := Overwrite(Overwrite(raw, at, data), slotAt, slot);
      forall j :: lo <= j < at ==> raw'[j] == raw[j]
  {
  }

  lemma {:induction false} WrittenNone(raw: seq<Byte>, base: nat, encs: seq<seq<Byte>>)
    requires |raw| == PAGE_SIZE && base + 4 * |encs| + Used(encs, |encs|) <= PAGE_SIZE
    ensures Written(raw, base, encs, 0) && Used(encs, 0) == 0
  {
  }

  method WriteIds(buf: array<Byte>, base: nat, ids: seq<PageId>)
    requires base + 8 * |ids| <= buf.Length
    modifies buf
    ensures IdsWritten(buf[..], base, ids, |ids|) && buf[..base] == old(buf[..base])
    ensures forall j :: base + 8 * |ids| <= j < buf.Length ==> buf[j] == old(buf[j])
  {
    hide EncId, Overwrite;
    for i := 0 to |ids|
      invariant IdsWritten(buf[..], base, ids, i) && buf[..base] == old(buf[..base])
      invariant forall j :: base + 8 * |ids| <= j < buf.Length ==> buf[j] == old(buf[j])
    {
      ghost var before := buf[..];
      WriteAt(buf, base + 8 * i, EncId(ids[i]));
      TailKept(before, base + 8 * i, EncId(ids[i]), base + 8 * |ids|);
      IdsStep(before, base, ids, i);
      assert buf[..base] == buf[..][..base] && before[..base] == old(buf[..base]);
    }
  }

  lemma {:induction false} TailKept(raw: seq<Byte>, pos: nat, b: seq<Byte>, lo: nat)
    requires pos + |b| <= lo <= |raw|
    ensures forall j :: lo <= j < |raw| ==> Overwrite(raw, pos, b)[j] == raw[j]
  {
  }

  lemma {:induction false} IdsStep(raw: seq<Byte>, base: nat, ids: seq<PageId>, i: nat)
    requires i < |ids| && base + 8 * |ids| <= |raw| && IdsWritten(raw, base, ids, i)
    ensures var raw' := Overwrite(raw, base + 8 * i, EncId(ids[i]));
      IdsWritten(raw', base, ids, i + 1) && raw'[..base] == raw[..base]
  {
    hide EncId, Overwrite;
    var raw' := Overwrite(raw, base + 8 * i, EncId(ids[i]));
    forall j | 0 <= j < i + 1
      ensures raw'[base + 8 * j..base + 8 * j + 8] == EncId(ids[j])
    {
      if j < i {
        OverwriteOutside(raw, base + 8 * i, EncId(ids[i]), base + 8 * j, base + 8 * j + 8);
      } else {
        OverwriteInside(raw, base + 8 * i, EncId(ids[i]));
      }
    }
    OverwriteOutside(raw, base + 8 * i, EncId(ids[i]), 0, base);
    assert raw'[..base] == raw'[0..base] && raw[..base] == raw[0..base];
  }

  /** Encodes rows one by one; a row with too many fields is refused. */
  method EncodeRows(rows: seq<Row>) returns (res: Result<seq<seq<Byte>>, EncodeError>)
    ensures res.Ok? <==> RowsShort(rows)
    ensures res.Ok? ==> res.value == RowEncs(rows)
    ensures res.Err? ==> res.error == TooManyFields
  {
    hide EncRow;
    var encs: seq<seq<Byte>> := [];
    for i := 0 to |rows|
      invariant |encs| == i && RowsShort(rows[..i]) && forall j :: 0 <= j < i ==> encs[j] == EncRow(rows[j])
    {
      if |rows[i].fields| > MAX_NUM_FIELDS {
        return Err(TooManyFields);
      }
      encs := encs + [EncRow(rows[i])];
    }
    assert rows[..|rows|] == rows;
    return Ok(encs);
  }

  /** Bytes from the end of the header on decide whether the body is in place. */
  lemma {:induction false} BodyFrame(raw: seq<Byte>, raw': seq<Byte>, p: Page)
    requires |raw| == |raw'| == PAGE_SIZE && Encodable(p) && BodyWritten(raw, p)
    requires raw'[|Header(p)|..] == raw[|Header(p)|..]
    ensures BodyWritten(raw', p)
  {
    hide Header, Used, Written, IdsWritten, Invariant, EncLink, MetaBytes;
    var base := |Header(p)|;
    match p.body
    case Leaf(rows, _, _) =>
      LeafRoom(p);
      WrittenFrame(raw, raw', base, base, RowEncs(rows));
    case Internal(keys, children) =>
      InternalRoom(p);
      ChildCount(p);
      WrittenFrame(raw, raw', base, base + 8 * |children|, KeyEncs(keys));
      IdsFrame(raw, raw', base, children);
    case Free(next) =>
      SameSlice(raw, raw', base, base, base + |EncLink(next)|);
    case Meta(_, _, _, _, _) =>
      SameSlice(raw, raw', base, base, base + |MetaBytes(p.body)|);
  }

  lemma {:induction false} ChildCount(p: Page)
    requires p.body.Internal? && Invariant(p)
    ensures |p.body.children| == |p.body.keys| + 1
  {
  }

  lemma {:induction false} SameSlice(raw: seq<Byte>, raw': seq<Byte>, from: nat, lo: nat, hi: nat)
    requires |raw| == |raw'| && from <= lo <= hi <= |raw| && raw'[from..] == raw[from..]
    ensures raw'[lo..hi] == raw[lo..hi]
  {
    forall i | lo <= i < hi
      ensures raw'[i] == raw[i]
    {
      assert raw'[i] == raw'[from..][i - from] && raw[i] == raw[from..][i - from];
    }
  }

  lemma {:induction false} WrittenFrame(raw: seq<Byte>, raw': seq<Byte>, from: nat, base: nat, encs: seq<seq<Byte>>)
    requires |raw| == |raw'| == PAGE_SIZE && from <= base && base + 4 * |encs| + Used(encs, |encs|) <= PAGE_SIZE
    requires raw'[from..] == raw[from..] && Written(raw, base, encs, |encs|)
    ensures Written(raw', base, encs, |encs|)
  {
    hide Used, SlotBytes;
    forall i | 0 <= i < |encs|
      ensures EntryWritten(raw', base, encs, i)
    {
      var s := SlotOf(encs, i);
      UsedStep(encs, i);
      UsedGrows(encs, i + 1, |encs|);
      assert EntryWritten(raw, base, encs, i);
      SameSlice(raw, raw', from, base + 4 * i, base + 4 * i + 4);
      SameSlice(raw, raw', from, s.offset, s.offset + s.length);
    }
  }

  lemma {:induction false} IdsFrame(raw: seq<Byte>, raw': seq<Byte>, base: nat, ids: seq<PageId>)
    requires |raw| == |raw'| && base + 8 * |ids| <= |raw| && raw'[base..] == raw[base..]
    requires IdsWritten(raw, base, ids, |ids|)
    ensures IdsWritten(raw', base, ids, |ids|)
  {
    hide EncId;
    forall i | 0 <= i < |ids|
      ensures raw'[base + 8 * i..base + 8 * i + 8] == EncId(ids[i])
    {
      SameSlice(raw, raw', base, base + 8 * i, base + 8 * i + 8);
    }
  }

  /** `write_body`, after the header. */
  method WriteBody(buf: array<Byte>, p: Page) returns (res: Result<(), EncodeError>)
    requires buf.Length == PAGE_SIZE && Invariant(p) && Zeros(buf[..], |Header(p)|, PAGE_SIZE)
    modifies buf
    ensures res.Ok? <==> Encodable(p)
    ensures res.Ok? ==> BodyWritten(buf[..], p) && buf[..|Header(p)|] == old(buf[..|Header(p)|])
    ensures res.Ok? ==> RestZero(buf[..], p)
    ensures res.Err? ==> res.error == TooManyFields && p.body.Leaf? && !RowsShort(p.body.records)
  {
    hide Header, Used, Written, IdsWritten, Invariant, EncLink, MetaBytes, Overwrite, RowEncs, KeyEncs;
    var base := |Header(p)|;
    match p.body {
      case Leaf(rows, _, _) =>
        var encs := EncodeRows(rows);
        if encs.Err? {
          return Err(encs.error);
        }
        LeafRoom(p);
        assert |encs.value| == |rows| by { EncCount(rows); }
        var _, _ := WriteSlots(buf, base, encs.value);
      case Internal(keys, children) =>
        InternalRoom(p);
        ChildCount(p);
        WriteIds(buf, base, children);
        ghost var ids := buf[..];
        assert |KeyEncs(keys)| == |keys|;
        var _, _ := WriteSlots(buf, base + 8 * |children|, KeyEncs(keys));
        IdsKept(ids, buf[..], base, children);
        assert buf[..base] == buf[..base + 8 * |children|][..base]
          && ids[..base] == ids[..base + 8 * |children|][..base];
      case Free(next) =>
        HeaderLength(p);
        ghost var before := buf[..];
        WriteAt(buf, base, EncLink(next));
        WroteTail(before, base, EncLink(next), buf[..]);
        TailKept(before, base, EncLink(next), base + |EncLink(next)|);
      case Meta(_, _, _, _, _) =>
        MetaRoom(p);
        ghost var before := buf[..];
        WriteAt(buf, base, MetaBytes(p.body));
        WroteTail(before, base, MetaBytes(p.body), buf[..]);
        TailKept(before, base, MetaBytes(p.body), base + |MetaBytes(p.body)|);
    }
    res := Ok(());
  }

  lemma {:induction false} EncCount(rows: seq<Row>)
    requires RowsShort(rows)
    ensures |RowEncs(rows)| == |rows|
  {
  }

  lemma {:induction false} MetaRoom(p: Page)
    requires p.body.Meta? && Invariant(p)
    ensures |Header(p)| + |MetaBytes(p.body)| <= PAGE_SIZE
  {
    HeaderLength(p);
  }

  lemma {:induction false} WroteTail(raw: seq<Byte>, pos: nat, b: seq<Byte>, raw': seq<Byte>)
    requires pos + |b| <= |raw| && raw' == Overwrite(raw, pos, b)
    ensures raw'[pos..pos + |b|] == b && raw'[..pos] == raw[..pos]
  {
  }

  lemma {:induction false} IdsKept(raw: seq<Byte>, raw': seq<Byte>, base: nat, ids: seq<PageId>)
    requires |raw| == |raw'| && base + 8 * |ids| <= |raw| && raw'[..base + 8 * |ids|] == raw[..base + 8 * |ids|]
    requires IdsWritten(raw, base, ids, |ids|)
    ensures IdsWritten(raw', base, ids, |ids|)
  {
    hide EncId;
    var n := base + 8 * |ids|;
    forall i | 0 <= i < |ids|
      ensures raw'[base + 8 * i..base + 8 * i + 8] == EncId(ids[i])
    {
      assert raw'[base + 8 * i..base + 8 * i + 8] == raw'[..n][base + 8 * i..base + 8 * i + 8];
      assert raw[base + 8 * i..base + 8 * i + 8] == raw[..n][base + 8 * i..base + 8 * i + 8];
    }
  }

  lemma {:induction false} PatchFacts(raw: seq<Byte>, h: nat, c: nat)
    requires |raw| == PAGE_SIZE && 23 <= h <= PAGE_SIZE
    ensures var raw' := Overwrite(raw, CHECKSUM_OFFSET, BigEndian(c, 4));
      && raw'[h..] == raw[h..] && raw'[..h] == Patched(raw[..h], c)
      && raw'[..CHECKSUM_OFFSET] + raw'[CHECKSUM_OFFSET + 4..] == raw[..CHECKSUM_OFFSET] + raw[CHECKSUM_OFFSET + 4..]
  {
    hide BigEndian;
  }

  /** Bytes from the end of the header on decide whether the rest is zero. */
  lemma {:induction false} RestFrame(raw: seq<Byte>, raw': seq<Byte>, p: Page)
    requires |raw| == |raw'| == PAGE_SIZE && Encodable(p) && RestZero(raw, p)
    requires raw'[|Header(p)|..] == raw[|Header(p)|..]
    ensures RestZero(raw', p)
  {
    hide Header, Used, Encodable, EncLink, MetaBytes, RowEncs, KeyEncs;
    forall j | |Header(p)| <= j < PAGE_SIZE
      ensures raw'[j] == raw[j]
    {
      assert raw'[j] == raw'[|Header(p)|..][j - |Header(p)|] && raw[j] == raw[|Header(p)|..][j - |Header(p)|];
    }
  }

  /** `as_raw_page`: header, body, then the checksum over everything else. It refuses exactly the pages
      that are not proper. What it writes is the page as laid out, packed, and it is read back as the same page. */
  method AsRawPage(p: Page, crc: Crc) returns (res: Result<seq<Byte>, EncodeError>)
    ensures res.Ok? <==> Encodable(p)
    ensures res.Ok? <==> Proper(p)
    ensures res.Err? ==>
      if res.error.Corrupt? then Reported(p, res.error.kind) else p.body.Leaf? && !RowsShort(p.body.records)
    ensures res.Ok? && Typed(p) ==> |res.value| == 4096 && PageIs(res.value, p, crc) && Packed(res.value, p)
    ensures res.Ok? ==> |res.value| == PAGE_SIZE
    ensures res.Ok? && Typed(p) ==> Parse(res.value, crc) == if Returns(p) then Ok(p) else Err(BadMeta)
  {
    hide Header, BodyWritten, Invariant, Overwrite, Typed, Parse, Patched, BigEndian, Returns, Encodable, Proper;
    hide RestZero, PageIs, Packed, Reported;
    EncodableMeans(p);
    NotInvariant(p);
    var bad := CheckInvariants(p);
    if bad.Some? {
      return Err(Corrupt(bad.value));
    }
    var buf := new Byte[PAGE_SIZE](_ => 0);
    var header := Header(p);
    ghost var zeros := buf[..];
    WriteAt(buf, 0, header);
    WroteTail(zeros, 0, header, buf[..]);
    assert buf[..|header|] == header by { assert buf[..][0..|header|] == buf[..|header|]; }
    TailKept(zeros, 0, header, |header|);
    var body := WriteBody(buf, p);
    if body.Err? {
      return Err(body.error);
    }
    ghost var raw := buf[..];
    var c := crc(buf[..CHECKSUM_OFFSET] + buf[CHECKSUM_OFFSET + 4..]);
    WriteAt(buf, CHECKSUM_OFFSET, BigEndian(c, 4));
    PatchFacts(raw, |header|, c);
    BodyFrame(raw, buf[..], p);
    RestFrame(raw, buf[..], p);
    assert raw[..|header|] == header;
    assert buf[..CHECKSUM_OFFSET] + buf[CHECKSUM_OFFSET + 4..] == buf[..][..CHECKSUM_OFFSET] +
        buf[..][CHECKSUM_OFFSET + 4..];
    assert buf[..|header|] == buf[..][..|header|];
    if Typed(p) {
      RoundTrip(p, buf[..], crc);
      WrittenIs(buf[..], p, crc);
      WrittenPacked(buf[..], p);
    }
    return Ok(buf[..]);
  }

  lemma {:induction false} NotInvariant(p: Page)
    ensures Encodable(p) ==> Invariant(p)
  {
  }

  // ---------------------------------------------------------------------------- reading

  predicate ByStart(s: seq<Slot>) {
    forall i, j :: 0 <= i < j < |s| ==> s[i].offset <= s[j].offset
  }

  function InsertByStart(s: seq<Slot>, x: Slot): (r: seq<Slot>)
    requires ByStart(s)
    ensures ByStart(r) && multiset(r) == multiset(s) + multiset{x}
    ensures forall y :: y in r <==> y in s || y == x
  {
    if s == [] || x.offset <= s[0].offset then
      FrontIn(x, s);
      FirstSorted(x, s);
      [x] + s
    else
      var rest := InsertByStart(s[1..], x);
      InsertedBehind(s, x, rest);
      [s[0]] + rest
  }

  lemma {:induction false} FirstSorted(x: Slot, s: seq<Slot>)
    requires ByStart(s) && (s == [] || x.offset <= s[0].offset)
    ensures ByStart([x] + s)
  {
  }

  lemma {:induction false} InsertedBehind(s: seq<Slot>, x: Slot, rest: seq<Slot>)
    requires s != [] && ByStart(s) && s[0].offset < x.offset
    requires ByStart(rest) && multiset(rest) == multiset(s[1..]) + multiset{x}
    requires forall y :: y in rest <==> y in s[1..] || y == x
    ensures ByStart([s[0]] + rest) && multiset([s[0]] + rest) == multiset(s) + multiset{x}
    ensures forall y :: y in [s[0]] + rest <==> y in s || y == x
  {
    FrontIn(s[0], s[1..]);
    FrontIn(s[0], rest);
    assert s == [s[0]] + s[1..];
    assert forall y :: y in rest ==> s[0].offset <= y.offset;
    FrontSorted(s[0], rest);
  }

  lemma {:induction false} FrontIn(x: Slot, s: seq<Slot>)
    ensures multiset([x] + s) == multiset{x} + multiset(s)
    ensures forall y :: y in [x] + s <==> y == x || y in s
  {
  }

  lemma {:induction false} FrontSorted(x: Slot, s: seq<Slot>)
    requires ByStart(s) && forall y :: y in s ==> x.offset <= y.offset
    ensures ByStart([x] + s)
  {
    assert forall i :: 0 <= i < |s| ==> s[i] in s;
  }

  /** `sort_by_key` on the start of the ranges. */
  function SortByStart(s: seq<Slot>): (r: seq<Slot>)
    ensures ByStart(r) && multiset(r) == multiset(s)
  {
    if s == [] then [] else
      assert s == [s[0]] + s[1..];
      InsertByStart(SortByStart(s[1..]), s[0])
  }

  predicate Stacked(s: seq<Slot>) {
    forall i :: 0 <= i < |s| - 1 ==> s[i].offset + s[i].length <= s[i + 1].offset
  }

  /** In a stack of non-empty ranges each ends before every later one begins. */
  lemma {:induction false} StackedApart(s: seq<Slot>, i: nat, j: nat)
    requires Stacked(s) && i < j < |s| && forall k :: 0 <= k < |s| ==> 0 < s[k].length
    ensures s[i].offset + s[i].length <= s[j].offset
    decreases j
  {
    assert s[j - 1].offset + s[j - 1].length <= s[j].offset;
    if i < j - 1 {
      StackedApart(s, i, j - 1);
    }
  }

  lemma {:induction false} TwoOf(s: seq<Slot>, x: Slot) returns (i: nat, j: nat)
    requires multiset(s)[x] >= 2
    ensures i < j < |s| && s[i] == x && s[j] == x
  {
    assert s == [s[0]] + s[1..];
    if s[0] == x {
      assert multiset(s[1..])[x] >= 1;
      var k :| 0 <= k < |s[1..]| && s[1..][k] == x;
      i, j := 0, k + 1;
    } else {
      var i', j' := TwoOf(s[1..], x);
      i, j := i' + 1, j' + 1;
    }
  }

  /** Two equal entries of a sequence count twice. */
  lemma {:induction false} CountsTwice(s: seq<Slot>, i: nat, j: nat)
    requires i < j < |s| && s[i] == s[j]
    ensures multiset(s)[s[i]] >= 2
  {
    assert s == s[..j] + s[j..];
    assert s[i] in s[..j] && s[j] in s[j..];
    assert multiset(s) == multiset(s[..j]) + multiset(s[j..]);
    assert multiset(s[..j])[s[i]] >= 1 && multiset(s[j..])[s[j]] >= 1;
  }

  /** The check of neighbours in sorted order is the check of all pairs. */
  lemma {:induction false} NeighboursSuffice(slots: seq<Slot>, sorted: seq<Slot>)
    requires ByStart(sorted) && multiset(sorted) == multiset(slots)
    requires forall i :: 0 <= i < |slots| ==> 0 < slots[i].length
    ensures Stacked(sorted) <==> forall i, j :: 0 <= i < j < |slots| ==> Apart2(slots[i], slots[j])
  {
    forall k | 0 <= k < |sorted|
      ensures 0 < sorted[k].length
    {
      assert sorted[k] in multiset(sorted);
      assert sorted[k] in slots;
    }
    if Stacked(sorted) {
      forall i, j | 0 <= i < j < |slots|
        ensures Apart2(slots[i], slots[j])
      {
        PairApart(slots, sorted, i, j);
      }
    }
    if forall i, j :: 0 <= i < j < |slots| ==> Apart2(slots[i], slots[j]) {
      forall a | 0 <= a < |sorted| - 1
        ensures sorted[a].offset + sorted[a].length <= sorted[a + 1].offset
      {
        NeighbourApart(slots, sorted, a);
      }
    }
  }

  lemma {:induction false} PairApart(slots: seq<Slot>, sorted: seq<Slot>, i: nat, j: nat)
    requires Stacked(sorted) && multiset(sorted) == multiset(slots) && i < j < |slots|
    requires forall k :: 0 <= k < |sorted| ==> 0 < sorted[k].length
    ensures Apart2(slots[i], slots[j])
  {
    var x, y := slots[i], slots[j];
    var a, b: nat;
    if x == y {
      CountsTwice(slots, i, j);
      a, b := TwoOf(sorted, x);
    } else {
      assert x in multiset(slots) && y in multiset(slots);
      a :| 0 <= a < |sorted| && sorted[a] == x;
      b :| 0 <= b < |sorted| && sorted[b] == y;
    }
    if a < b {
      StackedApart(sorted, a, b);
    } else {
      StackedApart(sorted, b, a);
    }
  }

  lemma {:induction false} NeighbourApart(slots: seq<Slot>, sorted: seq<Slot>, a: nat)
    requires ByStart(sorted) && multiset(sorted) == multiset(slots) && a + 1 < |sorted|
    requires forall k :: 0 <= k < |sorted| ==> 0 < sorted[k].length
    requires forall i, j :: 0 <= i < j < |slots| ==> Apart2(slots[i], slots[j])
    ensures sorted[a].offset + sorted[a].length <= sorted[a + 1].offset
  {
    var x, y := sorted[a], sorted[a + 1];
    assert x.offset <= y.offset;
    var i, j: nat;
    if x == y {
      CountsTwice(sorted, a, a + 1);
      i, j := TwoOf(slots, x);
    } else {
      assert x in multiset(sorted) && y in multiset(sorted);
      i :| 0 <= i < |slots| && slots[i] == x;
      j :| 0 <= j < |slots| && slots[j] == y;
      if i < j {
        assert Apart2(slots[i], slots[j]);
      } else {
        assert Apart2(slots[j], slots[i]);
      }
    }
  }

  /** `read_slot_ranges` accepts exactly the slot arrays whose ranges are non-empty, inside the data area
      and pairwise disjoint. */
  method ReadSlotRanges(raw: seq<Byte>, base: nat, n: nat) returns (res: Result<seq<Slot>, DecodeError>)
    requires base + 4 * n <= |raw| == PAGE_SIZE
    ensures res == if RangesOk(Slots(raw, base, n), base + 4 * n) then Ok(Slots(raw, base, n)) else Err(BadRange)
  {
    hide SlotAt, Stacked, ByStart, RangesOk, InArea, Slots, SortByStart;
    var ranges: seq<Slot> := [];
    for i := 0 to n
      invariant |ranges| == i && forall j :: 0 <= j < i ==> ranges[j] == SlotAt(raw, base, j)
    {
      ranges := ranges + [SlotAt(raw, base, i)];
    }
    assert ranges == Slots(raw, base, n);
    var start := base + 4 * n;
    for i := 0 to n
      invariant forall j :: 0 <= j < i ==> InArea(ranges[j], start)
    {
      if !InArea(ranges[i], start) {
        assert !RangesOk(ranges, start) by { OutOfArea(ranges, start, i); }
        return Err(BadRange);
      }
    }
    RangesAre(ranges, start);
    var ok := CheckStacked(SortByStart(ranges));
    res := if ok then Ok(ranges) else Err(BadRange);
  }

  lemma {:induction false} OutOfArea(ranges: seq<Slot>, start: nat, i: nat)
    requires i < |ranges| && !InArea(ranges[i], start)
    ensures !RangesOk(ranges, start)
  {
  }

  lemma {:induction false} RangesAre(ranges: seq<Slot>, start: nat)
    requires forall i :: 0 <= i < |ranges| ==> InArea(ranges[i], start)
    ensures RangesOk(ranges, start) <==> Stacked(SortByStart(ranges))
  {
    hide Stacked, SortByStart;
    NeighboursSuffice(ranges, SortByStart(ranges));
  }

  /** Whether each range ends before the next one begins. */
  method CheckStacked(s: seq<Slot>) returns (ok: bool)
    ensures ok <==> Stacked(s)
  {
    hide Stacked;
    for i := 0 to |s|
      invariant forall j :: 1 <= j < i ==> s[j - 1].offset + s[j - 1].length <= s[j].offset
    {
      if i > 0 && s[i].offset < s[i - 1].offset + s[i - 1].length {
        NotStacked(s, i - 1);
        return false;
      }
    }
    IsStacked(s);
    return true;
  }

  lemma {:induction false} NotStacked(s: seq<Slot>, i: nat)
    requires i + 1 < |s| && s[i + 1].offset < s[i].offset + s[i].length
    ensures !Stacked(s)
  {
  }

  lemma {:induction false} IsStacked(s: seq<Slot>)
    requires forall j :: 1 <= j < |s| ==> s[j - 1].offset + s[j - 1].length <= s[j].offset
    ensures Stacked(s)
  {
    forall i | 0 <= i < |s| - 1
      ensures s[i].offset + s[i].length <= s[i + 1].offset
    {
      assert s[(i + 1) - 1].offset + s[(i + 1) - 1].length <= s[i + 1].offset;
    }
  }

  method DecodeSlots<T>(raw: seq<Byte>, slots: seq<Slot>, read: seq<Byte> -> Reading<T>) returns (res: Option<seq<T>>)
    requires |raw| == PAGE_SIZE && forall i :: 0 <= i < |slots| ==> slots[i].offset + slots[i].length <= PAGE_SIZE
    ensures res == Entries(raw, slots, read, |slots|)
  {
    var xs: seq<T> := [];
    for i := 0 to |slots|
      invariant Entries(raw, slots, read, i) == Some(xs)
    {
      var r := read(raw[slots[i].offset..slots[i].offset + slots[i].length]);
      if r.None? || r.value.1 != [] {
        EntriesStop(raw, slots, read, i + 1, |slots|);
        return None;
      }
      xs := xs + [r.value.0];
    }
    return Some(xs);
  }

  lemma {:induction false} EntriesStop<T>(raw: seq<Byte>, slots: seq<Slot>, read: seq<Byte> -> Reading<T>, i: nat,
                                          k: nat)
    requires |raw| == PAGE_SIZE && (forall j :: 0 <= j < |slots| ==> slots[j].offset + slots[j].length <= PAGE_SIZE)
    requires i <= k <= |slots| && Entries(raw, slots, read, i).None?
    ensures Entries(raw, slots, read, k).None?
    decreases k
  {
    if i < k {
      EntriesStop(raw, slots, read, i, k - 1);
    }
  }

  /** Exactly the proper pages that the bytes are laid out as are accepted. */
  lemma {:induction false} AcceptedAre(raw: seq<Byte>, crc: Crc)
    requires |raw| == PAGE_SIZE
    ensures forall p :: Parse(raw, crc) == Ok(p) <==> PageIs(raw, p, crc) && Proper(p) && Typed(p) && Returns(p)
  {
    hide Parse, PageIs, Proper, Typed, Returns, Encodable;
    forall p
      ensures Parse(raw, crc) == Ok(p) <==> PageIs(raw, p, crc) && Proper(p) && Typed(p) && Returns(p)
    {
      EncodableMeans(p);
      if Parse(raw, crc) == Ok(p) {
        AcceptedIsCanonical(raw, crc);
        ParsedIs(raw, crc);
      }
      if PageIs(raw, p, crc) && Encodable(p) && Typed(p) && Returns(p) {
        IsParsed(raw, p, crc);
      }
    }
  }

  lemma {:induction false} TagRefused(raw: seq<Byte>)
    requires |raw| == PAGE_SIZE
    ensures !(1 <= raw[0] <= 4) ==> ReadHead(raw) == Err(InvalidTag)
    ensures ReadHead(raw) != Err(ChecksumMismatch)
    ensures ReadHead(raw).Ok? ==>
      var (hd, rest) := ReadHead(raw).value; ReadBody(raw, hd, rest) != Err(ChecksumMismatch)
  {
    hide ReadLink, ReadId, ReadNum, FromBigEndian, Slots, RangesOk, Entries, ReadMeta, Children;
  }

  /** `deserialize`, with the loops of the source, computes what the bytes stand for: it accepts exactly the proper
      pages that the bytes are laid out as. */
  method Deserialize(raw: seq<Byte>, crc: Crc) returns (res: Result<Page, DecodeError>)
    requires |raw| == PAGE_SIZE
    ensures res == Parse(raw, crc)
    ensures res.Ok? ==> Encodable(res.value) && Typed(res.value) && Returns(res.value)
    ensures forall p :: res == Ok(p) <==> PageIs(raw, p, crc) && Proper(p) && Typed(p) && Returns(p)
    ensures res == Err(ChecksumMismatch) <==> Num4(raw[17..21]) != crc(raw[..17] + raw[21..])
    ensures Num4(raw[17..21]) == crc(raw[..17] + raw[21..]) && !(1 <= raw[0] <= 4) ==> res == Err(InvalidTag)
  {
    hide ReadHead, ReadBody, Invariant, FromBigEndian, Encodable, Typed, Returns, PageIs, Proper, Num4;
    if Parse(raw, crc).Ok? {
      AcceptedIsCanonical(raw, crc);
    }
    AcceptedAre(raw, crc);
    NumberIs(raw[17..21]);
    TagRefused(raw);
    if FromBigEndian(raw[CHECKSUM_OFFSET..CHECKSUM_OFFSET + 4]) != crc(raw[..CHECKSUM_OFFSET] + raw[CHECKSUM_OFFSET +
        4..]) {
      return Err(ChecksumMismatch);
    }
    var head := ReadHead(raw);
    if head.Err? {
      return Err(head.error);
    }
    var (hd, rest) := head.value;
    var body;
    if hd.tag == 1 {
      body := ReadLeaf(raw, hd, rest);
    } else if hd.tag == 2 {
      body := ReadInternal(raw, hd, rest);
    } else {
      body := ReadOther(raw, hd, rest);
    }
    if body.Err? {
      return Err(body.error);
    }
    var p := Page(hd.id, hd.lsn, body.value);
    var bad := CheckInvariants(p);
    res := if bad.Some? then Err(InvariantViolated) else Ok(p);
  }

  /** The rows of a leaf. */
  method ReadLeaf(raw: seq<Byte>, hd: Head, rest: seq<Byte>) returns (res: Result<Body, DecodeError>)
    requires |raw| == PAGE_SIZE && hd.tag == 1 && hd.count <= MAX_LEAF_ITEMS
    requires PAGE_SIZE - MAX_LEAF_HEADER_SIZE <= |rest| <= PAGE_SIZE
    ensures res == ReadBody(raw, hd, rest)
  {
    hide Entries, RangesOk, Slots;
    var base := PAGE_SIZE - |rest|;
    var ranges := ReadSlotRanges(raw, base, hd.count);
    if ranges.Err? {
      return Err(ranges.error);
    }
    RangesBound(ranges.value, base + 4 * hd.count);
    var rows := DecodeSlots(raw, ranges.value, ReadRow);
    res := if rows.None? then Err(CorruptEntry) else Ok(Leaf(rows.value, hd.next, hd.prev));
  }

  method ReadChildren(raw: seq<Byte>, base: nat, n: nat) returns (children: seq<PageId>)
    requires base + 8 * n <= |raw|
    ensures children == Children(raw, base, n)
  {
    hide ChildAt;
    children := [];
    for i := 0 to n
      invariant |children| == i && forall j :: 0 <= j < i ==> children[j] == ChildAt(raw, base, j)
    {
      children := children + [ChildAt(raw, base, i)];
    }
    assert children == Children(raw, base, n);
  }

  /** The children and the keys of an internal page. */
  method ReadInternal(raw: seq<Byte>, hd: Head, rest: seq<Byte>) returns (res: Result<Body, DecodeError>)
    requires |raw| == PAGE_SIZE && hd.tag == 2 && hd.count <= MAX_INTERNAL_ITEMS
    requires PAGE_SIZE - MAX_INTERNAL_HEADER_SIZE <= |rest| <= PAGE_SIZE
    ensures res == ReadBody(raw, hd, rest)
  {
    hide Entries, RangesOk, Slots, Children;
    var base := PAGE_SIZE - |rest|;
    var children := ReadChildren(raw, base, hd.count + 1);
    var at := base + 8 * (hd.count + 1);
    var ranges := ReadSlotRanges(raw, at, hd.count);
    if ranges.Err? {
      return Err(ranges.error);
    }
    RangesBound(ranges.value, at + 4 * hd.count);
    var keys := DecodeSlots(raw, ranges.value, ReadKey);
    res := if keys.None? then Err(CorruptEntry) else Ok(Internal(keys.value, children));
  }

  /** A free page or a meta page. */
  method ReadOther(raw: seq<Byte>, hd: Head, rest: seq<Byte>) returns (res: Result<Body, DecodeError>)
    requires |raw| == PAGE_SIZE && 3 <= hd.tag <= 4 && hd.count == 0
    requires PAGE_SIZE - MAX_INTERNAL_HEADER_SIZE <= |rest| <= PAGE_SIZE
    ensures res == ReadBody(raw, hd, rest)
  {
    hide ReadMeta, ReadLink;
    if hd.tag == 4 {
      var next := ReadLink(rest);
      res := if next.None? then Err(InvalidPointerTag) else Ok(Free(next.value.0));
    } else {
      var meta := ReadMeta(rest);
      res := if meta.None? then Err(BadMeta) else Ok(meta.value);
    }
  }
}

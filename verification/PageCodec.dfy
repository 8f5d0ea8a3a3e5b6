/** The slotted page on disk: what `as_raw_page` must leave in the 4096 bytes and what `deserialize`
    makes of them (`src/page/codec.rs`, `src/page/mod.rs`). */
module PageCodec {
  import opened Common
  import opened Schemas
  import opened Bytes
  import opened Pages
  import opened ValueCodec

  const CHECKSUM_OFFSET: nat := 17
  const MAX_LEAF_ITEMS: nat := (PAGE_SIZE - (MAX_LEAF_HEADER_SIZE - 2 * PAGE_ID_SIZE)) / (SLOT_ENTRY_SIZE + 3)
  const MAX_INTERNAL_ITEMS: nat := (PAGE_SIZE - MAX_INTERNAL_HEADER_SIZE - PAGE_ID_SIZE) / (SLOT_ENTRY_SIZE +
      PAGE_ID_SIZE + 2)

  type Word32 = n: int | 0 <= n < 0x1_0000_0000

  /** Any function of the page's bytes other than the checksum field can serve as the checksum. */
  type Crc = seq<Byte> -> Word32

  datatype DecodeError =
    | ChecksumMismatch | InvalidTag | InvalidPointerTag | TooManyItems | BadRange | CorruptEntry | BadMeta |
        InvariantViolated

  // -------------------------------------------------------------------- page invariant

  /** `check_invariants`: what every page must satisfy, from disk or from an operation. */
  predicate Invariant(p: Page) {
    && FreeSpace(p).Some?
    && match p.body
       case Leaf(rows, _, _) =>
         && (forall i :: 0 <= i < |rows| ==> RowInvariant(rows[i]))
         && Sorted(RecordKeys(rows))
       case Internal(keys, children) =>
         && |children| == |keys| + 1
         && (forall i :: 0 <= i < |keys| ==> InternalEntrySize(keys[i]) <= MAX_INTERNAL_ENTRY_SIZE)
         && Sorted(keys)
       case Meta(_, count, head, _, name) => (head.Some? ==> head.value.num < count) && |name| <= 65535
       case Free(_) => true
  }

  predicate RowInvariant(r: Row) {
    LeafEntrySize(r) <= MAX_LEAF_ENTRY_SIZE && HasKey(r) && InternalEntrySize(RowKey(r)) <= MAX_INTERNAL_ENTRY_SIZE
  }

  // ------------------------------------------------------------------------ page ids

  predicate IdOk(id: PageId) {
    id.table < 0x1_0000_0000 && id.num < 0x1_0000_0000
  }

  predicate LinkOk(o: Option<PageId>) {
    o.Some? ==> IdOk(o.value)
  }

  function EncId(id: PageId): (b: seq<Byte>)
    ensures |b| == 8
  {
    BigEndian(id.table, 4) + BigEndian(id.num, 4)
  }

  function ReadId(b: seq<Byte>): (r: Reading<PageId>)
    ensures r.Some? ==> IdOk(r.value.0)
    ensures r.Some? <==> |b| >= 8
    ensures r.Some? ==> |r.value.1| == |b| - 8
  {
    Powers();
    match ReadNum(b, 4)
    case None => None
    case Some((t, rest)) =>
      match ReadNum(rest, 4)
      case None => None
      case Some((n, rest')) => Some((PageId(t, n), rest'))
  }

  lemma {:induction false} IdBack(id: PageId, rest: seq<Byte>)
    requires IdOk(id)
    ensures ReadId(EncId(id) + rest) == Some((id, rest))
  {
    hide BigEndian, ReadNum, Pow256;
    Powers();
    assert EncId(id) + rest == BigEndian(id.table, 4) + (BigEndian(id.num, 4) + rest);
    NumBack(id.table, 4, BigEndian(id.num, 4) + rest);
    NumBack(id.num, 4, rest);
  }

  function EncLink(o: Option<PageId>): (b: seq<Byte>)
    ensures |b| == if o.Some? then 9 else 1
  {
    match o
    case None => [0]
    case Some(id) => [1] + EncId(id)
  }

  function ReadLink(b: seq<Byte>): (r: Reading<Option<PageId>>)
    ensures r.Some? ==> LinkOk(r.value.0) && |r.value.1| + (if r.value.0.Some? then 9 else 1) == |b|
  {
    if b == [] then None
    else if b[0] == 0 then Some((None, b[1..]))
    else if b[0] == 1 then
      match ReadId(b[1..])
      case None => None
      case Some((id, rest)) => Some((Some(id), rest))
    else None
  }

  lemma {:induction false} LinkBack(o: Option<PageId>, rest: seq<Byte>)
    requires LinkOk(o)
    ensures ReadLink(EncLink(o) + rest) == Some((o, rest))
  {
    hide EncId, ReadId;
    var b := EncLink(o) + rest;
    match o
    case None =>
      assert b[1..] == rest;
    case Some(id) =>
      IdBack(id, rest);
      assert b[1..] == EncId(id) + rest;
  }

  // -------------------------------------------------------------------------- header

  function Tag(body: Body): Byte {
    match body
    case Leaf(_, _, _) => 1
    case Internal(_, _) => 2
    case Meta(_, _, _, _, _) => 3
    case Free(_) => 4
  }

  function ItemCount(body: Body): nat {
    match body
    case Leaf(rows, _, _) => |rows|
    case Internal(keys, _) => |keys|
    case _ => 0
  }

  function Links(body: Body): seq<Byte> {
    if body.Leaf? then EncLink(body.next) + EncLink(body.prev) else []
  }

  /** The header with an empty checksum field. */
  function Header(p: Page): (b: seq<Byte>)
    ensures 23 <= |b| <= if p.body.Leaf? then MAX_LEAF_HEADER_SIZE else MAX_INTERNAL_HEADER_SIZE
  {
    [Tag(p.body)] + EncId(p.id) + BigEndian(p.lsn, 8) + BigEndian(0, 4) + Links(p.body) + BigEndian(ItemCount(p.body),
        2)
  }

  datatype Head = Head(tag: Byte, id: PageId, lsn: Bits64, next: Option<PageId>, prev: Option<PageId>, count: nat)

  function MaxItems(tag: Byte): nat {
    if tag == 1 then MAX_LEAF_ITEMS else if tag == 2 then MAX_INTERNAL_ITEMS else 0
  }

  /** The header of a page, and what follows it. */
  function ReadHead(raw: seq<Byte>): (r: Result<(Head, seq<Byte>), DecodeError>)
    requires |raw| == PAGE_SIZE
    ensures r.Ok? ==>
      var (hd, rest) := r.value;
      && 1 <= hd.tag <= 4 && hd.count <= MaxItems(hd.tag) && IdOk(hd.id) && LinkOk(hd.next) && LinkOk(hd.prev)
      && |rest| + (if hd.tag == 1 then MAX_LEAF_HEADER_SIZE else MAX_INTERNAL_HEADER_SIZE) >= PAGE_SIZE
      && |rest| <= PAGE_SIZE - 23
  {
    Powers();
    var tag := raw[0];
    var id := ReadId(raw[1..]).value.0;
    var lsn := FromBigEndian(raw[9..17]);
    match (if tag == 1 then ReadLink(raw[21..]) else Some((None, raw[21..])))
    case None => Err(InvalidPointerTag)
    case Some((next, rest1)) =>
      match (if tag == 1 then ReadLink(rest1) else Some((None, rest1)))
      case None => Err(InvalidPointerTag)
      case Some((prev, rest2)) =>
        var (count, rest) := ReadNum(rest2, 2).value;
        if tag < 1 || tag > 4 then Err(InvalidTag)
        else if count > MaxItems(tag) then Err(TooManyItems)
        else Ok((Head(tag, id, lsn, next, prev, count), rest))
  }

  function Patched(b: seq<Byte>, crc: nat): (r: seq<Byte>)
    requires |b| >= 21
    ensures |r| == |b|
  {
    b[..CHECKSUM_OFFSET] + BigEndian(crc, 4) + b[CHECKSUM_OFFSET + 4..]
  }

  /** What the types of a page's fields guarantee. */
  predicate Typed(p: Page) {
    && IdOk(p.id)
    && match p.body
       case Leaf(rows, next, prev) => LinkOk(next) && LinkOk(prev) && forall i :: 0 <= i < |rows| ==>
           forall j :: 0 <= j < |rows[i].fields| ==> ValueText(rows[i].fields[j])
       case Internal(keys, children) =>
         && (forall i :: 0 <= i < |keys| ==> ValueText(ValueOfKey(keys[i])))
         && (forall i :: 0 <= i < |children| ==> IdOk(children[i]))
       case Meta(root, count, head, schema, name) =>
         IdOk(root) && count < 0x1_0000_0000 && LinkOk(head) && ValidSchema(schema) && NamesText(schema.columns)
           && Utf8(name)
       case Free(next) => LinkOk(next)
  }

  /** The header slices of a page whose first bytes are its patched header. */
  lemma {:induction false} HeaderSlices(p: Page, raw: seq<Byte>, c: Word32)
    requires |raw| == PAGE_SIZE && raw[..|Header(p)|] == Patched(Header(p), c)
    ensures raw[0] == Tag(p.body) && raw[1..9] == EncId(p.id) && raw[9..17] == BigEndian(p.lsn, 8)
    ensures raw[17..21] == BigEndian(c, 4)
    ensures raw[21..] == Links(p.body) + (BigEndian(ItemCount(p.body), 2) + raw[|Header(p)|..])
  {
    hide EncId, BigEndian, Links, ItemCount, Tag;
    var h := Header(p);
    var a := [Tag(p.body)] + EncId(p.id) + BigEndian(p.lsn, 8);
    var d := Links(p.body) + BigEndian(ItemCount(p.body), 2);
    assert h == a + BigEndian(0, 4) + d;
    assert h[..17] == a && h[21..] == d;
    assert raw[..17] == a && raw[17..21] == BigEndian(c, 4) && raw[21..|h|] == d by {
      assert raw[..17] == raw[..|h|][..17] && raw[17..21] == raw[..|h|][17..21] && raw[21..|h|] == raw[..|h|][21..];
    }
    assert raw[0] == a[0] && raw[1..9] == a[1..9] && raw[9..17] == a[9..17];
    assert raw[21..] == raw[21..|h|] + raw[|h|..];
  }

  lemma {:induction false} HeadBack(p: Page, raw: seq<Byte>, c: Word32)
    requires |raw| == PAGE_SIZE && raw[..|Header(p)|] == Patched(Header(p), c)
    requires Typed(p) && ItemCount(p.body) <= MaxItems(Tag(p.body))
    ensures var (next, prev) := if p.body.Leaf? then (p.body.next, p.body.prev) else (None, None);
      ReadHead(raw) == Ok((Head(Tag(p.body), p.id, p.lsn, next, prev, ItemCount(p.body)), raw[|Header(p)|..]))
    ensures FromBigEndian(raw[17..21]) == c
  {
    hide EncId, ReadId, BigEndian, FromBigEndian, Header, ReadLink, ReadNum, Patched, Pow256, Links, Invariant;
    HeadStart(p, raw, c);
    LinksBack(p.body, raw[|Header(p)|..]);
    CountSmall(p.body);
    NumBack(ItemCount(p.body), 2, raw[|Header(p)|..]);
  }

  lemma {:induction false} CountSmall(body: Body)
    requires ItemCount(body) <= MaxItems(Tag(body))
    ensures ItemCount(body) < Pow256(2)
  {
    Powers();
  }

  lemma {:induction false} HeadStart(p: Page, raw: seq<Byte>, c: Word32)
    requires |raw| == PAGE_SIZE && raw[..|Header(p)|] == Patched(Header(p), c) && IdOk(p.id)
    ensures raw[0] == Tag(p.body) && ReadId(raw[1..]).value.0 == p.id && FromBigEndian(raw[9..17]) == p.lsn
    ensures FromBigEndian(raw[17..21]) == c
    ensures raw[21..] == Links(p.body) + (BigEndian(ItemCount(p.body), 2) + raw[|Header(p)|..])
  {
    hide EncId, ReadId, BigEndian, FromBigEndian, Header, Patched, Pow256, Links, Tag, ItemCount;
    HeaderSlices(p, raw, c);
    Powers();
    assert raw[1..] == raw[1..9] + raw[9..];
    IdBack(p.id, raw[9..]);
    BigEndianBack(p.lsn, 8);
    BigEndianBack(c, 4);
  }

  lemma {:induction false} LinksBack(body: Body, rest: seq<Byte>)
    requires body.Leaf? ==> LinkOk(body.next) && LinkOk(body.prev)
    ensures var b := Links(body) + (BigEndian(ItemCount(body), 2) + rest);
      if body.Leaf? then
        && ReadLink(b).Some? && ReadLink(b).value.0 == body.next
        && ReadLink(ReadLink(b).value.1) == Some((body.prev, BigEndian(ItemCount(body), 2) + rest))
      else b == BigEndian(ItemCount(body), 2) + rest
  {
    hide EncLink, ReadLink, BigEndian, ItemCount;
    var n := BigEndian(ItemCount(body), 2);
    if body.Leaf? {
      LinkBack(body.next, EncLink(body.prev) + (n + rest));
      LinkBack(body.prev, n + rest);
      assert Links(body) + (n + rest) == EncLink(body.next) + (EncLink(body.prev) + (n + rest));
    } else {
      assert Links(body) + (n + rest) == n + rest;
    }
  }

  // --------------------------------------------------------------------------- slots

  datatype Slot = Slot(offset: nat, length: nat)

  function SlotBytes(s: Slot): (b: seq<Byte>)
    ensures |b| == 4
  {
    BigEndian(s.offset, 2) + BigEndian(s.length, 2)
  }

  function SlotAt(raw: seq<Byte>, base: nat, i: nat): Slot
    requires base + 4 * i + 4 <= |raw|
  {
    Slot(FromBigEndian(raw[base + 4 * i..base + 4 * i + 2]), FromBigEndian(raw[base + 4 * i + 2..base + 4 * i + 4]))
  }

  function Slots(raw: seq<Byte>, base: nat, n: nat): (r: seq<Slot>)
    requires base + 4 * n <= |raw|
    ensures |r| == n
    ensures forall i :: 0 <= i < n ==> r[i] == SlotAt(raw, base, i)
  {
    seq(n, i requires 0 <= i < n => SlotAt(raw, base, i))
  }

  /** A slot points to bytes inside the data area. */
  predicate InArea(s: Slot, start: nat) {
    0 < s.length && start <= s.offset && s.offset + s.length <= PAGE_SIZE
  }

  predicate Apart2(a: Slot, b: Slot) {
    a.offset + a.length <= b.offset || b.offset + b.length <= a.offset
  }

  /** All slots inside the data area and no two overlapping. */
  predicate RangesOk(slots: seq<Slot>, start: nat) {
    && (forall i :: 0 <= i < |slots| ==> InArea(slots[i], start))
    && (forall i, j :: 0 <= i < j < |slots| ==> Apart2(slots[i], slots[j]))
  }

  /** Decodes the first `k` slots, each of which must be used up exactly (`decode_slot`). */
  function Entries<T>(raw: seq<Byte>, slots: seq<Slot>, read: seq<Byte> -> Reading<T>, k: nat): (r: Option<seq<T>>)
    requires k <= |slots| && |raw| == PAGE_SIZE
    requires forall i :: 0 <= i < |slots| ==> slots[i].offset + slots[i].length <= PAGE_SIZE
    ensures r.Some? ==> |r.value| == k
  {
    if k == 0 then Some([])
    else
      match Entries(raw, slots, read, k - 1)
      case None => None
      case Some(xs) =>
        match read(raw[slots[k - 1].offset..slots[k - 1].offset + slots[k - 1].length])
        case None => None
        case Some((x, rest)) => if rest == [] then Some(xs + [x]) else None
  }

  function ChildAt(raw: seq<Byte>, base: nat, i: nat): (id: PageId)
    requires base + 8 * i + 8 <= |raw|
    ensures IdOk(id)
  {
    ReadId(raw[base + 8 * i..base + 8 * i + 8]).value.0
  }

  function Children(raw: seq<Byte>, base: nat, n: nat): (r: seq<PageId>)
    requires base + 8 * n <= |raw|
    ensures |r| == n
    ensures forall i :: 0 <= i < n ==> r[i] == ChildAt(raw, base, i)
  {
    seq(n, i requires 0 <= i < n => ChildAt(raw, base, i))
  }

  // ------------------------------------------------------------------------ meta pages

  function MetaBytes(body: Body): (b: seq<Byte>)
    requires body.Meta?
    ensures |b| <= PAGE_ID_SIZE + 4 + 1 + PAGE_ID_SIZE + SchemaSize(body.schema) + VarintLen(|body.name|) + |body.name|
  {
    EncId(body.root) + BigEndian(body.pageCount, 4) + EncLink(body.freeHead) + EncSchema(body.schema) + Text(body.name)
  }

  function ReadMeta(b: seq<Byte>): (r: Option<Body>)
    ensures r.Some? ==> r.value.Meta?
  {
    match ReadId(b)
    case None => None
    case Some((root, b1)) =>
      match ReadNum(b1, 4)
      case None => None
      case Some((count, b2)) =>
        match ReadLink(b2)
        case None => None
        case Some((head, b3)) =>
          match ReadSchema(b3)
          case None => None
          case Some((schema, b4)) =>
            match ReadText(b4, |b4|)
            case None => None
            case Some((name, _)) => Some(Meta(root, count, head, schema, name))
  }

  lemma {:induction false} MetaBack(body: Body, rest: seq<Byte>)
    requires body.Meta? && Typed(Page(body.root, 0, body))
    ensures ReadMeta(MetaBytes(body) + rest) == if NamesShort(body.schema.columns) then Some(body) else None
  {
    hide EncId, ReadId, BigEndian, EncLink, ReadLink, ReadNum, EncSchema, ReadSchema, Text, ReadText, NamesShort;
    hide Pow256, NamesText, Utf8, ValidSchema;
    var b4 := Text(body.name) + rest;
    var b3 := EncSchema(body.schema) + b4;
    var b2 := EncLink(body.freeHead) + b3;
    var b1 := BigEndian(body.pageCount, 4) + b2;
    assert MetaBytes(body) + rest == EncId(body.root) + b1;
    IdBack(body.root, b1);
    Powers();
    NumBack(body.pageCount, 4, b2);
    LinkBack(body.freeHead, b3);
    SchemaBack(body.schema, b4);
    TextBack(body.name, |b4|, rest);
  }

  // ------------------------------------------------------------------------- decoding

  function ReadBody(raw: seq<Byte>, hd: Head, rest: seq<Byte>): (r: Result<Body, DecodeError>)
    requires |raw| == PAGE_SIZE && 1 <= hd.tag <= 4 && hd.count <= MaxItems(hd.tag)
    requires PAGE_SIZE - (if hd.tag == 1 then MAX_LEAF_HEADER_SIZE else MAX_INTERNAL_HEADER_SIZE) <= |rest| <= PAGE_SIZE
  {
    var base := PAGE_SIZE - |rest|;
    if hd.tag == 1 then
      var slots := Slots(raw, base, hd.count);
      if !RangesOk(slots, base + 4 * hd.count) then Err(BadRange)
      else
        match Entries(raw, slots, ReadRow, hd.count)
        case None => Err(CorruptEntry)
        case Some(rows) => Ok(Leaf(rows, hd.next, hd.prev))
    else if hd.tag == 2 then
      var children := Children(raw, base, hd.count + 1);
      var slots := Slots(raw, base + 8 * (hd.count + 1), hd.count);
      if !RangesOk(slots, base + 8 * (hd.count + 1) + 4 * hd.count) then Err(BadRange)
      else
        match Entries(raw, slots, ReadKey, hd.count)
        case None => Err(CorruptEntry)
        case Some(keys) => Ok(Internal(keys, children))
    else if hd.tag == 4 then
      match ReadLink(rest)
      case None => Err(InvalidPointerTag)
      case Some((next, _)) => Ok(Free(next))
    else
      match ReadMeta(rest)
      case None => Err(BadMeta)
      case Some(body) => Ok(body)
  }

  /** `deserialize`: what the 4096 bytes of a page stand for. */
  function Parse(raw: seq<Byte>, crc: Crc): (r: Result<Page, DecodeError>)
    requires |raw| == PAGE_SIZE
  {
    if FromBigEndian(raw[CHECKSUM_OFFSET..CHECKSUM_OFFSET + 4]) != crc(raw[..CHECKSUM_OFFSET] + raw[CHECKSUM_OFFSET +
        4..]) then Err(ChecksumMismatch)
    else
      match ReadHead(raw)
      case Err(e) => Err(e)
      case Ok((hd, rest)) =>
        match ReadBody(raw, hd, rest)
        case Err(e) => Err(e)
        case Ok(body) =>
          if Invariant(Page(hd.id, hd.lsn, body)) then Ok(Page(hd.id, hd.lsn, body)) else Err(InvariantViolated)
  }

  // ------------------------------------------------------------------- what is written

  function Lens(encs: seq<seq<Byte>>): (r: seq<nat>)
    ensures |r| == |encs| && forall i :: 0 <= i < |r| ==> r[i] == |encs[i]|
  {
    seq(|encs|, i requires 0 <= i < |encs| => |encs[i]|)
  }

  /** Data bytes of the first `i` entries. */
  function Used(encs: seq<seq<Byte>>, i: nat): nat
    requires i <= |encs|
  {
    Sum(Lens(encs)[..i])
  }

  lemma {:induction false} UsedStep(encs: seq<seq<Byte>>, i: nat)
    requires i < |encs|
    ensures Used(encs, i + 1) == Used(encs, i) + |encs[i]|
  {
    PrefixStep(Lens(encs), i);
  }

  lemma {:induction false} UsedGrows(encs: seq<seq<Byte>>, i: nat, j: nat)
    requires i <= j <= |encs|
    ensures Used(encs, i) <= Used(encs, j)
  {
    PrefixGrows(Lens(encs), i, j);
  }

  /** Entry `i` ends where the one before it begins: data grows downward from the end of the page. */
  function SlotOf(encs: seq<seq<Byte>>, i: nat): Slot
    requires i < |encs| && Used(encs, |encs|) <= PAGE_SIZE
  {
    UsedGrows(encs, i + 1, |encs|);
    Slot(PAGE_SIZE - Used(encs, i + 1), |encs[i]|)
  }

  predicate EntryWritten(raw: seq<Byte>, base: nat, encs: seq<seq<Byte>>, i: nat)
    requires |raw| == PAGE_SIZE && i < |encs| && base + 4 * |encs| + Used(encs, |encs|) <= PAGE_SIZE
  {
    var s := SlotOf(encs, i);
    UsedStep(encs, i);
    raw[base + 4 * i..base + 4 * i + 4] == SlotBytes(s) && raw[s.offset..s.offset + s.length] == encs[i]
  }

  /** The first `k` entries are in place: slots upward from `base`, data downward from the end. */
  predicate Written(raw: seq<Byte>, base: nat, encs: seq<seq<Byte>>, k: nat)
    requires |raw| == PAGE_SIZE && k <= |encs| && base + 4 * |encs| + Used(encs, |encs|) <= PAGE_SIZE
  {
    forall i :: 0 <= i < k ==> EntryWritten(raw, base, encs, i)
  }

  lemma {:induction false} SlotBack(raw: seq<Byte>, base: nat, i: nat, s: Slot)
    requires base + 4 * i + 4 <= |raw| && raw[base + 4 * i..base + 4 * i + 4] == SlotBytes(s) && s.offset < 65536
    requires s.length < 65536
    ensures SlotAt(raw, base, i) == s
  {
    hide BigEndian, FromBigEndian, Pow256;
    Powers();
    var at := base + 4 * i;
    assert raw[at..at + 2] == raw[at..at + 4][..2] && raw[at + 2..at + 4] == raw[at..at + 4][2..];
    BigEndianBack(s.offset, 2);
    BigEndianBack(s.length, 2);
  }

  /** Slots and data never cross, so written slots are in the data area and do not overlap. */
  lemma {:induction false} WrittenRanges(raw: seq<Byte>, base: nat, encs: seq<seq<Byte>>)
    requires |raw| == PAGE_SIZE && base + 4 * |encs| + Used(encs, |encs|) <= PAGE_SIZE
    requires Written(raw, base, encs, |encs|) && forall i :: 0 <= i < |encs| ==> 0 < |encs[i]|
    ensures forall i :: 0 <= i < |encs| ==> SlotAt(raw, base, i) == SlotOf(encs, i)
    ensures RangesOk(Slots(raw, base, |encs|), base + 4 * |encs|)
  {
    hide SlotAt, SlotBytes, Used, Written;
    forall i | 0 <= i < |encs|
      ensures SlotAt(raw, base, i) == SlotOf(encs, i) && InArea(SlotOf(encs, i), base + 4 * |encs|)
    {
      assert EntryWritten(raw, base, encs, i) by { WrittenAt(raw, base, encs, |encs|, i); }
      UsedGrows(encs, i + 1, |encs|);
      UsedStep(encs, i);
      SlotBack(raw, base, i, SlotOf(encs, i));
    }
    forall i, j | 0 <= i < j < |encs|
      ensures Apart2(SlotOf(encs, i), SlotOf(encs, j))
    {
      UsedGrows(encs, i + 1, j);
      UsedStep(encs, j);
    }
  }

  lemma {:induction false} WrittenAt(raw: seq<Byte>, base: nat, encs: seq<seq<Byte>>, k: nat, i: nat)
    requires |raw| == PAGE_SIZE && k <= |encs| && base + 4 * |encs| + Used(encs, |encs|) <= PAGE_SIZE
    requires Written(raw, base, encs, k) && i < k
    ensures EntryWritten(raw, base, encs, i)
  {
  }

  /** Reading written entries gives back what was encoded. */
  lemma {:induction false} EntriesBack<T>(raw: seq<Byte>, base: nat, encs: seq<seq<Byte>>,
                                          read: seq<Byte> -> Reading<T>, xs: seq<T>)
    requires |raw| == PAGE_SIZE && base + 4 * |encs| + Used(encs, |encs|) <= PAGE_SIZE
    requires Written(raw, base, encs, |encs|)
    requires |xs| == |encs| && (forall i :: 0 <= i < |encs| ==> read(encs[i]) == Some((xs[i], [])))
    requires forall i :: 0 <= i < |encs| ==> SlotAt(raw, base, i).offset + SlotAt(raw, base, i).length <= PAGE_SIZE
    ensures Entries(raw, Slots(raw, base, |encs|), read, |encs|) == Some(xs)
  {
    hide SlotAt, Used, Written, Entries, SlotOf;
    var slots := Slots(raw, base, |encs|);
    forall i | 0 <= i < |encs|
      ensures raw[slots[i].offset..slots[i].offset + slots[i].length] == encs[i]
    {
      SlotHolds(raw, base, encs, i);
    }
    EntriesFrom(raw, slots, encs, read, xs, |encs|);
    assert xs[..|encs|] == xs;
  }

  /** Slots that point at encoded entries give these entries back. */
  lemma {:induction false} EntriesFrom<T>(raw: seq<Byte>, slots: seq<Slot>, encs: seq<seq<Byte>>,
                                          read: seq<Byte> -> Reading<T>, xs: seq<T>, k: nat)
    requires |raw| == PAGE_SIZE && |slots| == |encs| == |xs| && k <= |slots|
    requires forall i :: 0 <= i < |slots| ==> slots[i].offset + slots[i].length <= PAGE_SIZE
    requires forall i :: 0 <= i < |slots| ==> raw[slots[i].offset..slots[i].offset + slots[i].length] == encs[i]
    requires forall i :: 0 <= i < |slots| ==> read(encs[i]) == Some((xs[i], []))
    ensures Entries(raw, slots, read, k) == Some(xs[..k])
  {
    if k > 0 {
      EntriesFrom(raw, slots, encs, read, xs, k - 1);
      EntriesNext(raw, slots, read, xs, k);
    }
  }

  /** The slot at position `i` points at entry `i`. */
  lemma {:induction false} SlotHolds(raw: seq<Byte>, base: nat, encs: seq<seq<Byte>>, i: nat)
    requires |raw| == PAGE_SIZE && base + 4 * |encs| + Used(encs, |encs|) <= PAGE_SIZE
    requires Written(raw, base, encs, |encs|) && i < |encs|
    ensures var s := SlotAt(raw, base, i);
      s.offset + s.length <= PAGE_SIZE && raw[s.offset..s.offset + s.length] == encs[i]
  {
    hide SlotAt, SlotBytes, Used, Written;
    WrittenAt(raw, base, encs, |encs|, i);
    UsedGrows(encs, i + 1, |encs|);
    UsedStep(encs, i);
    SlotBack(raw, base, i, SlotOf(encs, i));
  }

  /** One entry more. */
  lemma {:induction false} EntriesNext<T>(raw: seq<Byte>, slots: seq<Slot>, read: seq<Byte> -> Reading<T>, xs: seq<T>,
                                          k: nat)
    requires 0 < k <= |slots| == |xs| && |raw| == PAGE_SIZE
    requires forall i :: 0 <= i < |slots| ==> slots[i].offset + slots[i].length <= PAGE_SIZE
    requires Entries(raw, slots, read, k - 1) == Some(xs[..k - 1])
    requires var s := slots[k - 1]; read(raw[s.offset..s.offset + s.length]) == Some((xs[k - 1], []))
    ensures Entries(raw, slots, read, k) == Some(xs[..k])
  {
    assert xs[..k] == xs[..k - 1] + [xs[k - 1]];
  }

  // ----------------------------------------------------------------------- capacity

  lemma {:induction false} SumShift(a: seq<nat>, b: seq<nat>, c: nat)
    requires |a| == |b| && forall i :: 0 <= i < |a| ==> b[i] == a[i] + c
    ensures Sum(b) == Sum(a) + c * |a|
  {
    if a != [] {
      SumShift(a[1..], b[1..], c);
    }
  }

  lemma {:induction false} SumAtLeast(s: seq<nat>, min: nat)
    requires forall i :: 0 <= i < |s| ==> min <= s[i]
    ensures min * |s| <= Sum(s)
  {
    if s != [] {
      SumAtLeast(s[1..], min);
    }
  }

  /** Rows short enough to be written with a one-byte field count. */
  predicate RowsShort(rows: seq<Row>) {
    forall i :: 0 <= i < |rows| ==> |rows[i].fields| <= MAX_NUM_FIELDS
  }

  function RowEncs(rows: seq<Row>): (r: seq<seq<Byte>>)
    requires RowsShort(rows)
    ensures |r| == |rows| && forall i :: 0 <= i < |r| ==> r[i] == EncRow(rows[i])
  {
    seq(|rows|, i requires 0 <= i < |rows| => EncRow(rows[i]))
  }

  function KeyEncs(keys: seq<Key>): (r: seq<seq<Byte>>)
    ensures |r| == |keys| && forall i :: 0 <= i < |r| ==> r[i] == EncKey(keys[i])
  {
    seq(|keys|, i requires 0 <= i < |keys| => EncKey(keys[i]))
  }

  lemma {:induction false} UsedAll(encs: seq<seq<Byte>>)
    ensures Used(encs, |encs|) == Sum(Lens(encs))
  {
    assert Lens(encs)[..|encs|] == Lens(encs);
  }

  /** A leaf within its budget has room for its slots and its data, and its row count is one that the
      reader accepts. */
  lemma {:induction false} LeafRoom(p: Page)
    requires p.body.Leaf? && Invariant(p) && RowsShort(p.body.records)
    ensures var rows := p.body.records;
      |Header(p)| + 4 * |rows| + Used(RowEncs(rows), |rows|) <= PAGE_SIZE && |rows| <= MAX_LEAF_ITEMS
  {
    hide EncRow, Header, Sum;
    var rows := p.body.records;
    var encs := RowEncs(rows);
    UsedAll(encs);
    SumShift(Lens(encs), RowSizes(rows), 4);
    forall i | 0 <= i < |rows|
      ensures 7 <= RowSizes(rows)[i]
    {
      KeyedRowSize(rows[i]);
    }
    SumAtLeast(RowSizes(rows), 7);
  }

  lemma {:induction false} KeyedRowSize(r: Row)
    requires RowInvariant(r)
    ensures 7 <= LeafEntrySize(r)
  {
    assert FieldsSize(r.fields) == ValueSize(r.fields[0]) + FieldsSize(r.fields[1..]);
  }

  lemma {:induction false} InternalRoom(p: Page)
    requires p.body.Internal? && Invariant(p)
    ensures var keys := p.body.keys;
      |Header(p)| + 8 * (|keys| + 1) + 4 * |keys| + Used(KeyEncs(keys), |keys|) <= PAGE_SIZE
        && |keys| <= MAX_INTERNAL_ITEMS
  {
    hide EncKey, Header, Sum;
    var keys := p.body.keys;
    var encs := KeyEncs(keys);
    UsedAll(encs);
    SumShift(Lens(encs), KeySizes(keys), 12);
    SumAtLeast(KeySizes(keys), 14);
  }

  /** A row within the entry limit has no field that is too long to write. */
  lemma {:induction false} RowIsWritable(r: Row)
    requires RowInvariant(r) && |r.fields| <= MAX_NUM_FIELDS
    requires forall j :: 0 <= j < |r.fields| ==> ValueText(r.fields[j])
    ensures RowWritable(r)
  {
    hide Utf8, FieldsSize;
    forall j | 0 <= j < |r.fields|
      ensures Writable(r.fields[j])
    {
      FieldWithin(r.fields, j);
    }
  }

  lemma {:induction false} KeyIsWritable(k: Key)
    requires InternalEntrySize(k) <= MAX_INTERNAL_ENTRY_SIZE && ValueText(ValueOfKey(k))
    ensures KeyWritable(k)
  {
  }

  // ---------------------------------------------------------------------- round trip

  /** Exactly the pages that `as_raw_page` accepts. */
  predicate Encodable(p: Page) {
    Invariant(p) && (p.body.Leaf? ==> RowsShort(p.body.records))
  }

  /** Exactly those of them that come back. */
  predicate Returns(p: Page) {
    p.body.Meta? ==> NamesShort(p.body.schema.columns)
  }

  ghost predicate IdsWritten(raw: seq<Byte>, base: nat, ids: seq<PageId>, k: nat)
    requires k <= |ids| && base + 8 * |ids| <= |raw|
  {
    forall i :: 0 <= i < k ==> raw[base + 8 * i..base + 8 * i + 8] == EncId(ids[i])
  }

  /** The body of `p` is in place after its header. */
  ghost predicate BodyWritten(raw: seq<Byte>, p: Page)
    requires |raw| == PAGE_SIZE && Encodable(p)
  {
    var base := |Header(p)|;
    match p.body
    case Leaf(rows, _, _) =>
      LeafRoom(p);
      Written(raw, base, RowEncs(rows), |rows|)
    case Internal(keys, children) =>
      InternalRoom(p);
      IdsWritten(raw, base, children, |children|) && Written(raw, base + 8 * |children|, KeyEncs(keys), |keys|)
    case Free(next) =>
      raw[base..base + |EncLink(next)|] == EncLink(next)
    case Meta(_, _, _, _, _) =>
      base + |MetaBytes(p.body)| <= PAGE_SIZE && raw[base..base + |MetaBytes(p.body)|] == MetaBytes(p.body)
  }

  lemma {:induction false} HeaderLength(p: Page)
    requires !p.body.Leaf?
    ensures |Header(p)| == 23
  {
  }

  lemma {:induction false} LeafBack(p: Page, raw: seq<Byte>)
    requires |raw| == PAGE_SIZE && p.body.Leaf? && Encodable(p) && Typed(p) && BodyWritten(raw, p)
    ensures |p.body.records| <= MAX_LEAF_ITEMS
    ensures ReadBody(raw, Head(1, p.id, p.lsn, p.body.next, p.body.prev, |p.body.records|),
        raw[|Header(p)|..]) == Ok(p.body)
  {
    hide Header, EncRow, ReadRow, Used, Written, RangesOk, SlotAt, Utf8, RowWritable, RowInvariant, FreeSpace, Sorted;
    hide Entries;
    LeafRoom(p);
    var base, rows := |Header(p)|, p.body.records;
    var encs := RowEncs(rows);
    forall i | 0 <= i < |rows|
      ensures ReadRow(encs[i]) == Some((rows[i], [])) && 0 < |encs[i]|
    {
      RowIsWritable(rows[i]);
      RowBack(rows[i]);
    }
    WrittenRanges(raw, base, encs);
    RangesBound(Slots(raw, base, |rows|), base + 4 * |rows|);
    EntriesBack(raw, base, encs, ReadRow, rows);
  }

  lemma {:induction false} RangesBound(slots: seq<Slot>, start: nat)
    requires RangesOk(slots, start)
    ensures forall i :: 0 <= i < |slots| ==> slots[i].offset + slots[i].length <= PAGE_SIZE
  {
  }

  lemma {:induction false} ChildrenBack(raw: seq<Byte>, base: nat, ids: seq<PageId>)
    requires base + 8 * |ids| <= |raw| && IdsWritten(raw, base, ids, |ids|)
    requires forall i :: 0 <= i < |ids| ==> IdOk(ids[i])
    ensures Children(raw, base, |ids|) == ids
  {
    hide EncId, ReadId;
    forall i | 0 <= i < |ids|
      ensures ChildAt(raw, base, i) == ids[i]
    {
      IdBack(ids[i], []);
      assert EncId(ids[i]) + [] == EncId(ids[i]);
    }
  }

  lemma {:induction false} InternalBack(p: Page, raw: seq<Byte>)
    requires |raw| == PAGE_SIZE && p.body.Internal? && Encodable(p) && Typed(p) && BodyWritten(raw, p)
    ensures |p.body.keys| <= MAX_INTERNAL_ITEMS
    ensures ReadBody(raw, Head(2, p.id, p.lsn, None, None, |p.body.keys|), raw[|Header(p)|..]) == Ok(p.body)
  {
    hide EncKey, ReadKey, Used, Written, RangesOk, Slots, IdsWritten, Children, Utf8, ValueText, Header, Entries;
    hide KeyEncs, Sorted, FreeSpace;
    InternalRoom(p);
    HeaderLength(p);
    var base, keys, children := |Header(p)|, p.body.keys, p.body.children;
    KeysBack(raw, base + 8 * |children|, keys);
    ChildrenBack(raw, base, children);
  }

  lemma {:induction false} KeysBack(raw: seq<Byte>, at: nat, keys: seq<Key>)
    requires |raw| == PAGE_SIZE && at + 4 * |keys| + Used(KeyEncs(keys), |keys|) <= PAGE_SIZE
    requires Written(raw, at, KeyEncs(keys), |keys|)
    requires forall i :: 0 <= i < |keys| ==>
      InternalEntrySize(keys[i]) <= MAX_INTERNAL_ENTRY_SIZE && ValueText(ValueOfKey(keys[i]))
    ensures RangesOk(Slots(raw, at, |keys|), at + 4 * |keys|)
    ensures Entries(raw, Slots(raw, at, |keys|), ReadKey, |keys|) == Some(keys)
  {
    hide EncKey, ReadKey, Used, Written, RangesOk, SlotAt, KeyWritable, InternalEntrySize, ValueText;
    var encs := KeyEncs(keys);
    forall i | 0 <= i < |keys|
      ensures ReadKey(encs[i]) == Some((keys[i], [])) && 0 < |encs[i]|
    {
      KeyIsWritable(keys[i]);
      KeyBack(keys[i]);
    }
    WrittenRanges(raw, at, encs);
    RangesBound(Slots(raw, at, |keys|), at + 4 * |keys|);
    EntriesBack(raw, at, encs, ReadKey, keys);
  }

  lemma {:induction false} SliceStart(raw: seq<Byte>, at: nat, b: seq<Byte>)
    requires at + |b| <= |raw| && raw[at..at + |b|] == b
    ensures raw[at..] == b + raw[at + |b|..]
  {
  }

  lemma {:induction false} OtherBack(p: Page, raw: seq<Byte>)
    requires |raw| == PAGE_SIZE && (p.body.Meta? || p.body.Free?) && Encodable(p) && Typed(p) && BodyWritten(raw, p)
    ensures ReadBody(raw, Head(Tag(p.body), p.id, p.lsn, None, None, 0), raw[|Header(p)|..]) ==
      if Returns(p) then Ok(p.body) else Err(BadMeta)
  {
    HeaderLength(p);
    hide Header, Encodable, BodyWritten, ReadBody, Typed, Returns;
    if p.body.Meta? {
      MetaBodyBack(p, raw);
    } else {
      FreeBodyBack(p, raw);
    }
  }

  lemma {:induction false} MetaBodyBack(p: Page, raw: seq<Byte>)
    requires |raw| == PAGE_SIZE && p.body.Meta? && Encodable(p) && Typed(p) && BodyWritten(raw, p)
    requires |Header(p)| <= MAX_INTERNAL_HEADER_SIZE
    ensures ReadBody(raw, Head(3, p.id, p.lsn, None, None, 0), raw[|Header(p)|..]) ==
      if Returns(p) then Ok(p.body) else Err(BadMeta)
  {
    hide Header, MetaBytes, ReadMeta, NamesShort, Utf8, NamesText, ValidSchema, FreeSpace, Invariant;
    var n := |MetaBytes(p.body)|;
    SliceStart(raw, |Header(p)|, MetaBytes(p.body));
    MetaBack(p.body, raw[|Header(p)| + n..]);
  }

  lemma {:induction false} FreeBodyBack(p: Page, raw: seq<Byte>)
    requires |raw| == PAGE_SIZE && p.body.Free? && Encodable(p) && Typed(p) && BodyWritten(raw, p)
    requires |Header(p)| <= MAX_INTERNAL_HEADER_SIZE
    ensures ReadBody(raw, Head(4, p.id, p.lsn, None, None, 0), raw[|Header(p)|..]) == Ok(p.body) && Returns(p)
  {
    hide Header, EncLink, ReadLink, FreeSpace, Invariant;
    var n := |EncLink(p.body.nextFree)|;
    SliceStart(raw, |Header(p)|, EncLink(p.body.nextFree));
    LinkBack(p.body.nextFree, raw[|Header(p)| + n..]);
  }

  /** Every page that can be written is read back, and is the same page, for every checksum function;
      except that a meta page with a column name too long for the reader is refused. */
  lemma {:induction false} RoundTrip(p: Page, raw: seq<Byte>, crc: Crc)
    requires |raw| == PAGE_SIZE && Encodable(p) && Typed(p) && BodyWritten(raw, p)
    requires raw[..|Header(p)|] == Patched(Header(p), crc(raw[..CHECKSUM_OFFSET] + raw[CHECKSUM_OFFSET + 4..]))
    ensures Parse(raw, crc) == if Returns(p) then Ok(p) else Err(BadMeta)
  {
    hide Header, ReadHead, ReadBody, BodyWritten, Patched, FromBigEndian, NamesShort, Typed, FreeSpace;
    var c := crc(raw[..CHECKSUM_OFFSET] + raw[CHECKSUM_OFFSET + 4..]);
    match p.body
    case Leaf(_, _, _) =>
      LeafBack(p, raw);
      HeadBack(p, raw, c);
    case Internal(_, _) =>
      InternalBack(p, raw);
      HeadBack(p, raw, c);
    case _ =>
      OtherBack(p, raw);
      HeadBack(p, raw, c);
  }

  lemma {:induction false} EntryRead<T>(raw: seq<Byte>, slots: seq<Slot>, read: seq<Byte> -> Reading<T>, k: nat, i: nat)
    returns (b: seq<Byte>)
    requires k <= |slots| && |raw| == PAGE_SIZE
    requires forall j :: 0 <= j < |slots| ==> slots[j].offset + slots[j].length <= PAGE_SIZE
    requires Entries(raw, slots, read, k).Some? && i < k
    ensures read(b).Some? && read(b).value.0 == Entries(raw, slots, read, k).value[i]
  {
    if i == k - 1 {
      b := raw[slots[k - 1].offset..slots[k - 1].offset + slots[k - 1].length];
    } else {
      b := EntryRead(raw, slots, read, k - 1, i);
    }
  }

  lemma {:induction false} RowsRead(raw: seq<Byte>, slots: seq<Slot>, k: nat)
    requires k <= |slots| && |raw| == PAGE_SIZE
    requires forall j :: 0 <= j < |slots| ==> slots[j].offset + slots[j].length <= PAGE_SIZE
    requires Entries(raw, slots, ReadRow, k).Some?
    ensures forall i :: 0 <= i < k ==> RowWritable(Entries(raw, slots, ReadRow, k).value[i])
  {
    forall i | 0 <= i < k
      ensures RowWritable(Entries(raw, slots, ReadRow, k).value[i])
    {
      hide Entries, ReadRow, RowWritable;
      var b := EntryRead(raw, slots, ReadRow, k, i);
    }
  }

  lemma {:induction false} KeysRead(raw: seq<Byte>, slots: seq<Slot>, k: nat)
    requires k <= |slots| && |raw| == PAGE_SIZE
    requires forall j :: 0 <= j < |slots| ==> slots[j].offset + slots[j].length <= PAGE_SIZE
    requires Entries(raw, slots, ReadKey, k).Some?
    ensures forall i :: 0 <= i < k ==> KeyWritable(Entries(raw, slots, ReadKey, k).value[i])
  {
    forall i | 0 <= i < k
      ensures KeyWritable(Entries(raw, slots, ReadKey, k).value[i])
    {
      hide Entries, ReadKey, KeyWritable;
      var b := EntryRead(raw, slots, ReadKey, k, i);
    }
  }

  lemma {:induction false} MetaRead(b: seq<Byte>)
    requires ReadMeta(b).Some?
    ensures var body := ReadMeta(b).value;
      && body.Meta? && IdOk(body.root) && body.pageCount < 0x1_0000_0000 && LinkOk(body.freeHead)
      && ValidSchema(body.schema) && NamesText(body.schema.columns) && NamesShort(body.schema.columns)
      && Utf8(body.name)
  {
    hide ReadId, ReadLink, ReadNum, ReadSchema, ReadText, NamesShort, NamesText, Utf8, ValidSchema;
    Powers();
    hide Pow256;
  }

  /** Whatever bytes are accepted, the page they give can be written again and comes back the same. */
  lemma {:induction false} AcceptedIsCanonical(raw: seq<Byte>, crc: Crc)
    requires |raw| == PAGE_SIZE && Parse(raw, crc).Ok?
    ensures var p := Parse(raw, crc).value; Encodable(p) && Typed(p) && Returns(p)
  {
    hide ReadHead, ReadBody, Invariant, Typed, Returns, RowsShort, FromBigEndian;
    var (hd, rest) := ReadHead(raw).value;
    BodyRead(raw, hd, rest);
  }

  /** A body that is read holds what the types allow, and rows and names short enough to be written and read. */
  lemma {:induction false} BodyRead(raw: seq<Byte>, hd: Head, rest: seq<Byte>)
    requires |raw| == PAGE_SIZE && 1 <= hd.tag <= 4 && hd.count <= MaxItems(hd.tag)
    requires PAGE_SIZE - (if hd.tag == 1 then MAX_LEAF_HEADER_SIZE else MAX_INTERNAL_HEADER_SIZE) <= |rest| <= PAGE_SIZE
    requires ReadBody(raw, hd, rest).Ok? && IdOk(hd.id) && LinkOk(hd.next) && LinkOk(hd.prev)
    ensures var p := Page(hd.id, hd.lsn, ReadBody(raw, hd, rest).value);
      Typed(p) && Returns(p) && (p.body.Leaf? ==> RowsShort(p.body.records))
  {
    hide ReadMeta, ReadLink, Entries, RangesOk, Slots, NamesShort, NamesText, Utf8, ValidSchema, ChildAt;
    var base := PAGE_SIZE - |rest|;
    if hd.tag == 1 {
      var slots := Slots(raw, base, hd.count);
      RangesBound(slots, base + 4 * hd.count);
      RowsRead(raw, slots, hd.count);
    } else if hd.tag == 2 {
      var slots := Slots(raw, base + 8 * (hd.count + 1), hd.count);
      RangesBound(slots, base + 8 * (hd.count + 1) + 4 * hd.count);
      KeysRead(raw, slots, hd.count);
    } else if hd.tag == 3 {
      MetaRead(rest);
    }
  }
}

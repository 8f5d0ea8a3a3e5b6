/** The 4096 bytes of a page, position by position: tags, big-endian numbers, lengths and slots. Nothing here speaks
    of how a page is written or read. */
module Layout {
  import opened Common
  import opened Schemas
  import opened Pages
  import PageCodec

  // ------------------------------------------------------------------------- numbers

  ghost function Num2(b: seq<Byte>): nat
    requires |b| == 2
  {
    0x100 * (b[0] as int) + b[1]
  }

  ghost function Num4(b: seq<Byte>): nat
    requires |b| == 4
  {
    0x100_0000 * (b[0] as int) + 0x1_0000 * (b[1] as int) + 0x100 * (b[2] as int) + b[3]
  }

  ghost function Num8(b: seq<Byte>): nat
    requires |b| == 8
  {
    0x1_0000_0000 * Num4(b[..4]) + Num4(b[4..])
  }

  /** The low seven bits of the bytes, the first byte least significant. */
  ghost function SevenBits(b: seq<Byte>): nat {
    if b == [] then 0 else b[0] % 128 + 128 * SevenBits(b[1..])
  }

  /** A length: seven bits a byte, the top bit set on all bytes but the last. */
  ghost predicate LengthIs(b: seq<Byte>, n: nat) {
    && b != [] && (forall i :: 0 <= i < |b| - 1 ==> b[i] >= 128) && b[|b| - 1] < 128
    && n == SevenBits(b)
  }

  /** Text after its length. */
  ghost predicate TextIs(b: seq<Byte>, s: seq<Byte>) {
    |s| < |b| && LengthIs(b[..|b| - |s|], |s|) && b[|b| - |s|..] == s
  }

  // -------------------------------------------------------------------------- values

  /** A value: a tag from 0 to 4, and a number in two's complement, the 64 bits of a float, text, or 0 or 1. */
  ghost predicate ValueIs(b: seq<Byte>, v: RowValue) {
    match v
    case NullV => b == [0]
    case IntV(n) =>
      |b| == 9 && b[0] == 1 && Num8(b[1..]) == (if n < 0 then n + 0x1_0000_0000_0000_0000 else n)
    case FloatV(bits) => |b| == 9 && b[0] == 2 && Num8(b[1..]) == bits
    case StrV(s) => b != [] && b[0] == 3 && TextIs(b[1..], s)
    case BoolV(f) => b == [4, if f then 1 else 0]
  }

  /** The values one after the other. */
  ghost predicate FieldsAre(b: seq<Byte>, fs: seq<RowValue>) {
    if fs == [] then b == []
    else exists n :: 0 <= n <= |b| && ValueIs(b[..n], fs[0]) && FieldsAre(b[n..], fs[1..])
  }

  /** The number of fields in one byte, and the fields. */
  ghost predicate RowIs(b: seq<Byte>, r: Row) {
    b != [] && b[0] == |r.fields| && FieldsAre(b[1..], r.fields)
  }

  ghost predicate KeyIs(b: seq<Byte>, k: Key) {
    match k
    case IntKey(n) => ValueIs(b, IntV(n))
    case StrKey(s) => ValueIs(b, StrV(s))
  }

  // ------------------------------------------------------------------ pages and links

  ghost predicate IdIs(b: seq<Byte>, id: PageId) {
    |b| == 8 && Num4(b[..4]) == id.table && Num4(b[4..]) == id.num
  }

  ghost predicate LinkIs(b: seq<Byte>, o: Option<PageId>) {
    match o
    case None => b == [0]
    case Some(id) => |b| == 9 && b[0] == 1 && IdIs(b[1..], id)
  }

  ghost function LinkWidth(o: Option<PageId>): nat {
    if o.Some? then 9 else 1
  }

  // ------------------------------------------------------------------------- schemas

  /** Type tag, nullability, name. */
  ghost predicate ColumnIs(b: seq<Byte>, c: Column) {
    && |b| > 2
    && b[0] == (match c.colType
                case IntegerCol => 1
                case FloatCol => 2
                case StringCol => 3
                case BoolCol => 4)
    && b[1] == (if c.nullable then 1 else 0)
    && TextIs(b[2..], c.name)
  }

  ghost predicate ColumnsAre(b: seq<Byte>, cs: seq<Column>) {
    if cs == [] then b == []
    else exists n :: 0 <= n <= |b| && ColumnIs(b[..n], cs[0]) && ColumnsAre(b[n..], cs[1..])
  }

  ghost predicate SchemaIs(b: seq<Byte>, s: Schema) {
    exists n :: 0 <= n <= |b| && LengthIs(b[..n], |s.columns|) && ColumnsAre(b[n..], s.columns)
  }

  // --------------------------------------------------------------------------- slots

  /** Where the `i`-th slot after `base` points: two bytes each for offset and length. */
  ghost function OffsetAt(raw: seq<Byte>, base: nat, i: nat): nat
    requires base + 4 * i + 4 <= |raw|
  {
    Num2(raw[base + 4 * i..base + 4 * i + 2])
  }

  ghost function LengthAt(raw: seq<Byte>, base: nat, i: nat): nat
    requires base + 4 * i + 4 <= |raw|
  {
    Num2(raw[base + 4 * i + 2..base + 4 * i + 4])
  }

  /** The `n` slots after `base` point to disjoint ranges behind them. */
  ghost predicate SlotsFit(raw: seq<Byte>, base: nat, n: nat) {
    && base + 4 * n <= |raw|
    && (forall i :: 0 <= i < n ==>
          base + 4 * n <= OffsetAt(raw, base, i) && OffsetAt(raw, base, i) + LengthAt(raw, base, i) <= |raw|)
    && (forall i, j :: 0 <= i < j < n ==>
          || OffsetAt(raw, base, i) + LengthAt(raw, base, i) <= OffsetAt(raw, base, j)
          || OffsetAt(raw, base, j) + LengthAt(raw, base, j) <= OffsetAt(raw, base, i))
  }

  /** The bytes that the `i`-th slot points to. */
  ghost function EntryAt(raw: seq<Byte>, base: nat, i: nat): seq<Byte>
    requires base + 4 * i + 4 <= |raw| && OffsetAt(raw, base, i) + LengthAt(raw, base, i) <= |raw|
  {
    raw[OffsetAt(raw, base, i)..OffsetAt(raw, base, i) + LengthAt(raw, base, i)]
  }

  ghost predicate RowsAt(raw: seq<Byte>, base: nat, rows: seq<Row>) {
    SlotsFit(raw, base, |rows|) && forall i :: 0 <= i < |rows| ==> RowIs(EntryAt(raw, base, i), rows[i])
  }

  ghost predicate KeysAt(raw: seq<Byte>, base: nat, keys: seq<Key>) {
    SlotsFit(raw, base, |keys|) && forall i :: 0 <= i < |keys| ==> KeyIs(EntryAt(raw, base, i), keys[i])
  }

  ghost predicate ChildrenAt(raw: seq<Byte>, base: nat, ids: seq<PageId>) {
    base + 8 * |ids| <= |raw| && forall i :: 0 <= i < |ids| ==> IdIs(raw[base + 8 * i..base + 8 * i + 8], ids[i])
  }

  // ---------------------------------------------------------------------- whole pages

  /** The part that all pages share: tag, id, LSN and checksum. */
  ghost predicate HeadIs(raw: seq<Byte>, p: Page, crc: PageCodec.Crc)
    requires |raw| == 4096
  {
    && raw[0] == (match p.body
                  case Leaf(_, _, _) => 1
                  case Internal(_, _) => 2
                  case Meta(_, _, _, _, _) => 3
                  case Free(_) => 4)
    && IdIs(raw[1..9], p.id) && Num8(raw[9..17]) == p.lsn
    && Num4(raw[17..21]) == crc(raw[..17] + raw[21..])
  }

  ghost predicate LeafIs(raw: seq<Byte>, rows: seq<Row>, next: Option<PageId>, prev: Option<PageId>)
    requires |raw| == 4096
  {
    var a := 21 + LinkWidth(next);
    var e := a + LinkWidth(prev);
    LinkIs(raw[21..a], next) && LinkIs(raw[a..e], prev) && Num2(raw[e..e + 2]) == |rows| && RowsAt(raw, e + 2, rows)
  }

  ghost predicate InternalIs(raw: seq<Byte>, keys: seq<Key>, children: seq<PageId>)
    requires |raw| == 4096
  {
    && |children| == |keys| + 1 && Num2(raw[21..23]) == |keys|
    && ChildrenAt(raw, 23, children) && KeysAt(raw, 23 + 8 * |children|, keys)
  }

  /** Root, page count, head of the free list, schema, name. */
  ghost predicate MetaIs(b: seq<Byte>, root: PageId, pageCount: nat, head: Option<PageId>, schema: Schema,
                         name: seq<Byte>) {
    var w := 12 + LinkWidth(head);
    && |b| > w && IdIs(b[..8], root) && Num4(b[8..12]) == pageCount && LinkIs(b[12..w], head)
    && exists e, f :: w <= e <= f <= |b| && SchemaIs(b[w..e], schema) && TextIs(b[e..f], name)
  }

  /** These bytes are this page. */
  ghost predicate PageIs(raw: seq<Byte>, p: Page, crc: PageCodec.Crc)
    requires |raw| == 4096
  {
    && HeadIs(raw, p, crc)
    && match p.body
       case Leaf(rows, next, prev) => LeafIs(raw, rows, next, prev)
       case Internal(keys, children) => InternalIs(raw, keys, children)
       case Meta(root, count, head, schema, name) =>
         Num2(raw[21..23]) == 0 && MetaIs(raw[23..], root, count, head, schema, name)
       case Free(next) => Num2(raw[21..23]) == 0 && LinkIs(raw[23..23 + LinkWidth(next)], next)
  }

  // ------------------------------------------------------------- how a page is written

  /** The bytes from `lo` to `hi` are zero. */
  ghost predicate Zeros(raw: seq<Byte>, lo: nat, hi: nat) {
    lo <= hi <= |raw| && forall j :: lo <= j < hi ==> raw[j] == 0
  }

  /** Where the entry before the `i`-th begins, or the end of the page. */
  ghost function EndAt(raw: seq<Byte>, base: nat, i: nat): nat
    requires base + 4 * i <= |raw|
  {
    if i == 0 then |raw| else OffsetAt(raw, base, i - 1)
  }

  /** Entries of these sizes lie one below the other from the end of the page, with zeros between them and their
      slots. */
  ghost predicate StackedAt(raw: seq<Byte>, base: nat, sizes: seq<nat>) {
    && base + 4 * |sizes| <= |raw|
    && (forall i :: 0 <= i < |sizes| ==>
          LengthAt(raw, base, i) == sizes[i] && OffsetAt(raw, base, i) + sizes[i] == EndAt(raw, base, i))
    && Zeros(raw, base + 4 * |sizes|, EndAt(raw, base, |sizes|))
  }

  /** Nothing is left between the entries, the rest is zero, and the free space is what is left between slots and
      entries with links of the greatest size. */
  ghost predicate Packed(raw: seq<Byte>, p: Page)
    requires |raw| == 4096
  {
    match p.body
    case Leaf(rows, next, prev) =>
      var base, n := 23 + LinkWidth(next) + LinkWidth(prev), |rows|;
      StackedAt(raw, base, seq(n, i requires 0 <= i < n => RowSize(rows[i])))
        && FreeSpace(p) == Some(EndAt(raw, base, n) - (41 + 4 * n))
    case Internal(keys, children) =>
      var base, n := 23 + 8 * |children|, |keys|;
      StackedAt(raw, base, seq(n, i requires 0 <= i < n => KeySize(keys[i])))
        && FreeSpace(p) == Some(EndAt(raw, base, n) - (base + 4 * n))
    case Meta(root, count, head, schema, name) =>
      exists f :: 23 <= f <= 4096
        && MetaIs(raw[23..f], root, count, head, schema, name) && Zeros(raw, f, 4096)
        && FreeSpace(p) == Some(4096 - f - (9 - LinkWidth(head)))
    case Free(next) => Zeros(raw, 23 + LinkWidth(next), 4096)
  }

  // -------------------------------------------------------------- which pages there are

  /** A row that a leaf takes: at most 255 fields, at most 1013 bytes with its slot, and in front an integer or at
      most 1001 bytes of text. */
  ghost predicate ProperRow(r: Row) {
    && 1 <= |r.fields| <= 255 && LeafEntrySize(r) <= 1013
    && (r.fields[0].IntV? || (r.fields[0].StrV? && |r.fields[0].s| <= 1001))
  }

  /** The pages that can be written: within their budget, every entry within its limit, keys strictly increasing, one
      child more than keys, the free list in range. */
  ghost predicate Proper(p: Page) {
    match p.body
    case Leaf(rows, _, _) =>
      && 41 + LeafBytes(rows) <= 4096 && (forall i :: 0 <= i < |rows| ==> ProperRow(rows[i]))
      && forall i, j :: 0 <= i < j < |rows| ==> KeyLess(RowKey(rows[i]), RowKey(rows[j]))
    case Internal(keys, children) =>
      && 31 + KeyBytes(keys) <= 4096 && |children| == |keys| + 1
      && (forall i :: 0 <= i < |keys| ==> keys[i].StrKey? ==> |keys[i].s| <= 1001)
      && forall i, j :: 0 <= i < j < |keys| ==> KeyLess(keys[i], keys[j])
    case Meta(_, count, head, schema, name) =>
      && 44 + SchemaSize(schema) + VarintLen(|name|) + |name| <= 4096
      && (head.Some? ==> head.value.num < count)
    case Free(_) => true
  }
}

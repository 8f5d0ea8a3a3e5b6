/** Keys, rows and schemas: `src/schema/key.rs` and `src/schema/mod.rs`. */
module Schemas {
  import opened Common

  type Byte = b: int | 0 <= b < 256
  type Int64 = n: int | -0x8000_0000_0000_0000 <= n < 0x8000_0000_0000_0000
  type Bits64 = n: int | 0 <= n < 0x1_0000_0000_0000_0000

  const SLOT_ENTRY_SIZE: nat := 4
  const PAGE_ID_SIZE: nat := 8
  const MAX_LEAF_ENTRY_SIZE: nat := (4096 - 41) / 4
  const MAX_INTERNAL_ENTRY_SIZE: nat := (4096 - 23 - PAGE_ID_SIZE) / 4
  const MAX_FIELD_LEN: nat := MAX_LEAF_ENTRY_SIZE - 1 - 2
  const MAX_NUM_FIELDS: nat := 255

  datatype Key = IntKey(n: Int64) | StrKey(s: seq<Byte>)

  datatype RowValue =
    | IntV(n: Int64)
    | FloatV(bits: Bits64)
    | StrV(s: seq<Byte>)
    | BoolV(b: bool)
    | NullV

  datatype Row = Row(fields: seq<RowValue>)

  datatype ColumnType = IntegerCol | FloatCol | StringCol | BoolCol

  datatype Column = Column(name: seq<Byte>, colType: ColumnType, nullable: bool)

  datatype Schema = Schema(columns: seq<Column>)

  // ---------------------------------------------------------------- key order

  /** Places a byte string in [0, 1), each byte a digit to base 257. */
  ghost function BytesRank(s: seq<Byte>): (r: real)
    ensures 0.0 <= r < 1.0
    ensures s != [] ==> 0.0 < r
  {
    if s == [] then 0.0 else (1.0 + s[0] as real + BytesRank(s[1..])) / 257.0
  }

  /** An embedding of the keys into the reals, which turns key comparisons into arithmetic. */
  ghost function Rank(k: Key): (r: real) {
    match k
    case IntKey(n) => n as real
    case StrKey(s) => 0x8000_0000_0000_0000 as real + BytesRank(s)
  }

  /** Byte-wise lexicographic order, the order of Rust strings. */
  predicate BytesLess(a: seq<Byte>, b: seq<Byte>): (r: bool)
    ensures r <==> BytesRank(a) < BytesRank(b)
  {
    b != [] && (a == [] || a[0] < b[0] || (a[0] == b[0] && BytesLess(a[1..], b[1..])))
  }

  /** The derived order of `Key`: every integer sorts before every string. */
  predicate KeyLess(a: Key, b: Key): (r: bool)
    ensures r <==> Rank(a) < Rank(b)
  {
    match (a, b)
    case (IntKey(m), IntKey(n)) => m < n
    case (IntKey(_), StrKey(_)) => true
    case (StrKey(_), IntKey(_)) => false
    case (StrKey(s), StrKey(t)) => BytesLess(s, t)
  }

  lemma {:induction false} BytesRankInjective(a: seq<Byte>, b: seq<Byte>)
    requires BytesRank(a) == BytesRank(b)
    ensures a == b
  {
    if a != [] && b != [] {
      assert a[0] == b[0];
      BytesRankInjective(a[1..], b[1..]);
      assert a == [a[0]] + a[1..] && b == [b[0]] + b[1..];
    }
  }

  /** The order is total: two keys of which neither is less are the same key. */
  lemma {:induction false} RankInjective(a: Key, b: Key)
    requires Rank(a) == Rank(b)
    ensures a == b
  {
    if a.StrKey? && b.StrKey? {
      BytesRankInjective(a.s, b.s);
    }
  }

  /** `s` comes first at position `i`: the two agree up to there, and then `s` ends or has the smaller byte. */
  ghost predicate FirstAt(s: seq<Byte>, t: seq<Byte>, i: nat) {
    && i <= |s| && i < |t| && (forall j :: 0 <= j < i ==> s[j] == t[j])
    && (i < |s| ==> s[i] < t[i])
  }

  /** Byte strings compare at the first difference, and a proper prefix comes first. */
  lemma {:induction false} BytesOrder(s: seq<Byte>, t: seq<Byte>)
    ensures BytesLess(s, t) <==> exists i: nat :: FirstAt(s, t, i)
  {
    hide BytesRank;
    if BytesLess(s, t) {
      if s == [] || s[0] < t[0] {
        assert FirstAt(s, t, 0);
      } else {
        BytesOrder(s[1..], t[1..]);
        var i: nat :| FirstAt(s[1..], t[1..], i);
        assert forall j :: 1 <= j < i + 1 ==> s[j] == s[1..][j - 1] && t[j] == t[1..][j - 1];
        assert FirstAt(s, t, i + 1);
      }
    }
    if i: nat :| FirstAt(s, t, i) {
      if i > 0 {
        BytesOrder(s[1..], t[1..]);
        assert FirstAt(s[1..], t[1..], i - 1);
      }
    }
  }

  /** What the order of keys is: integers as numbers, every integer before every string, and strings by their
      bytes. */
  lemma {:induction false} KeyOrder(a: Key, b: Key)
    ensures a.IntKey? && b.IntKey? ==> (KeyLess(a, b) <==> a.n < b.n)
    ensures a.IntKey? && b.StrKey? ==> KeyLess(a, b) && !KeyLess(b, a)
    ensures a.StrKey? && b.StrKey? ==> (KeyLess(a, b) <==> exists i: nat :: FirstAt(a.s, b.s, i))
  {
    if a.StrKey? && b.StrKey? {
      BytesOrder(a.s, b.s);
    }
  }

  // ------------------------------------------------------------- encoded sizes

  /** Bytes taken by an unsigned LEB128 varint (`required_space`). */
  function VarintLen(n: nat): (r: nat)
    ensures 1 <= r
    ensures n < 128 ==> r == 1
    ensures 128 <= n < 16384 ==> r == 2
  {
    if n < 128 then 1 else 1 + VarintLen(n / 128)
  }

  function StringSize(s: seq<Byte>): (r: nat)
    ensures 2 <= r
  {
    1 + VarintLen(|s|) + |s|
  }

  function KeySize(k: Key): (r: nat)
    ensures 2 <= r
  {
    match k
    case IntKey(_) => 9
    case StrKey(s) => StringSize(s)
  }

  function ValueSize(v: RowValue): (r: nat)
    ensures 1 <= r
  {
    match v
    case IntV(_) => 9
    case FloatV(_) => 9
    case StrV(s) => StringSize(s)
    case BoolV(_) => 2
    case NullV => 1
  }

  function FieldsSize(fs: seq<RowValue>): (r: nat)
    ensures |fs| <= r
  {
    if fs == [] then 0 else ValueSize(fs[0]) + FieldsSize(fs[1..])
  }

  function RowSize(r: Row): (n: nat)
    ensures 1 + |r.fields| <= n
  {
    1 + FieldsSize(r.fields)
  }

  /** What a row costs a leaf: its bytes and its slot entry. */
  function LeafEntrySize(r: Row): (n: nat)
    ensures 5 <= n
  {
    RowSize(r) + SLOT_ENTRY_SIZE
  }

  /** What a key costs an internal page: its bytes, its slot entry and a child pointer. */
  function InternalEntrySize(k: Key): (n: nat)
    ensures 14 <= n
    ensures k.IntKey? ==> n == 21
  {
    KeySize(k) + SLOT_ENTRY_SIZE + PAGE_ID_SIZE
  }

  // ------------------------------------------------------------- keys of rows

  function KeyOfValue(v: RowValue): (k: Option<Key>) {
    match v
    case IntV(n) => Some(IntKey(n))
    case StrV(s) => Some(StrKey(s))
    case _ => None
  }

  predicate HasKey(r: Row) {
    r.fields != [] && KeyOfValue(r.fields[0]).Some?
  }

  /** The primary key of a row. A row without one never passes validation; the value
      chosen for it here carries no meaning. */
  function RowKey(r: Row): (k: Key) {
    if HasKey(r) then KeyOfValue(r.fields[0]).value else IntKey(0)
  }

  /** The first field of this row is the value of this key. */
  ghost predicate KeyedBy(r: Row, k: Key) {
    r.fields != [] && r.fields[0] == match k { case IntKey(n) => IntV(n) case StrKey(s) => StrV(s) }
  }

  /** Which rows have a key, and which key it is: the integer or the text of the first field. */
  lemma {:induction false} KeyOfRow(r: Row)
    ensures HasKey(r) <==> r.fields != [] && (r.fields[0].IntV? || r.fields[0].StrV?)
    ensures forall n: Int64 :: r.fields != [] && r.fields[0] == IntV(n) ==> RowKey(r) == IntKey(n)
    ensures forall s: seq<Byte> :: r.fields != [] && r.fields[0] == StrV(s) ==> RowKey(r) == StrKey(s)
    ensures HasKey(r) ==> forall k :: KeyedBy(r, k) <==> k == RowKey(r)
  {
  }

  // ----------------------------------------------------------------- validation

  function TypeOfValue(v: RowValue): Option<ColumnType> {
    match v
    case IntV(_) => Some(IntegerCol)
    case FloatV(_) => Some(FloatCol)
    case StrV(_) => Some(StringCol)
    case BoolV(_) => Some(BoolCol)
    case NullV => None
  }

  predicate IsKeyType(t: ColumnType) {
    t.IntegerCol? || t.StringCol?
  }

  datatype SchemaError =
    | EmptyColumns | NonOrdPrimaryKey | NullablePrimaryKey | TooManyColumns
    | ColumnCountMismatch | RowTooLong(size: nat) | InvalidKey | KeyTooLong(size: nat) | FieldTooLong(len: nat)
    | NullValueInNonNullCol(column: nat) | TypeMismatch(column: nat)

  /** `Schema::try_from`: the only way to build a schema. */
  function MakeSchema(columns: seq<Column>): (r: Result<Schema, SchemaError>) {
    if columns == [] then Err(EmptyColumns)
    else if !IsKeyType(columns[0].colType) then Err(NonOrdPrimaryKey)
    else if columns[0].nullable then Err(NullablePrimaryKey)
    else if |columns| > MAX_NUM_FIELDS then Err(TooManyColumns)
    else Ok(Schema(columns))
  }

  predicate ValidSchema(s: Schema) {
    MakeSchema(s.columns).Ok?
  }

  /** One field against its column: the right type and not too long, or an allowed null. */
  predicate FieldFits(c: Column, v: RowValue) {
    match TypeOfValue(v)
    case Some(t) => t == c.colType && (v.StrV? ==> |v.s| <= MAX_FIELD_LEN)
    case None => c.nullable
  }

  /** What `validate_row` promises of every row it lets through. */
  predicate ValidRow(s: Schema, r: Row) {
    && |r.fields| == |s.columns|
    && LeafEntrySize(r) <= MAX_LEAF_ENTRY_SIZE
    && HasKey(r)
    && InternalEntrySize(RowKey(r)) <= MAX_INTERNAL_ENTRY_SIZE
    && forall i :: 0 <= i < |s.columns| ==> FieldFits(s.columns[i], r.fields[i])
  }

  function FieldError(c: Column, v: RowValue, i: nat): SchemaError
    requires !FieldFits(c, v)
  {
    match TypeOfValue(v)
    case Some(t) => if t == c.colType then FieldTooLong(|v.s|) else TypeMismatch(i)
    case None => NullValueInNonNullCol(i)
  }

  /** Which values a column takes. */
  ghost predicate Takes(c: Column, v: RowValue) {
    match v
    case NullV => c.nullable
    case IntV(_) => c.colType == IntegerCol
    case FloatV(_) => c.colType == FloatCol
    case BoolV(_) => c.colType == BoolCol
    case StrV(s) => c.colType == StringCol && |s| <= 1010
  }

  /** The checks before those of the single fields: as many fields as columns, at most 1013 bytes with the slot, and
      in front an integer or at most 1001 bytes of text. */
  ghost predicate Framed(s: Schema, r: Row) {
    && |r.fields| == |s.columns| > 0 && LeafEntrySize(r) <= 1013
    && (r.fields[0].IntV? || (r.fields[0].StrV? && |r.fields[0].s| <= 1001))
  }

  /** Column `i` is the first that does not take its field. */
  ghost predicate FirstBad(s: Schema, r: Row, i: nat) {
    && i < |s.columns| == |r.fields| && !Takes(s.columns[i], r.fields[i])
    && forall j :: 0 <= j < i ==> Takes(s.columns[j], r.fields[j])
  }

  lemma {:induction false} FieldWithin(fs: seq<RowValue>, i: nat)
    requires i < |fs|
    ensures ValueSize(fs[i]) <= FieldsSize(fs)
  {
    hide ValueSize;
    if i > 0 {
      FieldWithin(fs[1..], i - 1);
    }
  }

  /** What a key costs an internal page: 21 bytes for an integer, for text at most 1016 up to 1001 bytes. */
  lemma {:induction false} KeyCost(r: Row)
    requires HasKey(r) && LeafEntrySize(r) <= MAX_LEAF_ENTRY_SIZE
    ensures InternalEntrySize(RowKey(r)) <= MAX_INTERNAL_ENTRY_SIZE <==>
      r.fields[0].IntV? || (r.fields[0].StrV? && |r.fields[0].s| <= 1001)
    ensures InternalEntrySize(RowKey(r)) > MAX_INTERNAL_ENTRY_SIZE ==>
      r.fields[0].StrV? && InternalEntrySize(RowKey(r)) == |r.fields[0].s| + 15
  {
    FieldWithin(r.fields, 0);
  }

  /** What a valid row is, field by field. */
  lemma {:induction false} ValidRowMeans(s: Schema, r: Row)
    requires ValidSchema(s)
    ensures ValidRow(s, r) <==> Framed(s, r) && forall i :: 0 <= i < |s.columns| ==> Takes(s.columns[i], r.fields[i])
  {
    hide LeafEntrySize, InternalEntrySize, RowKey;
    if HasKey(r) && LeafEntrySize(r) <= MAX_LEAF_ENTRY_SIZE {
      KeyCost(r);
    }
  }

  /** Which lists of columns make a schema. */
  lemma {:induction false} SchemaMeans(columns: seq<Column>)
    ensures MakeSchema(columns).Ok? <==>
      && 1 <= |columns| <= 255 && !columns[0].nullable
      && (columns[0].colType == IntegerCol || columns[0].colType == StringCol)
    ensures MakeSchema(columns).Ok? ==> MakeSchema(columns).value.columns == columns
    ensures MakeSchema(columns) == Err(EmptyColumns) <==> columns == []
    ensures MakeSchema(columns) == Err(NonOrdPrimaryKey) <==>
      columns != [] && (columns[0].colType == FloatCol || columns[0].colType == BoolCol)
    ensures MakeSchema(columns) == Err(NullablePrimaryKey) <==>
      columns != [] && (columns[0].colType == IntegerCol || columns[0].colType == StringCol) && columns[0].nullable
    ensures MakeSchema(columns) == Err(TooManyColumns) <==>
      && |columns| > 255 && !columns[0].nullable
      && (columns[0].colType == IntegerCol || columns[0].colType == StringCol)
  {
  }

  /** Runs the checks in the order of the source. A row passes exactly when it is valid: framed, and every column
      takes its field. Each error comes exactly when the checks before it pass and its own does not, a field error for
      the first column that does not take its field. The limit on a field is never met, as the one on the row is
      tighter. */
  method ValidateRow(s: Schema, r: Row) returns (res: Result<Row, SchemaError>)
    requires ValidSchema(s)
    ensures res.Ok? <==> ValidRow(s, r)
    ensures res.Ok? <==> Framed(s, r) && forall i :: 0 <= i < |s.columns| ==> Takes(s.columns[i], r.fields[i])
    ensures res.Ok? ==> res.value == r
    ensures res == Err(ColumnCountMismatch) <==> |r.fields| != |s.columns|
    ensures res.Err? && res.error.RowTooLong? <==> |r.fields| == |s.columns| && LeafEntrySize(r) > 1013
    ensures res.Err? && res.error.RowTooLong? ==> res.error.size == LeafEntrySize(r)
    ensures res == Err(InvalidKey) <==>
      |r.fields| == |s.columns| && LeafEntrySize(r) <= 1013 && !r.fields[0].IntV? && !r.fields[0].StrV?
    ensures res.Err? && res.error.KeyTooLong? <==>
      |r.fields| == |s.columns| && LeafEntrySize(r) <= 1013 && r.fields[0].StrV? && |r.fields[0].s| > 1001
    ensures res.Err? && res.error.KeyTooLong? ==> res.error.size == |r.fields[0].s| + 15
    ensures forall i: nat :: Framed(s, r) && FirstBad(s, r, i) ==>
      res == Err(if r.fields[i].NullV? then NullValueInNonNullCol(i) else TypeMismatch(i))
  {
    hide LeafEntrySize, InternalEntrySize, RowKey;
    ValidRowMeans(s, r);
    if |s.columns| != |r.fields| {
      return Err(ColumnCountMismatch);
    }
    if LeafEntrySize(r) > MAX_LEAF_ENTRY_SIZE {
      return Err(RowTooLong(LeafEntrySize(r)));
    }
    if KeyOfValue(r.fields[0]).None? {
      return Err(InvalidKey);
    }
    KeyCost(r);
    if InternalEntrySize(RowKey(r)) > MAX_INTERNAL_ENTRY_SIZE {
      return Err(KeyTooLong(InternalEntrySize(RowKey(r))));
    }
    for i := 0 to |s.columns|
      invariant forall j :: 0 <= j < i ==> FieldFits(s.columns[j], r.fields[j]) && Takes(s.columns[j], r.fields[j])
    {
      if !FieldFits(s.columns[i], r.fields[i]) {
        ShortField(r, i);
        return Err(FieldError(s.columns[i], r.fields[i], i));
      }
    }
    return Ok(r);
  }

  /** No field of a row within the limit is too long. */
  lemma {:induction false} ShortField(r: Row, i: nat)
    requires LeafEntrySize(r) <= MAX_LEAF_ENTRY_SIZE && i < |r.fields|
    ensures r.fields[i].StrV? ==> |r.fields[i].s| <= 1005
  {
    FieldWithin(r.fields, i);
  }

  /** A key that may stand as a separator in a table with this schema. */
  predicate ValidKey(s: Schema, k: Key) {
    && InternalEntrySize(k) <= MAX_INTERNAL_ENTRY_SIZE
    && (IntKeyed(s) ==> k.IntKey?)
  }

  /** The table's primary key column holds integers. */
  predicate IntKeyed(s: Schema) {
    s.columns != [] && s.columns[0].colType.IntegerCol?
  }

  /** The key of a valid row is a valid separator. */
  lemma {:induction false} ValidRowKey(s: Schema, r: Row)
    requires ValidRow(s, r)
    ensures ValidKey(s, RowKey(r))
  {
    if IntKeyed(s) {
      assert FieldFits(s.columns[0], r.fields[0]);
    }
  }

  lemma {:induction false} ValidKeySize(s: Schema, k: Key)
    requires ValidKey(s, k)
    ensures InternalEntrySize(k) <= MAX_INTERNAL_ENTRY_SIZE
  {
  }
}

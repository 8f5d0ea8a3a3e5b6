/** How values, rows, keys and schemas are written and read: `src/schema/mod.rs`, `src/schema/key.rs`. */
module ValueCodec {
  import opened Common
  import opened Schemas
  import opened Bytes
  import opened Pages

  // ------------------------------------------------------------------------ values

  /** What `RowValue` itself guarantees: text is UTF-8. */
  predicate ValueText(v: RowValue) {
    v.StrV? ==> Utf8(v.s)
  }

  /** What `serialize` accepts. */
  predicate Writable(v: RowValue) {
    v.StrV? ==> |v.s| <= MAX_FIELD_LEN
  }

  function Unsigned(n: Int64): Bits64 {
    if n < 0 then n + 0x1_0000_0000_0000_0000 else n
  }

  function Signed(n: Bits64): Int64 {
    if n < 0x8000_0000_0000_0000 then n else n - 0x1_0000_0000_0000_0000
  }

  function EncValue(v: RowValue): (b: seq<Byte>)
    ensures |b| == ValueSize(v)
  {
    match v
    case NullV => [0]
    case IntV(n) => [1] + BigEndian(Unsigned(n), 8)
    case FloatV(bits) => [2] + BigEndian(bits, 8)
    case StrV(s) => [3] + Text(s)
    case BoolV(f) => [4, if f then 1 else 0]
  }

  function ReadValue(b: seq<Byte>): (r: Reading<RowValue>)
    ensures r.Some? ==> ValueText(r.value.0) && Writable(r.value.0)
  {
    if b == [] then None
    else if b[0] == 0 then Some((NullV, b[1..]))
    else if b[0] == 1 || b[0] == 2 then
      Powers();
      match ReadNum(b[1..], 8)
      case None => None
      case Some((n, rest)) => Some((if b[0] == 1 then IntV(Signed(n)) else FloatV(n), rest))
    else if b[0] == 3 then
      match ReadText(b[1..], MAX_FIELD_LEN)
      case None => None
      case Some((s, rest)) => Some((StrV(s), rest))
    else if b[0] == 4 && |b| >= 2 && b[1] < 2 then Some((BoolV(b[1] == 1), b[2..]))
    else None
  }

  lemma {:induction false} ValueBack(v: RowValue, rest: seq<Byte>)
    requires ValueText(v)
    ensures ReadValue(EncValue(v) + rest) == if Writable(v) then Some((v, rest)) else None
  {
    hide Utf8, BigEndian, FromBigEndian, Text, ReadText, ReadNum, Pow256;
    var b := EncValue(v) + rest;
    match v
    case NullV =>
      assert b[1..] == rest;
    case IntV(n) =>
      Powers();
      NumBack(Unsigned(n), 8, rest);
      assert b[1..] == BigEndian(Unsigned(n), 8) + rest;
    case FloatV(bits) =>
      Powers();
      NumBack(bits, 8, rest);
      assert b[1..] == BigEndian(bits, 8) + rest;
    case StrV(s) =>
      TextBack(s, MAX_FIELD_LEN, rest);
      assert b[1..] == Text(s) + rest;
    case BoolV(f) =>
      assert b[2..] == rest;
  }

  // -------------------------------------------------------------------------- rows

  predicate FieldsOk(fs: seq<RowValue>) {
    forall i :: 0 <= i < |fs| ==> ValueText(fs[i]) && Writable(fs[i])
  }

  function EncFields(fs: seq<RowValue>): (b: seq<Byte>)
    ensures |b| == FieldsSize(fs)
  {
    if fs == [] then [] else EncValue(fs[0]) + EncFields(fs[1..])
  }

  function ReadFields(b: seq<Byte>, n: nat): (r: Reading<seq<RowValue>>)
    ensures r.Some? ==> |r.value.0| == n && FieldsOk(r.value.0)
    decreases n
  {
    if n == 0 then Some(([], b))
    else
      match ReadValue(b)
      case None => None
      case Some((v, rest)) =>
        match ReadFields(rest, n - 1)
        case None => None
        case Some((fs, rest')) => Some(([v] + fs, rest'))
  }

  lemma {:induction false} FieldsBack(fs: seq<RowValue>, rest: seq<Byte>)
    requires FieldsOk(fs)
    ensures ReadFields(EncFields(fs) + rest, |fs|) == Some((fs, rest))
  {
    hide EncValue, ReadValue, ValueText, Writable;
    if fs == [] {
      assert EncFields(fs) + rest == rest;
    } else {
      ValueBack(fs[0], EncFields(fs[1..]) + rest);
      assert EncFields(fs) + rest == EncValue(fs[0]) + (EncFields(fs[1..]) + rest);
      FieldsBack(fs[1..], rest);
      assert [fs[0]] + fs[1..] == fs;
    }
  }

  /** A row that `serialize` accepts and that is made of Rust strings. */
  predicate RowWritable(r: Row) {
    |r.fields| <= MAX_NUM_FIELDS && FieldsOk(r.fields)
  }

  function EncRow(r: Row): (b: seq<Byte>)
    requires |r.fields| <= MAX_NUM_FIELDS
    ensures |b| == RowSize(r)
  {
    [|r.fields|] + EncFields(r.fields)
  }

  function ReadRow(b: seq<Byte>): (r: Reading<Row>)
    ensures r.Some? ==> RowWritable(r.value.0)
  {
    if b == [] then None
    else
      match ReadFields(b[1..], b[0])
      case None => None
      case Some((fs, rest)) => Some((Row(fs), rest))
  }

  lemma {:induction false} RowBack(r: Row)
    requires RowWritable(r)
    ensures ReadRow(EncRow(r)) == Some((r, []))
  {
    hide EncFields, ReadFields, FieldsOk;
    FieldsBack(r.fields, []);
    assert EncRow(r)[1..] == EncFields(r.fields) == EncFields(r.fields) + [];
  }

  // -------------------------------------------------------------------------- keys

  function ValueOfKey(k: Key): RowValue {
    match k
    case IntKey(n) => IntV(n)
    case StrKey(s) => StrV(s)
  }

  function EncKey(k: Key): (b: seq<Byte>)
    ensures |b| == KeySize(k)
  {
    EncValue(ValueOfKey(k))
  }

  predicate KeyWritable(k: Key) {
    ValueText(ValueOfKey(k)) && Writable(ValueOfKey(k))
  }

  function ReadKey(b: seq<Byte>): (r: Reading<Key>)
    ensures r.Some? ==> KeyWritable(r.value.0)
  {
    match ReadValue(b)
    case None => None
    case Some((v, rest)) =>
      match KeyOfValue(v)
      case None => None
      case Some(k) => Some((k, rest))
  }

  lemma {:induction false} KeyBack(k: Key)
    requires KeyWritable(k)
    ensures ReadKey(EncKey(k)) == Some((k, []))
  {
    hide EncValue, ReadValue, ValueText, Writable;
    ValueBack(ValueOfKey(k), []);
    assert EncKey(k) + [] == EncKey(k);
  }

  // ----------------------------------------------------------------------- schemas

  function TypeTag(t: ColumnType): Byte {
    match t
    case IntegerCol => 1
    case FloatCol => 2
    case StringCol => 3
    case BoolCol => 4
  }

  function TypeOfTag(b: Byte): Option<ColumnType> {
    if b == 1 then Some(IntegerCol)
    else if b == 2 then Some(FloatCol)
    else if b == 3 then Some(StringCol)
    else if b == 4 then Some(BoolCol)
    else None
  }

  function EncColumn(c: Column): (b: seq<Byte>)
    ensures |b| == 2 + VarintLen(|c.name|) + |c.name|
  {
    [TypeTag(c.colType), if c.nullable then 1 else 0] + Text(c.name)
  }

  function ReadColumn(b: seq<Byte>): (r: Reading<Column>)
    ensures r.Some? ==> Utf8(r.value.0.name) && |r.value.0.name| <= MAX_FIELD_LEN
  {
    if |b| < 2 || TypeOfTag(b[0]).None? || b[1] > 1 then None
    else
      match ReadText(b[2..], MAX_FIELD_LEN)
      case None => None
      case Some((name, rest)) => Some((Column(name, TypeOfTag(b[0]).value, b[1] == 1), rest))
  }

  lemma {:induction false} ColumnBack(c: Column, rest: seq<Byte>)
    requires Utf8(c.name)
    ensures ReadColumn(EncColumn(c) + rest) == if |c.name| <= MAX_FIELD_LEN then Some((c, rest)) else None
  {
    hide Utf8;
    TextBack(c.name, MAX_FIELD_LEN, rest);
    assert (EncColumn(c) + rest)[2..] == Text(c.name) + rest;
  }

  predicate NamesText(cs: seq<Column>) {
    forall i :: 0 <= i < |cs| ==> Utf8(cs[i].name)
  }

  predicate NamesShort(cs: seq<Column>) {
    forall i :: 0 <= i < |cs| ==> |cs[i].name| <= MAX_FIELD_LEN
  }

  function EncColumns(cs: seq<Column>): (b: seq<Byte>)
    ensures |b| == ColumnsSize(cs)
  {
    if cs == [] then [] else EncColumn(cs[0]) + EncColumns(cs[1..])
  }

  function ReadColumns(b: seq<Byte>, n: nat): (r: Reading<seq<Column>>)
    ensures r.Some? ==> |r.value.0| == n && NamesText(r.value.0) && NamesShort(r.value.0)
    decreases n
  {
    if n == 0 then Some(([], b))
    else
      match ReadColumn(b)
      case None => None
      case Some((c, rest)) =>
        match ReadColumns(rest, n - 1)
        case None => None
        case Some((cs, rest')) => Some(([c] + cs, rest'))
  }

  lemma {:induction false} ColumnsBack(cs: seq<Column>, rest: seq<Byte>)
    requires NamesText(cs)
    ensures ReadColumns(EncColumns(cs) + rest, |cs|) == if NamesShort(cs) then Some((cs, rest)) else None
  {
    hide EncColumn, ReadColumn, Utf8, EncColumns, ReadColumns, NamesShort, NamesText;
    if cs == [] {
      NoColumns(rest);
    } else {
      var b := EncColumns(cs[1..]) + rest;
      ShortTail(cs);
      ColumnBack(cs[0], b);
      ColumnsBack(cs[1..], rest);
      ColumnsStart(cs, rest);
      ColumnsStep(cs[0], cs[1..], b, rest, NamesShort(cs[1..]));
      assert cs == [cs[0]] + cs[1..];
    }
  }

  lemma {:induction false} NoColumns(rest: seq<Byte>)
    ensures ReadColumns(EncColumns([]) + rest, 0) == Some(([], rest)) && NamesShort([])
  {
    assert [] + rest == rest;
  }

  lemma {:induction false} ColumnsStart(cs: seq<Column>, rest: seq<Byte>)
    requires cs != []
    ensures EncColumns(cs) + rest == EncColumn(cs[0]) + (EncColumns(cs[1..]) + rest)
  {
    hide EncColumn;
  }

  lemma {:induction false} ShortTail(cs: seq<Column>)
    requires cs != []
    ensures NamesShort(cs) <==> |cs[0].name| <= MAX_FIELD_LEN && NamesShort(cs[1..])
    ensures NamesText(cs) ==> Utf8(cs[0].name) && NamesText(cs[1..])
  {
    hide Utf8;
    assert cs == [cs[0]] + cs[1..];
  }

  /** Reading one column more. */
  lemma {:induction false} ColumnsStep(c: Column, cs: seq<Column>, b: seq<Byte>, rest: seq<Byte>, short: bool)
    requires ReadColumn(EncColumn(c) + b) == if |c.name| <= MAX_FIELD_LEN then Some((c, b)) else None
    requires ReadColumns(b, |cs|) == if short then Some((cs, rest)) else None
    ensures ReadColumns(EncColumn(c) + b, |cs| + 1) ==
      if |c.name| <= MAX_FIELD_LEN && short then Some(([c] + cs, rest)) else None
  {
    hide EncColumn, ReadColumn;
  }

  function EncSchema(s: Schema): (b: seq<Byte>)
    ensures |b| == SchemaSize(s)
  {
    Varint(|s.columns|) + EncColumns(s.columns)
  }

  function ReadSchema(b: seq<Byte>): (r: Reading<Schema>)
    ensures r.Some? ==> ValidSchema(r.value.0) && NamesText(r.value.0.columns) && NamesShort(r.value.0.columns)
  {
    match ReadVarint(b)
    case None => None
    case Some((n, rest)) =>
      if n > MAX_NUM_FIELDS then None
      else
        match ReadColumns(rest, n)
        case None => None
        case Some((cs, rest')) =>
          match MakeSchema(cs)
          case Err(_) => None
          case Ok(s) => Some((s, rest'))
  }

  /** A schema is read back exactly when no column name is too long for the reader; the writer does
      not look at that. */
  lemma {:induction false} SchemaBack(s: Schema, rest: seq<Byte>)
    requires ValidSchema(s) && NamesText(s.columns)
    ensures ReadSchema(EncSchema(s) + rest) == if NamesShort(s.columns) then Some((s, rest)) else None
  {
    hide NamesText, NamesShort, EncColumns, ReadColumns, Varint, ReadVarint;
    VarintBack(|s.columns|, EncColumns(s.columns) + rest);
    assert EncSchema(s) + rest == Varint(|s.columns|) + (EncColumns(s.columns) + rest);
    ColumnsBack(s.columns, rest);
  }
}

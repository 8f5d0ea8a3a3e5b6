/** The readers and the layout agree: what is read off some bytes is what the layout says they hold, and whatever the
    layout says they hold is read off them. */
module Spelling {
  import opened Common
  import opened Schemas
  import opened Bytes
  import opened Pages
  import opened ValueCodec
  import opened PageCodec
  import opened Layout

  // ------------------------------------------------------------------------- numbers

  lemma {:induction false} NumberIs(b: seq<Byte>)
    ensures |b| == 2 ==> FromBigEndian(b) == Num2(b)
    ensures |b| == 4 ==> FromBigEndian(b) == Num4(b)
    ensures |b| == 8 ==> FromBigEndian(b) == Num8(b)
  {
    if |b| == 2 {
      NumberOf2(b);
    } else if |b| == 4 {
      NumberOf4(b);
    } else if |b| == 8 {
      NumberOf4(b[..4]);
      LastTwo(b);
      LastTwo(b[..6]);
      assert b[..6][..4] == b[..4];
    }
  }

  lemma {:induction false} LastTwo(b: seq<Byte>)
    requires |b| >= 2
    ensures FromBigEndian(b) ==
      0x1_0000 * FromBigEndian(b[..|b| - 2]) + 0x100 * (b[|b| - 2] as int) + b[|b| - 1]
  {
    var n := |b|;
    assert b[..n - 1][..n - 2] == b[..n - 2];
    assert FromBigEndian(b[..n - 1]) == FromBigEndian(b[..n - 2]) * 256 + b[n - 2];
  }

  lemma {:induction false} NumberOf2(b: seq<Byte>)
    requires |b| == 2
    ensures FromBigEndian(b) == Num2(b)
  {
    LastTwo(b);
  }

  lemma {:induction false} NumberOf4(b: seq<Byte>)
    requires |b| == 4
    ensures FromBigEndian(b) == Num4(b)
  {
    LastTwo(b);
    LastTwo(b[..2]);
  }

  /** A number is read off its own bytes. */
  lemma {:induction false} NumRead(b: seq<Byte>, k: nat)
    ensures ReadNum(b, k).Some? <==> k <= |b|
    ensures k <= |b| ==> ReadNum(b, k) == Some((FromBigEndian(b[..k]), b[k..]))
  {
  }

  lemma {:induction false} NumParsed(h: seq<Byte>, rest: seq<Byte>)
    ensures ReadNum(h + rest, |h|) == Some((FromBigEndian(h), rest))
  {
    TakeBack(h, rest);
  }

  // ------------------------------------------------------------------------- lengths

  /** `rest` is what remains of `b` behind its first bytes. */
  ghost predicate Leaves(b: seq<Byte>, rest: seq<Byte>) {
    |rest| <= |b| && b[|b| - |rest|..] == rest
  }

  /** The bytes of `b` before `rest`. */
  ghost function Front(b: seq<Byte>, rest: seq<Byte>): (h: seq<Byte>)
    requires Leaves(b, rest)
    ensures b == h + rest
  {
    b[..|b| - |rest|]
  }

  lemma {:induction false} FrontOf(h: seq<Byte>, rest: seq<Byte>)
    ensures Leaves(h + rest, rest) && Front(h + rest, rest) == h
  {
  }

  lemma {:induction false} VarintRead(b: seq<Byte>)
    requires ReadVarint(b).Some?
    ensures var (n, rest) := ReadVarint(b).value; Leaves(b, rest) && LengthIs(Front(b, rest), n)
  {
    hide LengthIs;
    var (n, rest) := ReadVarint(b).value;
    if b[0] < 128 {
      assert Front(b, rest) == [b[0]];
      ShortLength(b[0]);
    } else {
      VarintRead(b[1..]);
      var h := Front(b[1..], rest);
      assert b == [b[0]] + b[1..] == [b[0]] + h + rest;
      FrontOf([b[0]] + h, rest);
      LengthMore(b[0], h, ReadVarint(b[1..]).value.0);
    }
  }

  lemma {:induction false} ShortLength(x: Byte)
    requires x < 128
    ensures LengthIs([x], x)
  {
    assert [x][1..] == [];
    assert SevenBits([x][1..]) == 0;
  }

  lemma {:induction false} LengthMore(x: Byte, h: seq<Byte>, n: nat)
    requires x >= 128 && LengthIs(h, n)
    ensures LengthIs([x] + h, x - 128 + 128 * n)
  {
    assert ([x] + h)[1..] == h;
  }

  lemma {:induction false} VarintParsed(h: seq<Byte>, n: nat, rest: seq<Byte>)
    requires LengthIs(h, n)
    ensures ReadVarint(h + rest) == Some((n, rest))
  {
    if |h| == 1 {
      OneByte(h, n);
      assert (h + rest)[1..] == rest;
    } else {
      LengthLess(h, n);
      VarintParsed(h[1..], SevenBits(h[1..]), rest);
      assert (h + rest)[1..] == h[1..] + rest;
    }
  }

  lemma {:induction false} OneByte(h: seq<Byte>, n: nat)
    requires LengthIs(h, n) && |h| == 1
    ensures h[0] < 128 && n == h[0]
  {
    assert h[1..] == [];
    assert SevenBits(h[1..]) == 0;
    assert h[0] % 128 == h[0];
  }

  lemma {:induction false} LengthLess(h: seq<Byte>, n: nat)
    requires LengthIs(h, n) && |h| > 1
    ensures LengthIs(h[1..], SevenBits(h[1..])) && h[0] >= 128 && n == h[0] - 128 + 128 * SevenBits(h[1..])
  {
    var t := h[1..];
    assert forall i :: 0 <= i < |t| ==> t[i] == h[i + 1];
  }

  // ---------------------------------------------------------------------------- text

  lemma {:induction false} TextRead(b: seq<Byte>, max: nat)
    requires ReadText(b, max).Some?
    ensures var (s, rest) := ReadText(b, max).value; Leaves(b, rest) && TextIs(Front(b, rest), s)
  {
    hide Utf8, LengthIs;
    VarintRead(b);
    var (n, rest1) := ReadVarint(b).value;
    var (s, rest) := ReadText(b, max).value;
    var h := Front(b, rest1);
    assert rest1 == s + rest;
    assert b == (h + s) + rest;
    FrontOf(h + s, rest);
    assert LengthIs(h, n);
    NoLength(n);
    TextJoined(h, s);
  }

  lemma {:induction false} NoLength(n: nat)
    ensures !LengthIs([], n)
  {
  }

  lemma {:induction false} TextJoined(h: seq<Byte>, s: seq<Byte>)
    requires LengthIs(h, |s|)
    ensures TextIs(h + s, s)
  {
    hide LengthIs;
    NoLength(|s|);
    var b := h + s;
    assert b[..|b| - |s|] == h && b[|b| - |s|..] == s;
  }

  lemma {:induction false} TextParsed(h: seq<Byte>, s: seq<Byte>, max: nat, rest: seq<Byte>)
    requires TextIs(h, s) && Utf8(s) && |s| <= max
    ensures ReadText(h + rest, max) == Some((s, rest))
  {
    hide Utf8, LengthIs;
    var l := h[..|h| - |s|];
    VarintParsed(l, |s|, s + rest);
    assert h + rest == l + (s + rest);
    TakeBack(s, rest);
  }

  // -------------------------------------------------------------------------- values

  lemma {:induction false} ValueRead(b: seq<Byte>)
    requires ReadValue(b).Some?
    ensures var (v, rest) := ReadValue(b).value; Leaves(b, rest) && ValueIs(Front(b, rest), v)
  {
    hide Utf8, ReadNum, ReadText, Num8, FromBigEndian, Pow256, TextIs, ValueText, Writable;
    var (v, rest) := ReadValue(b).value;
    if b[0] == 0 {
      assert Front(b, rest) == [0];
    } else if b[0] == 1 || b[0] == 2 {
      NumValueRead(b);
    } else if b[0] == 3 {
      TextValueRead(b);
    } else {
      assert Front(b, rest) == [4, b[1]];
    }
  }

  lemma {:induction false} TextValueRead(b: seq<Byte>)
    requires ReadValue(b).Some? && b[0] == 3
    ensures var (v, rest) := ReadValue(b).value; Leaves(b, rest) && ValueIs(Front(b, rest), v)
  {
    hide Utf8, ReadNum, ReadText, Num8, TextIs, ValueText, Writable;
    var (v, rest) := ReadValue(b).value;
    TextRead(b[1..], MAX_FIELD_LEN);
    var h := Front(b[1..], rest);
    assert b == ([b[0]] + h) + rest;
    FrontOf([b[0]] + h, rest);
    assert ([b[0]] + h)[1..] == h;
  }

  lemma {:induction false} NumValueRead(b: seq<Byte>)
    requires ReadValue(b).Some? && (b[0] == 1 || b[0] == 2)
    ensures var (v, rest) := ReadValue(b).value; Leaves(b, rest) && ValueIs(Front(b, rest), v)
  {
    hide Utf8, ReadNum, ReadText, Num8, FromBigEndian, Pow256, TextIs, ValueText, Writable;
    var (v, rest) := ReadValue(b).value;
    Powers();
    NumRead(b[1..], 8);
    NumberIs(b[1..9]);
    assert b[1..][..8] == b[1..9] && b[1..][8..] == b[9..] == rest;
    assert Front(b, rest) == b[..9] && b[..9][1..] == b[1..9];
  }

  lemma {:induction false} ValueParsed(h: seq<Byte>, v: RowValue, rest: seq<Byte>)
    requires ValueIs(h, v) && ValueText(v) && Writable(v)
    ensures ReadValue(h + rest) == Some((v, rest)) && h != []
  {
    hide Utf8, ReadNum, ReadText, Num8, FromBigEndian, Pow256, TextIs;
    var b := h + rest;
    match v
    case NullV =>
      assert b[1..] == rest;
    case IntV(n) =>
      NumParsed(h[1..], rest);
      NumberIs(h[1..]);
      assert b[1..] == h[1..] + rest;
    case FloatV(bits) =>
      NumParsed(h[1..], rest);
      NumberIs(h[1..]);
      assert b[1..] == h[1..] + rest;
    case StrV(s) =>
      TextParsed(h[1..], s, MAX_FIELD_LEN, rest);
      assert b[1..] == h[1..] + rest;
    case BoolV(f) =>
      assert b[2..] == rest;
  }

  // -------------------------------------------------------------------- rows and keys

  lemma {:induction false} FieldsRead(b: seq<Byte>, n: nat)
    requires ReadFields(b, n).Some?
    ensures var (fs, rest) := ReadFields(b, n).value; Leaves(b, rest) && FieldsAre(Front(b, rest), fs)
    decreases n
  {
    hide ReadValue, ValueIs, ValueText, Writable;
    var (fs, rest) := ReadFields(b, n).value;
    if n == 0 {
      assert Front(b, rest) == [];
    } else {
      ValueRead(b);
      var (v, rest1) := ReadValue(b).value;
      FieldsRead(rest1, n - 1);
      var h, h' := Front(b, rest1), Front(rest1, rest);
      assert b == (h + h') + rest;
      FrontOf(h + h', rest);
      FieldsJoined(h, v, h', fs[1..]);
      assert fs == [v] + fs[1..];
    }
  }

  lemma {:induction false} FieldsJoined(h: seq<Byte>, v: RowValue, h': seq<Byte>, fs: seq<RowValue>)
    requires ValueIs(h, v) && FieldsAre(h', fs)
    ensures FieldsAre(h + h', [v] + fs)
  {
    hide ValueIs;
    var b, all := h + h', [v] + fs;
    assert all[1..] == fs && all[0] == v;
    assert b[..|h|] == h && b[|h|..] == h';
    assert 0 <= |h| <= |b| && ValueIs(b[..|h|], all[0]) && FieldsAre(b[|h|..], all[1..]);
  }

  lemma {:induction false} FieldsParsed(h: seq<Byte>, fs: seq<RowValue>, rest: seq<Byte>)
    requires FieldsAre(h, fs) && FieldsOk(fs)
    ensures ReadFields(h + rest, |fs|) == Some((fs, rest))
    decreases |fs|
  {
    hide ReadValue, ValueIs, ValueText, Writable;
    if fs == [] {
      assert h + rest == rest;
    } else {
      var n :| 0 <= n <= |h| && ValueIs(h[..n], fs[0]) && FieldsAre(h[n..], fs[1..]);
      ValueParsed(h[..n], fs[0], h[n..] + rest);
      assert h + rest == h[..n] + (h[n..] + rest);
      FieldsParsed(h[n..], fs[1..], rest);
      assert [fs[0]] + fs[1..] == fs;
    }
  }

  lemma {:induction false} RowRead(b: seq<Byte>)
    requires ReadRow(b).Some? && ReadRow(b).value.1 == []
    ensures RowIs(b, ReadRow(b).value.0)
  {
    hide ReadFields, FieldsAre, FieldsOk;
    FieldsRead(b[1..], b[0]);
    assert Front(b[1..], []) == b[1..];
  }

  lemma {:induction false} RowParsed(b: seq<Byte>, r: Row)
    requires RowIs(b, r) && RowWritable(r)
    ensures ReadRow(b) == Some((r, [])) && b != []
  {
    hide ReadFields, FieldsAre, FieldsOk;
    FieldsParsed(b[1..], r.fields, []);
    assert b[1..] + [] == b[1..];
  }

  lemma {:induction false} KeyRead(b: seq<Byte>)
    requires ReadKey(b).Some? && ReadKey(b).value.1 == []
    ensures KeyIs(b, ReadKey(b).value.0)
  {
    hide ReadValue, ValueIs, ValueText, Writable;
    ValueRead(b);
    assert Front(b, []) == b;
  }

  lemma {:induction false} KeyParsed(b: seq<Byte>, k: Key)
    requires KeyIs(b, k) && KeyWritable(k)
    ensures ReadKey(b) == Some((k, [])) && b != []
  {
    hide ReadValue, ValueIs, ValueText, Writable;
    ValueParsed(b, ValueOfKey(k), []);
    assert b + [] == b;
  }

  // ------------------------------------------------------------------ pages and links

  lemma {:induction false} IdRead(b: seq<Byte>)
    requires |b| >= 8
    ensures ReadId(b).Some? && ReadId(b).value.1 == b[8..] && IdIs(b[..8], ReadId(b).value.0)
  {
    hide ReadNum, FromBigEndian, Num4, Pow256;
    NumRead(b, 4);
    NumRead(b[4..], 4);
    NumberIs(b[..4]);
    NumberIs(b[4..8]);
    assert b[4..][..4] == b[4..8] && b[4..][4..] == b[8..];
    assert b[..8][..4] == b[..4] && b[..8][4..] == b[4..8];
  }

  lemma {:induction false} IdIsOne(b: seq<Byte>, id: PageId, id': PageId)
    requires IdIs(b, id) && IdIs(b, id')
    ensures id == id'
  {
  }

  lemma {:induction false} IdParsed(h: seq<Byte>, id: PageId, rest: seq<Byte>)
    requires IdIs(h, id)
    ensures ReadId(h + rest) == Some((id, rest)) && IdOk(id)
  {
    hide ReadId, Num4;
    IdRead(h + rest);
    assert (h + rest)[..8] == h && (h + rest)[8..] == rest;
    IdIsOne(h, id, ReadId(h + rest).value.0);
  }

  lemma {:induction false} LinkRead(b: seq<Byte>)
    requires ReadLink(b).Some?
    ensures var (o, rest) := ReadLink(b).value;
      Leaves(b, rest) && LinkIs(Front(b, rest), o) && |Front(b, rest)| == LinkWidth(o)
  {
    hide ReadId, IdIs;
    var (o, rest) := ReadLink(b).value;
    if b[0] == 1 {
      IdRead(b[1..]);
      assert Front(b, rest) == b[..9] && b[..9][1..] == b[1..][..8];
    } else {
      assert Front(b, rest) == [0];
    }
  }

  lemma {:induction false} LinkParsed(h: seq<Byte>, o: Option<PageId>, rest: seq<Byte>)
    requires LinkIs(h, o)
    ensures ReadLink(h + rest) == Some((o, rest)) && LinkOk(o) && |h| == LinkWidth(o)
  {
    hide ReadId, IdIs;
    var b := h + rest;
    if o.Some? {
      IdParsed(h[1..], o.value, rest);
      assert b[1..] == h[1..] + rest;
    } else {
      assert b[1..] == rest;
    }
  }

  // ------------------------------------------------------------------------- schemas

  lemma {:induction false} ColumnRead(b: seq<Byte>)
    requires ReadColumn(b).Some?
    ensures var (c, rest) := ReadColumn(b).value; Leaves(b, rest) && ColumnIs(Front(b, rest), c)
  {
    hide Utf8, ReadText, TextIs;
    TextRead(b[2..], MAX_FIELD_LEN);
    var (c, rest) := ReadColumn(b).value;
    var h := Front(b[2..], rest);
    assert b == ([b[0], b[1]] + h) + rest;
    FrontOf([b[0], b[1]] + h, rest);
    assert ([b[0], b[1]] + h)[2..] == h;
    NoText(h, c.name);
  }

  lemma {:induction false} NoText(h: seq<Byte>, s: seq<Byte>)
    requires TextIs(h, s)
    ensures h != []
  {
  }

  lemma {:induction false} ColumnParsed(h: seq<Byte>, c: Column, rest: seq<Byte>)
    requires ColumnIs(h, c) && Utf8(c.name) && |c.name| <= MAX_FIELD_LEN
    ensures ReadColumn(h + rest) == Some((c, rest))
  {
    hide Utf8, ReadText, TextIs;
    TextParsed(h[2..], c.name, MAX_FIELD_LEN, rest);
    assert (h + rest)[2..] == h[2..] + rest;
  }

  lemma {:induction false} ColumnsRead(b: seq<Byte>, n: nat)
    requires ReadColumns(b, n).Some?
    ensures var (cs, rest) := ReadColumns(b, n).value; Leaves(b, rest) && ColumnsAre(Front(b, rest), cs)
    decreases n
  {
    hide ReadColumn, ColumnIs, Utf8;
    var (cs, rest) := ReadColumns(b, n).value;
    if n == 0 {
      assert Front(b, rest) == [];
    } else {
      ColumnRead(b);
      var (c, rest1) := ReadColumn(b).value;
      ColumnsRead(rest1, n - 1);
      var h, h' := Front(b, rest1), Front(rest1, rest);
      assert b == (h + h') + rest;
      FrontOf(h + h', rest);
      ColumnsJoined(h, c, h', cs[1..]);
      assert cs == [c] + cs[1..];
    }
  }

  lemma {:induction false} ColumnsJoined(h: seq<Byte>, c: Column, h': seq<Byte>, cs: seq<Column>)
    requires ColumnIs(h, c) && ColumnsAre(h', cs)
    ensures ColumnsAre(h + h', [c] + cs)
  {
    hide ColumnIs;
    var b, all := h + h', [c] + cs;
    assert all[1..] == cs && all[0] == c;
    assert b[..|h|] == h && b[|h|..] == h';
    assert 0 <= |h| <= |b| && ColumnIs(b[..|h|], all[0]) && ColumnsAre(b[|h|..], all[1..]);
  }

  lemma {:induction false} ColumnsParsed(h: seq<Byte>, cs: seq<Column>, rest: seq<Byte>)
    requires ColumnsAre(h, cs) && NamesText(cs) && NamesShort(cs)
    ensures ReadColumns(h + rest, |cs|) == Some((cs, rest))
    decreases |cs|
  {
    hide ReadColumn, ColumnIs, Utf8;
    if cs == [] {
      assert h + rest == rest;
    } else {
      var n :| 0 <= n <= |h| && ColumnIs(h[..n], cs[0]) && ColumnsAre(h[n..], cs[1..]);
      ColumnParsed(h[..n], cs[0], h[n..] + rest);
      assert h + rest == h[..n] + (h[n..] + rest);
      ShortTail(cs);
      ColumnsParsed(h[n..], cs[1..], rest);
      assert [cs[0]] + cs[1..] == cs;
    }
  }

  lemma {:induction false} SchemaRead(b: seq<Byte>)
    requires ReadSchema(b).Some?
    ensures var (s, rest) := ReadSchema(b).value; Leaves(b, rest) && SchemaIs(Front(b, rest), s)
  {
    hide ReadVarint, ReadColumns, LengthIs, ColumnsAre, NamesText, NamesShort, ValidSchema;
    var (s, rest) := ReadSchema(b).value;
    VarintRead(b);
    var (n, rest1) := ReadVarint(b).value;
    ColumnsRead(rest1, n);
    var h, h' := Front(b, rest1), Front(rest1, rest);
    assert b == (h + h') + rest;
    FrontOf(h + h', rest);
    SchemaJoined(h, h', s);
  }

  lemma {:induction false} SchemaJoined(h: seq<Byte>, h': seq<Byte>, s: Schema)
    requires LengthIs(h, |s.columns|) && ColumnsAre(h', s.columns)
    ensures SchemaIs(h + h', s)
  {
    hide LengthIs, ColumnsAre;
    var b := h + h';
    assert b[..|h|] == h && b[|h|..] == h';
    assert 0 <= |h| <= |b| && LengthIs(b[..|h|], |s.columns|);
  }

  lemma {:induction false} SchemaParsed(h: seq<Byte>, s: Schema, rest: seq<Byte>)
    requires SchemaIs(h, s) && ValidSchema(s) && NamesText(s.columns) && NamesShort(s.columns)
    ensures ReadSchema(h + rest) == Some((s, rest))
  {
    hide ReadVarint, ReadColumns, LengthIs, ColumnsAre, NamesText, NamesShort;
    var n :| 0 <= n <= |h| && LengthIs(h[..n], |s.columns|) && ColumnsAre(h[n..], s.columns);
    VarintParsed(h[..n], |s.columns|, h[n..] + rest);
    assert h + rest == h[..n] + (h[n..] + rest);
    ColumnsParsed(h[n..], s.columns, rest);
  }

  // ---------------------------------------------------------------------- meta pages

  lemma {:induction false} MetaParsed(h: seq<Byte>, body: Body)
    requires body.Meta? && MetaIs(h, body.root, body.pageCount, body.freeHead, body.schema, body.name)
    requires ValidSchema(body.schema) && NamesText(body.schema.columns) && NamesShort(body.schema.columns)
    requires Utf8(body.name)
    ensures ReadMeta(h) == Some(body)
  {
    hide ReadId, ReadNum, ReadLink, ReadSchema, ReadText, IdIs, LinkIs, SchemaIs, TextIs, Num4, FromBigEndian, Pow256;
    hide ValidSchema, NamesText, NamesShort, Utf8;
    var w := 12 + LinkWidth(body.freeHead);
    var e, f :| w <= e <= f <= |h| && SchemaIs(h[w..e], body.schema) && TextIs(h[e..f], body.name);
    IdParsed(h[..8], body.root, h[8..]);
    assert h[..8] + h[8..] == h && h[8..12] + h[12..] == h[8..];
    NumParsed(h[8..12], h[12..]);
    NumberIs(h[8..12]);
    LinkParsed(h[12..w], body.freeHead, h[w..]);
    assert h[12..w] + h[w..] == h[12..] && h[w..e] + h[e..] == h[w..] && h[e..f] + h[f..] == h[e..];
    SchemaParsed(h[w..e], body.schema, h[e..]);
    NameFits(h[e..f], body.name);
    TextParsed(h[e..f], body.name, |h[e..]|, h[f..]);
  }

  lemma {:induction false} NameFits(h: seq<Byte>, s: seq<Byte>)
    requires TextIs(h, s)
    ensures |s| <= |h|
  {
  }

  /** The steps of reading a meta page. */
  lemma {:induction false} MetaReads(b: seq<Byte>) returns (b1: seq<Byte>, b2: seq<Byte>, b3: seq<Byte>, b4: seq<Byte>,
                                                            rest: seq<Byte>)
    requires ReadMeta(b).Some?
    ensures var body := ReadMeta(b).value;
      && ReadId(b) == Some((body.root, b1)) && ReadNum(b1, 4) == Some((body.pageCount, b2))
      && ReadLink(b2) == Some((body.freeHead, b3)) && ReadSchema(b3) == Some((body.schema, b4))
      && ReadText(b4, |b4|) == Some((body.name, rest))
  {
    hide ReadId, ReadNum, ReadLink, ReadSchema, ReadText;
    b1 := ReadId(b).value.1;
    b2 := ReadNum(b1, 4).value.1;
    b3 := ReadLink(b2).value.1;
    b4 := ReadSchema(b3).value.1;
    rest := ReadText(b4, |b4|).value.1;
  }

  lemma {:induction false} MetaBytesRead(b: seq<Byte>)
    requires ReadMeta(b).Some?
    ensures var body := ReadMeta(b).value; MetaIs(b, body.root, body.pageCount, body.freeHead, body.schema, body.name)
  {
    hide ReadId, ReadNum, ReadLink, ReadSchema, ReadText, IdIs, LinkIs, SchemaIs, TextIs, Num4, FromBigEndian, Pow256;
    hide ReadMeta, MetaIs;
    var b1, b2, b3, b4, rest := MetaReads(b);
    MetaStart(b, b1, b2, b3);
    SchemaRead(b3);
    TextRead(b4, |b4|);
    MetaEnd(b, ReadMeta(b).value, b3, b4, rest);
  }

  /** Root, page count and free list at their places. */
  lemma {:induction false} MetaStart(b: seq<Byte>, b1: seq<Byte>, b2: seq<Byte>, b3: seq<Byte>)
    requires ReadId(b).Some? && ReadId(b).value.1 == b1 && ReadNum(b1, 4).Some? && ReadNum(b1, 4).value.1 == b2
    requires ReadLink(b2).Some? && ReadLink(b2).value.1 == b3
    ensures var w := 12 + LinkWidth(ReadLink(b2).value.0);
      && w <= |b| && b3 == b[w..] && IdIs(b[..8], ReadId(b).value.0) && Num4(b[8..12]) == ReadNum(b1, 4).value.0
      && LinkIs(b[12..w], ReadLink(b2).value.0)
  {
    hide ReadId, ReadNum, ReadLink, IdIs, LinkIs, Num4, FromBigEndian, Pow256;
    assert |b| >= 8 by { IdLength(b); }
    IdRead(b);
    NumRead(b1, 4);
    assert b1[..4] == b[8..12] && b1[4..] == b[12..];
    NumberIs(b[8..12]);
    LinkRead(b2);
    var w := 12 + LinkWidth(ReadLink(b2).value.0);
    assert b3 == b[w..] && Front(b2, b3) == b[12..w];
  }

  lemma {:induction false} IdLength(b: seq<Byte>)
    requires ReadId(b).Some?
    ensures |b| >= 8
  {
  }

  lemma {:induction false} MetaEnd(b: seq<Byte>, body: Body, b3: seq<Byte>, b4: seq<Byte>, rest: seq<Byte>)
    requires body.Meta?
    requires var w := 12 + LinkWidth(body.freeHead);
      && w <= |b| && b3 == b[w..] && IdIs(b[..8], body.root) && Num4(b[8..12]) == body.pageCount
      && LinkIs(b[12..w], body.freeHead)
    requires Leaves(b3, b4) && SchemaIs(Front(b3, b4), body.schema)
    requires Leaves(b4, rest) && TextIs(Front(b4, rest), body.name)
    ensures MetaIs(b, body.root, body.pageCount, body.freeHead, body.schema, body.name)
  {
    hide IdIs, LinkIs, SchemaIs, TextIs, Num4, LinkWidth;
    var w := 12 + LinkWidth(body.freeHead);
    MetaCut(b, w, b4, rest);
    var e, f := |b| - |b4|, |b| - |rest|;
    NoText(b[e..f], body.name);
    assert w <= e <= f <= |b| && SchemaIs(b[w..e], body.schema) && TextIs(b[e..f], body.name);
  }

  lemma {:induction false} MetaCut(b: seq<Byte>, w: nat, b4: seq<Byte>, rest: seq<Byte>)
    requires w <= |b| && Leaves(b[w..], b4) && Leaves(b4, rest)
    ensures var e, f := |b| - |b4|, |b| - |rest|;
      w <= e <= f <= |b| && Front(b[w..], b4) == b[w..e] && Front(b4, rest) == b[e..f]
  {
    var e, f := |b| - |b4|, |b| - |rest|;
    assert b4 == b[e..];
    assert b[w..][..e - w] == b[w..e];
    assert b[e..][..f - e] == b[e..f];
  }

  // --------------------------------------------------------------------------- slots

  lemma {:induction false} SlotIs(raw: seq<Byte>, base: nat, i: nat)
    requires base + 4 * i + 4 <= |raw|
    ensures SlotAt(raw, base, i) == Slot(OffsetAt(raw, base, i), LengthAt(raw, base, i))
  {
    hide FromBigEndian, Num2;
    NumberIs(raw[base + 4 * i..base + 4 * i + 2]);
    NumberIs(raw[base + 4 * i + 2..base + 4 * i + 4]);
  }

  /** The reader's ranges are fit exactly if the slots are and none is empty. */
  lemma {:induction false} RangesAre(raw: seq<Byte>, base: nat, n: nat)
    requires |raw| == PAGE_SIZE && base + 4 * n <= |raw|
    ensures RangesOk(Slots(raw, base, n), base + 4 * n) <==>
      SlotsFit(raw, base, n) && forall i :: 0 <= i < n ==> LengthAt(raw, base, i) > 0
  {
    hide SlotAt, OffsetAt, LengthAt;
    forall i | 0 <= i < n
      ensures Slots(raw, base, n)[i] == Slot(OffsetAt(raw, base, i), LengthAt(raw, base, i))
    {
      SlotIs(raw, base, i);
    }
  }

  /** What was read from one slot. */
  lemma {:induction false} EntryHolds<T>(raw: seq<Byte>, slots: seq<Slot>, read: seq<Byte> -> Reading<T>, k: nat,
                                         i: nat)
    requires k <= |slots| && |raw| == PAGE_SIZE
    requires forall j :: 0 <= j < |slots| ==> slots[j].offset + slots[j].length <= PAGE_SIZE
    requires Entries(raw, slots, read, k).Some? && i < k
    ensures read(raw[slots[i].offset..slots[i].offset + slots[i].length]) ==
      Some((Entries(raw, slots, read, k).value[i], []))
  {
    if i < k - 1 {
      EntryHolds(raw, slots, read, k - 1, i);
    }
  }

  lemma {:induction false} RowsAtRead(raw: seq<Byte>, base: nat, n: nat)
    requires |raw| == PAGE_SIZE && base + 4 * n <= |raw| && RangesOk(Slots(raw, base, n), base + 4 * n)
    requires forall j :: 0 <= j < n ==> SlotAt(raw, base, j).offset + SlotAt(raw, base, j).length <= PAGE_SIZE
    requires Entries(raw, Slots(raw, base, n), ReadRow, n).Some?
    ensures RowsAt(raw, base, Entries(raw, Slots(raw, base, n), ReadRow, n).value)
  {
    hide SlotAt, OffsetAt, LengthAt, Entries, ReadRow, RowIs, RangesOk, SlotsFit;
    var slots := Slots(raw, base, n);
    var rows := Entries(raw, slots, ReadRow, n).value;
    RangesAre(raw, base, n);
    forall i | 0 <= i < n
      ensures OffsetAt(raw, base, i) + LengthAt(raw, base, i) <= |raw| && RowIs(EntryAt(raw, base, i), rows[i])
    {
      SlotIs(raw, base, i);
      EntryHolds(raw, slots, ReadRow, n, i);
      RowRead(EntryAt(raw, base, i));
    }
  }

  lemma {:induction false} RowsAtParsed(raw: seq<Byte>, base: nat, rows: seq<Row>)
    requires |raw| == PAGE_SIZE && RowsAt(raw, base, rows) && forall i :: 0 <= i < |rows| ==> RowWritable(rows[i])
    ensures base + 4 * |rows| <= |raw| && RangesOk(Slots(raw, base, |rows|), base + 4 * |rows|)
    ensures forall j :: 0 <= j < |rows| ==> SlotAt(raw, base, j).offset + SlotAt(raw, base, j).length <= PAGE_SIZE
    ensures Entries(raw, Slots(raw, base, |rows|), ReadRow, |rows|) == Some(rows)
  {
    hide SlotAt, OffsetAt, LengthAt, Entries, ReadRow, RowIs, RangesOk, RowWritable;
    var n := |rows|;
    var encs := seq(n, i requires 0 <= i < n => EntryAt(raw, base, i));
    forall i | 0 <= i < n
      ensures SlotAt(raw, base, i) == Slot(OffsetAt(raw, base, i), LengthAt(raw, base, i))
      ensures ReadRow(encs[i]) == Some((rows[i], [])) && LengthAt(raw, base, i) > 0
    {
      SlotIs(raw, base, i);
      RowParsed(encs[i], rows[i]);
    }
    RangesAre(raw, base, n);
    EntriesFrom(raw, Slots(raw, base, n), encs, ReadRow, rows, n);
    assert rows[..n] == rows;
  }

  lemma {:induction false} KeysAtRead(raw: seq<Byte>, base: nat, n: nat)
    requires |raw| == PAGE_SIZE && base + 4 * n <= |raw| && RangesOk(Slots(raw, base, n), base + 4 * n)
    requires forall j :: 0 <= j < n ==> SlotAt(raw, base, j).offset + SlotAt(raw, base, j).length <= PAGE_SIZE
    requires Entries(raw, Slots(raw, base, n), ReadKey, n).Some?
    ensures KeysAt(raw, base, Entries(raw, Slots(raw, base, n), ReadKey, n).value)
  {
    hide SlotAt, OffsetAt, LengthAt, Entries, ReadKey, KeyIs, RangesOk, SlotsFit;
    var slots := Slots(raw, base, n);
    var keys := Entries(raw, slots, ReadKey, n).value;
    RangesAre(raw, base, n);
    forall i | 0 <= i < n
      ensures OffsetAt(raw, base, i) + LengthAt(raw, base, i) <= |raw| && KeyIs(EntryAt(raw, base, i), keys[i])
    {
      SlotIs(raw, base, i);
      EntryHolds(raw, slots, ReadKey, n, i);
      KeyRead(EntryAt(raw, base, i));
    }
  }

  lemma {:induction false} KeysAtParsed(raw: seq<Byte>, base: nat, keys: seq<Key>)
    requires |raw| == PAGE_SIZE && KeysAt(raw, base, keys) && forall i :: 0 <= i < |keys| ==> KeyWritable(keys[i])
    ensures base + 4 * |keys| <= |raw| && RangesOk(Slots(raw, base, |keys|), base + 4 * |keys|)
    ensures forall j :: 0 <= j < |keys| ==> SlotAt(raw, base, j).offset + SlotAt(raw, base, j).length <= PAGE_SIZE
    ensures Entries(raw, Slots(raw, base, |keys|), ReadKey, |keys|) == Some(keys)
  {
    hide SlotAt, OffsetAt, LengthAt, Entries, ReadKey, KeyIs, RangesOk, KeyWritable;
    var n := |keys|;
    var encs := seq(n, i requires 0 <= i < n => EntryAt(raw, base, i));
    forall i | 0 <= i < n
      ensures SlotAt(raw, base, i) == Slot(OffsetAt(raw, base, i), LengthAt(raw, base, i))
      ensures ReadKey(encs[i]) == Some((keys[i], [])) && LengthAt(raw, base, i) > 0
    {
      SlotIs(raw, base, i);
      KeyParsed(encs[i], keys[i]);
    }
    RangesAre(raw, base, n);
    EntriesFrom(raw, Slots(raw, base, n), encs, ReadKey, keys, n);
    assert keys[..n] == keys;
  }

  lemma {:induction false} ChildrenAre(raw: seq<Byte>, base: nat, ids: seq<PageId>)
    requires base + 8 * |ids| <= |raw|
    ensures ChildrenAt(raw, base, ids) <==> Children(raw, base, |ids|) == ids
  {
    hide IdIs, ReadId;
    forall i | 0 <= i < |ids|
      ensures ChildAt(raw, base, i) == ids[i] <==> IdIs(raw[base + 8 * i..base + 8 * i + 8], ids[i])
    {
      var b := raw[base + 8 * i..base + 8 * i + 8];
      IdRead(b);
      assert b[..8] == b;
      if IdIs(b, ids[i]) {
        IdIsOne(b, ids[i], ChildAt(raw, base, i));
      }
    }
  }

  // --------------------------------------------------------------------- whole pages

  /** What the header holds, the rest of the page starting at `at`. */
  ghost predicate HeadFields(raw: seq<Byte>, hd: Head, at: nat)
    requires |raw| == PAGE_SIZE
  {
    && raw[0] == hd.tag && IdIs(raw[1..9], hd.id) && Num8(raw[9..17]) == hd.lsn
    && if hd.tag == 1 then
         var a := 21 + LinkWidth(hd.next);
         var e := a + LinkWidth(hd.prev);
         at == e + 2 && LinkIs(raw[21..a], hd.next) && LinkIs(raw[a..e], hd.prev) && Num2(raw[e..e + 2]) == hd.count
       else
         at == 23 && hd.next == None && hd.prev == None && Num2(raw[21..23]) == hd.count
  }

  lemma {:induction false} HeadRead(raw: seq<Byte>)
    requires |raw| == PAGE_SIZE && ReadHead(raw).Ok?
    ensures var (hd, rest) := ReadHead(raw).value;
      HeadFields(raw, hd, PAGE_SIZE - |rest|) && rest == raw[PAGE_SIZE - |rest|..]
  {
    hide ReadId, ReadLink, ReadNum, IdIs, LinkIs, Num2, Num8, FromBigEndian, Pow256;
    IdRead(raw[1..]);
    assert raw[1..][..8] == raw[1..9];
    NumberIs(raw[9..17]);
    if raw[0] == 1 {
      LinksRead(raw);
    } else {
      CountRead(raw, 21);
    }
  }

  lemma {:induction false} CountRead(raw: seq<Byte>, e: nat)
    requires e + 2 <= |raw|
    ensures ReadNum(raw[e..], 2) == Some((Num2(raw[e..e + 2]), raw[e + 2..]))
  {
    hide FromBigEndian, Num2;
    NumRead(raw[e..], 2);
    NumberIs(raw[e..e + 2]);
    assert raw[e..][..2] == raw[e..e + 2] && raw[e..][2..] == raw[e + 2..];
  }

  lemma {:induction false} LinksRead(raw: seq<Byte>)
    requires |raw| == PAGE_SIZE && ReadLink(raw[21..]).Some? && ReadLink(ReadLink(raw[21..]).value.1).Some?
    ensures var (next, rest1) := ReadLink(raw[21..]).value;
      var (prev, rest2) := ReadLink(rest1).value;
      var a := 21 + LinkWidth(next);
      var e := a + LinkWidth(prev);
      && LinkIs(raw[21..a], next) && LinkIs(raw[a..e], prev) && rest2 == raw[e..]
      && ReadNum(rest2, 2) == Some((Num2(raw[e..e + 2]), raw[e + 2..]))
  {
    hide ReadLink, LinkIs, Num2, ReadNum;
    LinkRead(raw[21..]);
    var (next, rest1) := ReadLink(raw[21..]).value;
    LinkRead(rest1);
    var (prev, rest2) := ReadLink(rest1).value;
    var a := 21 + LinkWidth(next);
    var e := a + LinkWidth(prev);
    assert rest1 == raw[a..] && Front(raw[21..], rest1) == raw[21..a];
    assert rest2 == raw[e..] && Front(rest1, rest2) == raw[a..e];
    CountRead(raw, e);
  }

  lemma {:induction false} HeadParsed(raw: seq<Byte>, hd: Head, at: nat)
    requires |raw| == PAGE_SIZE && HeadFields(raw, hd, at) && 1 <= hd.tag <= 4 && hd.count <= MaxItems(hd.tag)
    ensures at <= PAGE_SIZE && ReadHead(raw) == Ok((hd, raw[at..]))
  {
    hide ReadId, ReadLink, ReadNum, IdIs, LinkIs, Num2, Num8, FromBigEndian, Pow256;
    assert raw[1..] == raw[1..9] + raw[9..];
    IdParsed(raw[1..9], hd.id, raw[9..]);
    NumberIs(raw[9..17]);
    if hd.tag == 1 {
      LinksParsed(raw, hd.next, hd.prev);
    } else {
      CountRead(raw, 21);
    }
  }

  lemma {:induction false} LinksParsed(raw: seq<Byte>, next: Option<PageId>, prev: Option<PageId>)
    requires |raw| == PAGE_SIZE
    requires var a := 21 + LinkWidth(next);
      var e := a + LinkWidth(prev);
      LinkIs(raw[21..a], next) && LinkIs(raw[a..e], prev)
    ensures var a := 21 + LinkWidth(next);
      var e := a + LinkWidth(prev);
      && ReadLink(raw[21..]) == Some((next, raw[a..])) && ReadLink(raw[a..]) == Some((prev, raw[e..]))
      && ReadNum(raw[e..], 2) == Some((Num2(raw[e..e + 2]), raw[e + 2..]))
  {
    hide ReadLink, LinkIs, Num2, ReadNum;
    var a := 21 + LinkWidth(next);
    var e := a + LinkWidth(prev);
    assert raw[21..] == raw[21..a] + raw[a..] && raw[a..] == raw[a..e] + raw[e..];
    LinkParsed(raw[21..a], next, raw[a..]);
    LinkParsed(raw[a..e], prev, raw[e..]);
    CountRead(raw, e);
  }

  /** The body of a page whose header ends at `at`. */
  ghost predicate BodyIs(raw: seq<Byte>, body: Body, at: nat)
    requires |raw| == PAGE_SIZE && at <= PAGE_SIZE
  {
    match body
    case Leaf(rows, _, _) => RowsAt(raw, at, rows)
    case Internal(keys, children) =>
      |children| == |keys| + 1 && ChildrenAt(raw, at, children) && KeysAt(raw, at + 8 * |children|, keys)
    case Meta(root, count, head, schema, name) => MetaIs(raw[at..], root, count, head, schema, name)
    case Free(next) => at + LinkWidth(next) <= PAGE_SIZE && LinkIs(raw[at..at + LinkWidth(next)], next)
  }

  lemma {:induction false} BodyBytes(raw: seq<Byte>, hd: Head, at: nat)
    requires |raw| == PAGE_SIZE && at <= PAGE_SIZE && 1 <= hd.tag <= 4 && hd.count <= MaxItems(hd.tag)
    requires at <= (if hd.tag == 1 then MAX_LEAF_HEADER_SIZE else MAX_INTERNAL_HEADER_SIZE)
    requires ReadBody(raw, hd, raw[at..]).Ok?
    ensures var body := ReadBody(raw, hd, raw[at..]).value;
      && BodyIs(raw, body, at) && Tag(body) == hd.tag
      && (body.Leaf? ==> body.next == hd.next && body.prev == hd.prev)
      && ((body.Leaf? || body.Internal?) ==> ItemCount(body) == hd.count)
  {
    hide ReadBody, BodyIs;
    if hd.tag == 1 {
      LeafBytesRead(raw, hd, at);
    } else if hd.tag == 2 {
      InternalBytesRead(raw, hd, at);
    } else {
      OtherBytesRead(raw, hd, at);
    }
  }

  lemma {:induction false} LeafBytesRead(raw: seq<Byte>, hd: Head, at: nat)
    requires |raw| == PAGE_SIZE && at <= MAX_LEAF_HEADER_SIZE && hd.tag == 1 && hd.count <= MAX_LEAF_ITEMS
    requires ReadBody(raw, hd, raw[at..]).Ok?
    ensures var body := ReadBody(raw, hd, raw[at..]).value;
      && BodyIs(raw, body, at) && body.Leaf? && body.next == hd.next && body.prev == hd.prev
      && |body.records| == hd.count
  {
    hide SlotAt, Slots, Entries, RangesOk, RowsAt;
    RangesBound(Slots(raw, at, hd.count), at + 4 * hd.count);
    RowsAtRead(raw, at, hd.count);
  }

  lemma {:induction false} InternalBytesRead(raw: seq<Byte>, hd: Head, at: nat)
    requires |raw| == PAGE_SIZE && at <= MAX_INTERNAL_HEADER_SIZE && hd.tag == 2 && hd.count <= MAX_INTERNAL_ITEMS
    requires ReadBody(raw, hd, raw[at..]).Ok?
    ensures var body := ReadBody(raw, hd, raw[at..]).value;
      BodyIs(raw, body, at) && body.Internal? && |body.keys| == hd.count
  {
    hide SlotAt, Slots, Entries, RangesOk, KeysAt, ChildrenAt, Children;
    var base := at + 8 * (hd.count + 1);
    RangesBound(Slots(raw, base, hd.count), base + 4 * hd.count);
    KeysAtRead(raw, base, hd.count);
    ChildrenAre(raw, at, Children(raw, at, hd.count + 1));
  }

  lemma {:induction false} OtherBytesRead(raw: seq<Byte>, hd: Head, at: nat)
    requires |raw| == PAGE_SIZE && at <= MAX_INTERNAL_HEADER_SIZE && 3 <= hd.tag <= 4 && hd.count == 0
    requires ReadBody(raw, hd, raw[at..]).Ok?
    ensures var body := ReadBody(raw, hd, raw[at..]).value; BodyIs(raw, body, at) && Tag(body) == hd.tag
  {
    hide ReadLink, ReadMeta, MetaIs, LinkIs;
    if hd.tag == 3 {
      MetaBytesRead(raw[at..]);
    } else {
      FreeBytes(raw, at);
    }
  }

  lemma {:induction false} FreeBytes(raw: seq<Byte>, at: nat)
    requires at <= |raw| && ReadLink(raw[at..]).Some?
    ensures var next := ReadLink(raw[at..]).value.0;
      at + LinkWidth(next) <= |raw| && LinkIs(raw[at..at + LinkWidth(next)], next)
  {
    hide LinkIs, ReadLink;
    LinkRead(raw[at..]);
    var (next, rest) := ReadLink(raw[at..]).value;
    assert Front(raw[at..], rest) == raw[at..at + LinkWidth(next)];
  }

  /** What is read is what the layout says the bytes are. */
  lemma {:induction false} ParsedIs(raw: seq<Byte>, crc: Crc)
    requires |raw| == PAGE_SIZE && Parse(raw, crc).Ok?
    ensures PageIs(raw, Parse(raw, crc).value, crc)
  {
    hide ReadHead, ReadBody, HeadFields, BodyIs, Invariant, FromBigEndian, PageIs, Num4;
    var (hd, rest) := ReadHead(raw).value;
    var at := PAGE_SIZE - |rest|;
    HeadRead(raw);
    BodyBytes(raw, hd, at);
    NumberIs(raw[17..21]);
    PageJoined(raw, hd, Parse(raw, crc).value.body, at, crc);
  }

  lemma {:induction false} PageJoined(raw: seq<Byte>, hd: Head, body: Body, at: nat, crc: Crc)
    requires |raw| == PAGE_SIZE && at <= PAGE_SIZE && HeadFields(raw, hd, at) && BodyIs(raw, body, at)
    requires 1 <= hd.tag <= 4 && Tag(body) == hd.tag && Num4(raw[17..21]) == crc(raw[..17] + raw[21..])
    requires hd.count <= MaxItems(hd.tag)
    requires body.Leaf? ==> body.next == hd.next && body.prev == hd.prev
    requires (body.Leaf? || body.Internal?) ==> ItemCount(body) == hd.count
    ensures PageIs(raw, Page(hd.id, hd.lsn, body), crc)
  {
    hide IdIs, LinkIs, RowsAt, KeysAt, ChildrenAt, MetaIs, Num2, Num4, Num8;
  }

  /** What the layout says the bytes are is read, if it is a page that can be. */
  lemma {:induction false} IsParsed(raw: seq<Byte>, p: Page, crc: Crc)
    requires |raw| == PAGE_SIZE && PageIs(raw, p, crc) && Encodable(p) && Typed(p) && Returns(p)
    ensures Parse(raw, crc) == Ok(p)
  {
    hide ReadHead, ReadBody, HeadFields, BodyIs, Invariant, FromBigEndian, PageIs, Num4, Typed, Returns, RowsShort;
    var hd, at := HeadOf(p), StartOf(p.body);
    CountFits(p);
    PageParts(raw, p, crc);
    HeadParsed(raw, hd, at);
    NumberIs(raw[17..21]);
    BodyParsed(raw, p, at);
  }

  /** The header that goes with a page. */
  ghost function HeadOf(p: Page): Head {
    var (next, prev) := if p.body.Leaf? then (p.body.next, p.body.prev) else (None, None);
    Head(Tag(p.body), p.id, p.lsn, next, prev, ItemCount(p.body))
  }

  ghost function StartOf(body: Body): (n: nat)
    ensures n <= if body.Leaf? then MAX_LEAF_HEADER_SIZE else MAX_INTERNAL_HEADER_SIZE
  {
    23 + if body.Leaf? then LinkWidth(body.next) + LinkWidth(body.prev) else 0
  }

  lemma {:induction false} CountFits(p: Page)
    requires Encodable(p)
    ensures ItemCount(p.body) <= MaxItems(Tag(p.body)) && 1 <= Tag(p.body) <= 4
  {
    hide Invariant, RowsShort;
    if p.body.Leaf? {
      LeafRoom(p);
    } else if p.body.Internal? {
      InternalRoom(p);
    }
  }

  lemma {:induction false} PageParts(raw: seq<Byte>, p: Page, crc: Crc)
    requires |raw| == PAGE_SIZE && PageIs(raw, p, crc)
    ensures HeadFields(raw, HeadOf(p), StartOf(p.body)) && BodyIs(raw, p.body, StartOf(p.body))
    ensures Num4(raw[17..21]) == crc(raw[..17] + raw[21..])
  {
    hide IdIs, LinkIs, RowsAt, KeysAt, ChildrenAt, MetaIs, Num2, Num4, Num8;
  }

  lemma {:induction false} BodyParsed(raw: seq<Byte>, p: Page, at: nat)
    requires |raw| == PAGE_SIZE && Encodable(p) && Typed(p) && Returns(p) && at == StartOf(p.body)
    requires BodyIs(raw, p.body, at) && ItemCount(p.body) <= MaxItems(Tag(p.body))
    ensures ReadBody(raw, HeadOf(p), raw[at..]) == Ok(p.body)
  {
    hide SlotAt, Slots, Entries, RangesOk, ReadLink, ReadMeta, RowsAt, KeysAt, ChildrenAt, MetaIs, LinkIs, Children;
    hide RowWritable, KeyWritable, ValueText, Utf8, NamesText, NamesShort, ValidSchema, FreeSpace, Sorted, RowInvariant;
    match p.body
    case Leaf(rows, _, _) =>
      forall i | 0 <= i < |rows|
        ensures RowWritable(rows[i])
      {
        RowIsWritable(rows[i]);
      }
      RowsAtParsed(raw, at, rows);
    case Internal(keys, children) =>
      forall i | 0 <= i < |keys|
        ensures KeyWritable(keys[i])
      {
        KeyIsWritable(keys[i]);
      }
      KeysAtParsed(raw, at + 8 * |children|, keys);
      ChildrenAre(raw, at, children);
    case Meta(_, _, _, _, _) =>
      MetaParsed(raw[at..], p.body);
    case Free(next) =>
      assert raw[at..] == raw[at..at + LinkWidth(next)] + raw[at + LinkWidth(next)..];
      LinkParsed(raw[at..at + LinkWidth(next)], next, raw[at + LinkWidth(next)..]);
  }

  // ---------------------------------------------------------- which pages can be written

  lemma {:induction false} KeyWithin(k: Key)
    ensures InternalEntrySize(k) <= MAX_INTERNAL_ENTRY_SIZE <==> (k.StrKey? ==> |k.s| <= 1001)
  {
  }

  lemma {:induction false} RowWithin(r: Row)
    ensures ProperRow(r) <==> RowInvariant(r) && |r.fields| <= MAX_NUM_FIELDS
  {
    hide LeafEntrySize, InternalEntrySize, RowKey;
    KeyOfRow(r);
    if HasKey(r) && LeafEntrySize(r) <= MAX_LEAF_ENTRY_SIZE {
      KeyCost(r);
    }
  }

  /** Which pages can be written. */
  lemma {:induction false} EncodableMeans(p: Page)
    ensures Encodable(p) <==> Proper(p)
  {
    hide LeafBytes, KeyBytes, RowKey, RowInvariant, ProperRow, InternalEntrySize, SchemaSize;
    match p.body
    case Leaf(rows, _, _) =>
      forall i | 0 <= i < |rows|
        ensures ProperRow(rows[i]) <==> RowInvariant(rows[i]) && |rows[i].fields| <= MAX_NUM_FIELDS
      {
        RowWithin(rows[i]);
      }
      RecordsSorted(rows);
    case Internal(keys, _) =>
      forall i | 0 <= i < |keys|
        ensures InternalEntrySize(keys[i]) <= MAX_INTERNAL_ENTRY_SIZE <==> (keys[i].StrKey? ==> |keys[i].s| <= 1001)
      {
        KeyWithin(keys[i]);
      }
    case _ =>
  }

  lemma {:induction false} RecordsSorted(rows: seq<Row>)
    ensures Sorted(RecordKeys(rows)) <==>
      forall i, j :: 0 <= i < j < |rows| ==> KeyLess(RowKey(rows[i]), RowKey(rows[j]))
  {
    hide KeyLess, RowKey;
    var keys := RecordKeys(rows);
    assert forall i :: 0 <= i < |rows| ==> keys[i] == RowKey(rows[i]);
    if Sorted(keys) {
      forall i, j | 0 <= i < j < |rows|
        ensures KeyLess(RowKey(rows[i]), RowKey(rows[j]))
      {
        assert KeyLess(keys[i], keys[j]);
      }
    }
  }

  // --------------------------------------------------------------- what the writer leaves

  lemma {:induction false} VarintSpelled(n: nat)
    ensures LengthIs(Varint(n), n)
    decreases n
  {
    VarintBack(n, []);
    assert Varint(n) + [] == Varint(n);
    VarintRead(Varint(n));
    assert Front(Varint(n), []) == Varint(n);
  }

  lemma {:induction false} TextSpelled(s: seq<Byte>)
    ensures TextIs(Text(s), s)
  {
    hide LengthIs, Varint;
    VarintSpelled(|s|);
    TextJoined(Varint(|s|), s);
  }

  lemma {:induction false} ColumnsSpelled(cs: seq<Column>)
    ensures ColumnsAre(EncColumns(cs), cs)
  {
    hide ColumnIs, EncColumn;
    if cs != [] {
      ColumnsSpelled(cs[1..]);
      ColumnSpelled(cs[0]);
      ColumnsJoined(EncColumn(cs[0]), cs[0], EncColumns(cs[1..]), cs[1..]);
      assert [cs[0]] + cs[1..] == cs;
    }
  }

  lemma {:induction false} ColumnSpelled(c: Column)
    ensures ColumnIs(EncColumn(c), c)
  {
    hide TextIs;
    TextSpelled(c.name);
    assert EncColumn(c)[2..] == Text(c.name);
  }

  lemma {:induction false} SchemaSpelled(s: Schema)
    ensures SchemaIs(EncSchema(s), s)
  {
    hide LengthIs, ColumnsAre, Varint, EncColumns;
    VarintSpelled(|s.columns|);
    ColumnsSpelled(s.columns);
    SchemaJoined(Varint(|s.columns|), EncColumns(s.columns), s);
  }

  lemma {:induction false} IdSpelled(id: PageId)
    requires IdOk(id)
    ensures IdIs(EncId(id), id)
  {
    hide IdIs, EncId, ReadId;
    IdBack(id, []);
    assert EncId(id) + [] == EncId(id) && EncId(id)[..8] == EncId(id);
    IdRead(EncId(id));
  }

  lemma {:induction false} LinkSpelled(o: Option<PageId>)
    requires LinkOk(o)
    ensures LinkIs(EncLink(o), o) && |EncLink(o)| == LinkWidth(o)
  {
    hide LinkIs, EncLink, ReadLink;
    LinkBack(o, []);
    assert EncLink(o) + [] == EncLink(o);
    LinkRead(EncLink(o));
    assert Front(EncLink(o), []) == EncLink(o);
  }

  /** A meta page, whether or not the reader will take it. */
  lemma {:induction false} MetaSpelled(p: Page)
    requires p.body.Meta? && Typed(p)
    ensures MetaIs(MetaBytes(p.body), p.body.root, p.body.pageCount, p.body.freeHead, p.body.schema, p.body.name)
    ensures |MetaBytes(p.body)| ==
      12 + LinkWidth(p.body.freeHead) + SchemaSize(p.body.schema) + VarintLen(|p.body.name|) + |p.body.name|
  {
    hide IdIs, LinkIs, SchemaIs, TextIs, Num4, EncId, EncLink, EncSchema, Text, BigEndian, Utf8, NamesText;
    hide FromBigEndian, Pow256, ValidSchema, SchemaSize;
    var body := p.body;
    var b := MetaBytes(body);
    IdSpelled(body.root);
    LinkSpelled(body.freeHead);
    SchemaSpelled(body.schema);
    TextSpelled(body.name);
    Powers();
    BigEndianBack(body.pageCount, 4);
    NumberIs(BigEndian(body.pageCount, 4));
    var w := 12 + LinkWidth(body.freeHead);
    var e := w + |EncSchema(body.schema)|;
    assert b[..8] == EncId(body.root) && b[8..12] == BigEndian(body.pageCount, 4) && b[12..w] == EncLink(body.freeHead);
    assert b[w..e] == EncSchema(body.schema) && b[e..|b|] == Text(body.name);
    NoText(Text(body.name), body.name);
    assert w <= e <= |b| <= |b| && SchemaIs(b[w..e], body.schema) && TextIs(b[e..|b|], body.name);
  }

  lemma {:induction false} MetaMore(h: seq<Byte>, rest: seq<Byte>, body: Body)
    requires body.Meta? && MetaIs(h, body.root, body.pageCount, body.freeHead, body.schema, body.name)
    ensures MetaIs(h + rest, body.root, body.pageCount, body.freeHead, body.schema, body.name)
  {
    hide IdIs, LinkIs, SchemaIs, TextIs, Num4;
    var b, w := h + rest, 12 + LinkWidth(body.freeHead);
    var e, f :| w <= e <= f <= |h| && SchemaIs(h[w..e], body.schema) && TextIs(h[e..f], body.name);
    assert b[..8] == h[..8] && b[8..12] == h[8..12] && b[12..w] == h[12..w] && b[w..e] == h[w..e] && b[e..f] == h[e..f];
    assert w <= e <= f <= |b| && SchemaIs(b[w..e], body.schema) && TextIs(b[e..f], body.name);
  }

  /** Written entries lie one below the other. */
  lemma {:induction false} Stacks(raw: seq<Byte>, base: nat, encs: seq<seq<Byte>>, sizes: seq<nat>)
    requires |raw| == PAGE_SIZE && base + 4 * |encs| + Used(encs, |encs|) <= PAGE_SIZE
    requires Written(raw, base, encs, |encs|) && Lens(encs) == sizes
    requires Zeros(raw, base + 4 * |encs|, PAGE_SIZE - Used(encs, |encs|))
    ensures StackedAt(raw, base, sizes) && EndAt(raw, base, |sizes|) == PAGE_SIZE - Used(encs, |encs|)
  {
    hide SlotAt, OffsetAt, LengthAt, EndAt, Used, Written, Zeros;
    var n := |encs|;
    forall i | 0 <= i < |sizes|
      ensures LengthAt(raw, base, i) == sizes[i] && OffsetAt(raw, base, i) + sizes[i] == EndAt(raw, base, i)
    {
      assert sizes[i] == Lens(encs)[i] == |encs[i]|;
      SlotEnds(raw, base, encs, i);
    }
    if n == 0 {
      WrittenNone(encs);
      FirstEnd(raw, base);
    } else {
      SlotEnds(raw, base, encs, n - 1);
    }
    assert Zeros(raw, base + 4 * |sizes|, EndAt(raw, base, |sizes|));
  }

  lemma {:induction false} FirstEnd(raw: seq<Byte>, base: nat)
    requires base <= |raw|
    ensures EndAt(raw, base, 0) == |raw|
  {
  }

  /** An entry lies right below the one before it. */
  lemma {:induction false} SlotEnds(raw: seq<Byte>, base: nat, encs: seq<seq<Byte>>, i: nat)
    requires |raw| == PAGE_SIZE && base + 4 * |encs| + Used(encs, |encs|) <= PAGE_SIZE
    requires Written(raw, base, encs, |encs|) && i < |encs|
    ensures LengthAt(raw, base, i) == |encs[i]| && OffsetAt(raw, base, i) + |encs[i]| == EndAt(raw, base, i)
    ensures EndAt(raw, base, i + 1) == PAGE_SIZE - Used(encs, i + 1)
  {
    hide SlotAt, OffsetAt, LengthAt, Used, Written;
    SlotRead(raw, base, encs, i);
    SlotIs(raw, base, i);
    UsedStep(encs, i);
    UsedGrows(encs, i + 1, |encs|);
    if i == 0 {
      WrittenNone(encs);
    } else {
      SlotRead(raw, base, encs, i - 1);
      SlotIs(raw, base, i - 1);
      UsedGrows(encs, i, |encs|);
    }
  }

  lemma {:induction false} WrittenNone(encs: seq<seq<Byte>>)
    ensures Used(encs, 0) == 0
  {
  }

  lemma {:induction false} SlotRead(raw: seq<Byte>, base: nat, encs: seq<seq<Byte>>, i: nat)
    requires |raw| == PAGE_SIZE && base + 4 * |encs| + Used(encs, |encs|) <= PAGE_SIZE
    requires Written(raw, base, encs, |encs|) && i < |encs|
    ensures SlotAt(raw, base, i) == SlotOf(encs, i)
  {
    hide SlotAt, SlotBytes, Used, Written;
    WrittenAt(raw, base, encs, |encs|, i);
    UsedGrows(encs, i + 1, |encs|);
    UsedStep(encs, i);
    SlotBack(raw, base, i, SlotOf(encs, i));
  }

  /** The bytes between slots and entries, or behind the body, are zero. */
  ghost predicate RestZero(raw: seq<Byte>, p: Page)
    requires |raw| == PAGE_SIZE && Encodable(p)
  {
    var base := |Header(p)|;
    match p.body
    case Leaf(rows, _, _) =>
      LeafRoom(p);
      Zeros(raw, base + 4 * |rows|, PAGE_SIZE - Used(RowEncs(rows), |rows|))
    case Internal(keys, children) =>
      InternalRoom(p);
      Zeros(raw, base + 8 * |children| + 4 * |keys|, PAGE_SIZE - Used(KeyEncs(keys), |keys|))
    case Free(next) => Zeros(raw, base + |EncLink(next)|, PAGE_SIZE)
    case Meta(_, _, _, _, _) => Zeros(raw, base + |MetaBytes(p.body)|, PAGE_SIZE)
  }

  lemma {:induction false} HeaderEnd(p: Page)
    ensures |Header(p)| == StartOf(p.body)
  {
  }

  /** What is written is packed. */
  lemma {:induction false} WrittenPacked(raw: seq<Byte>, p: Page)
    requires |raw| == PAGE_SIZE && Encodable(p) && Typed(p) && BodyWritten(raw, p) && RestZero(raw, p)
    ensures Packed(raw, p)
  {
    hide Packed, BodyWritten, RestZero, Encodable, Typed;
    match p.body
    case Leaf(_, _, _) => LeafPacked(raw, p);
    case Internal(_, _) => InternalPacked(raw, p);
    case Meta(_, _, _, _, _) => MetaPacked(raw, p);
    case Free(_) => FreePacked(raw, p);
  }

  lemma {:induction false} LeafPacked(raw: seq<Byte>, p: Page)
    requires |raw| == PAGE_SIZE && p.body.Leaf? && Encodable(p) && BodyWritten(raw, p) && RestZero(raw, p)
    ensures Packed(raw, p)
  {
    hide Header, EncRow, Used, Written, Zeros, StackedAt, EndAt, RowInvariant, Sorted, RowSize, LeafEntrySize;
    LeafRoom(p);
    HeaderEnd(p);
    var rows, encs := p.body.records, RowEncs(p.body.records);
    var sizes := seq(|rows|, i requires 0 <= i < |rows| => RowSize(rows[i]));
    assert Lens(encs) == sizes by { EncSizes(rows); }
    Stacks(raw, |Header(p)|, encs, sizes);
    RowWeights(rows);
  }

  lemma {:induction false} EncSizes(rows: seq<Row>)
    requires RowsShort(rows)
    ensures Lens(RowEncs(rows)) == seq(|rows|, i requires 0 <= i < |rows| => RowSize(rows[i]))
  {
    hide EncRow, RowSize;
  }

  lemma {:induction false} RowWeights(rows: seq<Row>)
    requires RowsShort(rows)
    ensures LeafBytes(rows) == 4 * |rows| + Used(RowEncs(rows), |rows|)
  {
    hide EncRow, Sum;
    var encs := RowEncs(rows);
    UsedAll(encs);
    SumShift(Lens(encs), RowSizes(rows), 4);
  }

  lemma {:induction false} KeyWeights(keys: seq<Key>)
    ensures KeyBytes(keys) == 12 * |keys| + Used(KeyEncs(keys), |keys|)
    ensures Lens(KeyEncs(keys)) == seq(|keys|, i requires 0 <= i < |keys| => KeySize(keys[i]))
  {
    hide EncKey, Sum;
    var encs := KeyEncs(keys);
    UsedAll(encs);
    SumShift(Lens(encs), KeySizes(keys), 12);
  }

  lemma {:induction false} InternalPacked(raw: seq<Byte>, p: Page)
    requires |raw| == PAGE_SIZE && p.body.Internal? && Encodable(p) && BodyWritten(raw, p) && RestZero(raw, p)
    ensures Packed(raw, p)
  {
    hide Header, EncKey, Used, Written, Zeros, StackedAt, EndAt, Sorted, KeySize, InternalEntrySize, IdsWritten;
    hide KeyBytes;
    InternalRoom(p);
    HeaderEnd(p);
    var keys, encs := p.body.keys, KeyEncs(p.body.keys);
    var sizes := seq(|keys|, i requires 0 <= i < |keys| => KeySize(keys[i]));
    KeyWeights(keys);
    Stacks(raw, |Header(p)| + 8 * |p.body.children|, encs, sizes);
  }

  lemma {:induction false} MetaPacked(raw: seq<Byte>, p: Page)
    requires |raw| == PAGE_SIZE && p.body.Meta? && Encodable(p) && Typed(p) && BodyWritten(raw, p) && RestZero(raw, p)
    ensures Packed(raw, p)
  {
    hide Header, MetaBytes, Zeros, MetaIs, SchemaSize, Typed;
    HeaderEnd(p);
    MetaSpelled(p);
    var f := 23 + |MetaBytes(p.body)|;
    assert raw[23..f] == MetaBytes(p.body);
    assert Zeros(raw, f, 4096);
  }

  lemma {:induction false} FreePacked(raw: seq<Byte>, p: Page)
    requires |raw| == PAGE_SIZE && p.body.Free? && Encodable(p) && Typed(p) && BodyWritten(raw, p) && RestZero(raw, p)
    ensures Packed(raw, p)
  {
    hide Header, EncLink, Zeros;
    HeaderEnd(p);
    LinkSpelled(p.body.nextFree);
  }

  /** A written page is laid out as such, even one that the reader will not take. */
  lemma {:induction false} WrittenIs(raw: seq<Byte>, p: Page, crc: Crc)
    requires |raw| == PAGE_SIZE && Encodable(p) && Typed(p) && BodyWritten(raw, p)
    requires raw[..|Header(p)|] == Patched(Header(p), crc(raw[..CHECKSUM_OFFSET] + raw[CHECKSUM_OFFSET + 4..]))
    ensures PageIs(raw, p, crc)
  {
    hide Encodable, Typed, BodyWritten, Header, Patched, Parse, PageIs, NamesShort;
    if Returns(p) {
      RoundTrip(p, raw, crc);
      ParsedIs(raw, crc);
    } else {
      LongMetaIs(raw, p, crc);
    }
  }

  lemma {:induction false} LongMetaIs(raw: seq<Byte>, p: Page, crc: Crc)
    requires |raw| == PAGE_SIZE && p.body.Meta? && Encodable(p) && Typed(p) && BodyWritten(raw, p)
    requires raw[..|Header(p)|] == Patched(Header(p), crc(raw[..CHECKSUM_OFFSET] + raw[CHECKSUM_OFFSET + 4..]))
    ensures PageIs(raw, p, crc)
  {
    hide Header, Patched, MetaBytes, MetaIs, Typed, Encodable, ReadHead, FromBigEndian, IdIs, Num2, Num4, Num8;
    var c := crc(raw[..CHECKSUM_OFFSET] + raw[CHECKSUM_OFFSET + 4..]);
    HeadBack(p, raw, c);
    HeadRead(raw);
    NumberIs(raw[17..21]);
    HeaderEnd(p);
    MetaSpelled(p);
    var f := 23 + |MetaBytes(p.body)|;
    assert raw[23..] == MetaBytes(p.body) + raw[f..];
    MetaMore(MetaBytes(p.body), raw[f..], p.body);
  }
}

/** Bytes on disk: big-endian numbers, LEB128 lengths and UTF-8 text. Readers take the bytes that
    remain and give back what they read with the bytes after it. */
module Bytes {
  import opened Common
  import opened Schemas

  type Reading<T> = Option<(T, seq<Byte>)>

  // ---------------------------------------------------------------- big-endian numbers

  function Pow256(k: nat): (r: nat)
    ensures 1 <= r
  {
    if k == 0 then 1 else 256 * Pow256(k - 1)
  }

  lemma {:induction false} Powers()
    ensures Pow256(2) == 0x1_0000 && Pow256(4) == 0x1_0000_0000 && Pow256(8) == 0x1_0000_0000_0000_0000
  {
    assert Pow256(1) == 256;
    assert Pow256(2) == 65536;
    assert Pow256(3) == 16777216;
    assert Pow256(5) == 256 * Pow256(4);
    assert Pow256(6) == 256 * Pow256(5);
    assert Pow256(7) == 256 * Pow256(6);
  }

  /** The `k` low bytes of `n`, most significant first (`to_be_bytes`). */
  function BigEndian(n: nat, k: nat): (s: seq<Byte>)
    ensures |s| == k
  {
    if k == 0 then [] else BigEndian(n / 256, k - 1) + [n % 256]
  }

  /** `from_be_bytes` */
  function FromBigEndian(s: seq<Byte>): (n: nat)
    ensures n < Pow256(|s|)
  {
    if s == [] then 0 else FromBigEndian(s[..|s| - 1]) * 256 + s[|s| - 1]
  }

  lemma {:induction false} BigEndianBack(n: nat, k: nat)
    requires n < Pow256(k)
    ensures FromBigEndian(BigEndian(n, k)) == n
  {
    if k > 0 {
      BigEndianBack(n / 256, k - 1);
      var s := BigEndian(n, k);
      assert s[..k - 1] == BigEndian(n / 256, k - 1);
    }
  }

  // ----------------------------------------------------------------------- varints

  /** `encode_var_vec`: seven bits a byte, least significant first, the top bit set on all but the last. */
  function Varint(n: nat): (s: seq<Byte>)
    ensures |s| == VarintLen(n)
  {
    if n < 128 then [n] else [128 + n % 128] + Varint(n / 128)
  }

  /** `read_varint` */
  function ReadVarint(b: seq<Byte>): (r: Reading<nat>)
    ensures r.Some? ==> |r.value.1| < |b|
  {
    if b == [] then None
    else if b[0] < 128 then Some((b[0], b[1..]))
    else
      match ReadVarint(b[1..])
      case None => None
      case Some((n, rest)) => Some((b[0] - 128 + 128 * n, rest))
  }

  lemma {:induction false} VarintBack(n: nat, rest: seq<Byte>)
    ensures ReadVarint(Varint(n) + rest) == Some((n, rest))
    decreases n
  {
    var b := Varint(n) + rest;
    if n < 128 {
      assert b[1..] == rest;
    } else {
      VarintBack(n / 128, rest);
      assert b[1..] == Varint(n / 128) + rest;
    }
  }

  // ------------------------------------------------------------------------- UTF-8

  predicate Continuation(b: Byte) { 0x80 <= b < 0xC0 }

  /** Well-formed UTF-8 (section 4 of RFC 3629). */
  predicate Utf8(s: seq<Byte>) {
    if s == [] then true
    else if s[0] < 0x80 then Utf8(s[1..])
    else if 0xC2 <= s[0] < 0xE0 then |s| >= 2 && Continuation(s[1]) && Utf8(s[2..])
    else if 0xE0 <= s[0] < 0xF0 then
      && |s| >= 3 && Continuation(s[1]) && Continuation(s[2])
      && (s[0] == 0xE0 ==> 0xA0 <= s[1]) && (s[0] == 0xED ==> s[1] < 0xA0)
      && Utf8(s[3..])
    else if 0xF0 <= s[0] < 0xF5 then
      && |s| >= 4 && Continuation(s[1]) && Continuation(s[2]) && Continuation(s[3])
      && (s[0] == 0xF0 ==> 0x90 <= s[1]) && (s[0] == 0xF4 ==> s[1] < 0x90)
      && Utf8(s[4..])
    else false
  }

  /** A Unicode scalar value. */
  ghost predicate Scalar(c: nat) {
    c < 0xD800 || 0xE000 <= c < 0x11_0000
  }

  /** The bytes of a scalar value: six bits a byte behind a lead byte that tells how many. */
  ghost function ScalarBytes(c: nat): (b: seq<Byte>)
    requires Scalar(c)
    ensures b != []
  {
    if c < 0x80 then [c]
    else if c < 0x800 then [0xC0 + c / 64, 0x80 + c % 64]
    else if c < 0x1_0000 then [0xE0 + c / 64 / 64, 0x80 + c / 64 % 64, 0x80 + c % 64]
    else [0xF0 + c / 64 / 64 / 64, 0x80 + c / 64 / 64 % 64, 0x80 + c / 64 % 64, 0x80 + c % 64]
  }

  ghost function AllBytes(cs: seq<nat>): seq<Byte>
    requires forall i :: 0 <= i < |cs| ==> Scalar(cs[i])
  {
    if cs == [] then [] else ScalarBytes(cs[0]) + AllBytes(cs[1..])
  }

  ghost predicate Spells(s: seq<Byte>, cs: seq<nat>) {
    (forall i :: 0 <= i < |cs| ==> Scalar(cs[i])) && s == AllBytes(cs)
  }

  /** Text is well-formed exactly when it is the bytes of some scalar values. */
  lemma {:induction false} Utf8Means(s: seq<Byte>)
    ensures Utf8(s) <==> exists cs :: Spells(s, cs)
  {
    if Utf8(s) {
      var cs := Scalars(s);
    }
    if cs :| Spells(s, cs) {
      ScalarsFit(s, cs);
    }
  }

  /** The number of bytes that the first one announces, and the scalar value they stand for. */
  lemma {:induction false} FirstScalar(s: seq<Byte>) returns (c: nat, n: nat)
    requires Utf8(s) && s != []
    ensures Scalar(c) && 1 <= n <= |s| && s[..n] == ScalarBytes(c) && Utf8(s[n..])
  {
    var lead: nat := s[0];
    if lead < 0x80 {
      return lead, 1;
    }
    n := if lead < 0xE0 then 2 else if lead < 0xF0 then 3 else 4;
    c := SixMore(if n == 2 then lead - 0xC0 else if n == 3 then lead - 0xE0 else lead - 0xF0, s[1]);
    if n >= 3 {
      c := SixMore(c, s[2]);
    }
    if n == 4 {
      c := SixMore(c, s[3]);
    }
  }

  /** Six more bits. */
  lemma {:induction false} SixMore(high: nat, b: Byte) returns (c: nat)
    requires Continuation(b)
    ensures c == 64 * high + (b as int) - 0x80 && c / 64 == high && c % 64 == b - 0x80
  {
    c := 64 * high + (b as int) - 0x80;
  }

  lemma {:induction false} Scalars(s: seq<Byte>) returns (cs: seq<nat>)
    requires Utf8(s)
    ensures Spells(s, cs)
  {
    if s == [] {
      cs := [];
    } else {
      var c, n := FirstScalar(s);
      var rest := Scalars(s[n..]);
      cs := [c] + rest;
      assert cs[1..] == rest && s == s[..n] + s[n..];
    }
  }

  lemma {:induction false} ScalarsFit(s: seq<Byte>, cs: seq<nat>)
    requires Spells(s, cs)
    ensures Utf8(s)
    decreases |cs|
  {
    if cs != [] {
      ScalarsFit(AllBytes(cs[1..]), cs[1..]);
      ScalarFits(cs[0], AllBytes(cs[1..]));
    }
  }

  lemma {:induction false} ScalarFits(c: nat, rest: seq<Byte>)
    requires Scalar(c) && Utf8(rest)
    ensures Utf8(ScalarBytes(c) + rest)
  {
    var b := ScalarBytes(c);
    var s := b + rest;
    LeadBytes(c);
    hide ScalarBytes;
    assert s[|b|..] == rest && s[0] == b[0];
    if |b| > 1 {
      assert s[1] == b[1];
    }
    if |b| > 2 {
      assert s[2] == b[2];
    }
    if |b| > 3 {
      assert s[3] == b[3];
    }
  }

  /** What the lead byte and those after it look like. */
  lemma {:induction false} LeadBytes(c: nat)
    requires Scalar(c)
    ensures var b := ScalarBytes(c);
      && |b| <= 4
      && (|b| == 1 ==> b[0] < 0x80)
      && (|b| == 2 ==> 0xC2 <= b[0] < 0xE0 && Continuation(b[1]))
      && (|b| == 3 ==>
          && 0xE0 <= b[0] < 0xF0 && Continuation(b[1]) && Continuation(b[2])
          && (b[0] == 0xE0 ==> 0xA0 <= b[1]) && (b[0] == 0xED ==> b[1] < 0xA0))
      && (|b| == 4 ==>
          && 0xF0 <= b[0] < 0xF5 && Continuation(b[1]) && Continuation(b[2]) && Continuation(b[3])
          && (b[0] == 0xF0 ==> 0x90 <= b[1]) && (b[0] == 0xF4 ==> b[1] < 0x90))
  {
  }

  /** Takes `n` bytes (`read_exact`). */
  function Take(b: seq<Byte>, n: nat): (r: Reading<seq<Byte>>)
    ensures r.Some? <==> n <= |b|
    ensures r.Some? ==> b == r.value.0 + r.value.1 && |r.value.0| == n
  {
    if |b| < n then None else Some((b[..n], b[n..]))
  }

  lemma {:induction false} TakeBack(s: seq<Byte>, rest: seq<Byte>)
    ensures Take(s + rest, |s|) == Some((s, rest))
  {
  }

  /** A fixed-width number. */
  function ReadNum(b: seq<Byte>, k: nat): (r: Reading<nat>)
    ensures r.Some? ==> r.value.0 < Pow256(k)
  {
    match Take(b, k)
    case None => None
    case Some((s, rest)) => Some((FromBigEndian(s), rest))
  }

  lemma {:induction false} NumBack(n: nat, k: nat, rest: seq<Byte>)
    requires n < Pow256(k)
    ensures ReadNum(BigEndian(n, k) + rest, k) == Some((n, rest))
  {
    TakeBack(BigEndian(n, k), rest);
    BigEndianBack(n, k);
  }

  /** Text preceded by its length, at most `max` bytes of it. */
  function ReadText(b: seq<Byte>, max: nat): (r: Reading<seq<Byte>>)
    ensures r.Some? ==> Utf8(r.value.0) && |r.value.0| <= max
  {
    match ReadVarint(b)
    case None => None
    case Some((n, rest)) =>
      if n > max then None
      else
        match Take(rest, n)
        case None => None
        case Some((s, rest')) => if Utf8(s) then Some((s, rest')) else None
  }

  function Text(s: seq<Byte>): (r: seq<Byte>)
    ensures |r| == VarintLen(|s|) + |s|
  {
    Varint(|s|) + s
  }

  /** Text is read back exactly when it is not too long. */
  lemma {:induction false} TextBack(s: seq<Byte>, max: nat, rest: seq<Byte>)
    requires Utf8(s)
    ensures ReadText(Text(s) + rest, max) == if |s| <= max then Some((s, rest)) else None
  {
    hide Utf8;
    VarintBack(|s|, s + rest);
    assert Text(s) + rest == Varint(|s|) + (s + rest);
    TakeBack(s, rest);
  }
}

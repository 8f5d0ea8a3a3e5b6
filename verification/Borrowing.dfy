/** Bulk borrowing between two neighbouring pages (`src/page/mod.rs`). */
module Borrowing {
  import opened Common
  import opened Schemas
  import opened Pages
  import opened Balancing

  // ---------------------------------------------------------------------- leaf pairs

  function PairRows(l: Page, r: Page): seq<Row>
    requires l.body.Leaf? && r.body.Leaf?
  {
    l.body.records + r.body.records
  }

  /** Two linked leaves with sorted rows of legal size. */
  ghost predicate LeafPair(l: Page, r: Page) {
    && l.body.Leaf? && r.body.Leaf?
    && l.body.next == Some(r.id) && r.body.prev == Some(l.id)
    && Sorted(RecordKeys(PairRows(l, r)))
    && (forall i :: 0 <= i < |PairRows(l, r)| ==> LeafEntrySize(PairRows(l, r)[i]) <= MAX_LEAF_ENTRY_SIZE)
  }

  /** The pair with its rows cut before row `k`, and the key that then separates the two. */
  function LeafAt(l: Page, r: Page, k: nat): (Page, Page, Key)
    requires l.body.Leaf? && r.body.Leaf? && k < |PairRows(l, r)|
  {
    var w := PairRows(l, r);
    (l.(body := l.body.(records := w[..k])), r.(body := r.body.(records := w[k..])), RowKey(w[k]))
  }

  /** The two leaves do not fit into one, and no more than one of them is underfull. */
  ghost predicate LeafUnmergeable(l: Page, r: Page)
    requires l.body.Leaf? && r.body.Leaf?
  {
    LEAF_USABLE < LeafBytes(PairRows(l, r)) <= LEAF_UNDERFULL_BYTES - 1 + LEAF_USABLE
  }

  lemma {:induction false} LeafCutWeights(l: Page, r: Page, k: nat)
    requires LeafPair(l, r) && LeafUnmergeable(l, r) && k <= |PairRows(l, r)|
    ensures var w := PairRows(l, r); var z := RowSizes(w);
      && LeafBytes(w[..k]) == Sum(z[..k]) && LeafBytes(w[k..]) == Sum(z[k..])
      && (Sum(z[..k]) < Sum(z[k..]) ==> k + 3 <= |w| && Sum(z[..k]) + MAX_LEAF_ENTRY_SIZE <= LEAF_USABLE)
      && (Sum(z[k..]) < Sum(z[..k]) ==> 3 <= k && Sum(z[k..]) + MAX_LEAF_ENTRY_SIZE <= LEAF_USABLE)
  {
    hide Sorted, Sum;
    var w := PairRows(l, r);
    var z := RowSizes(w);
    assert RowSizes(w[..k]) == z[..k] && RowSizes(w[k..]) == z[k..];
    CutSum(z, 0, k);
    if Sum(z[..k]) < Sum(z[k..]) {
      LeafBorrowRoom(z, z[..k], z[k..]);
    }
    if Sum(z[k..]) < Sum(z[..k]) {
      LeafBorrowRoom(z, z[k..], z[..k]);
    }
  }

  /** One borrow moves the cut by one row. */
  lemma {:induction false} LeafStepRight(l: Page, r: Page, k: nat)
    requires LeafPair(l, r) && k + 1 < |PairRows(l, r)|
    requires LeafBytes(PairRows(l, r)[..k]) + MAX_LEAF_ENTRY_SIZE <= LEAF_USABLE
    ensures var (a, b, _) := LeafAt(l, r, k); LeafBorrowFromRight(a, b) == Ok(LeafAt(l, r, k + 1))
  {
    hide LeafBytes, LeafEntrySize, RowKey, HasRoom;
    var w := PairRows(l, r);
    var (a, b, _) := LeafAt(l, r, k);
    RowRoom(a, w[k]);
    assert w[k..][0] == w[k] && w[k..][1] == w[k + 1] && w[k..][1..] == w[k + 1..] && w[..k] + [w[k]] == w[..k + 1];
    assert k > 0 ==> KeyLess(RecordKeys(w)[k - 1], RecordKeys(w)[k]);
  }

  lemma {:induction false} LeafStepLeft(l: Page, r: Page, k: nat)
    requires LeafPair(l, r) && 2 <= k <= |PairRows(l, r)|
    requires LeafBytes(PairRows(l, r)[k..]) + MAX_LEAF_ENTRY_SIZE <= LEAF_USABLE
    ensures var w := PairRows(l, r);
      var a, b := l.(body := l.body.(records := w[..k])), r.(body := r.body.(records := w[k..]));
      var (a', b', sep) := LeafAt(l, r, k - 1); LeafBorrowFromLeft(b, a) == Ok((b', a', sep))
  {
    hide LeafBytes, LeafEntrySize, RowKey, HasRoom;
    var w := PairRows(l, r);
    var a, b := l.(body := l.body.(records := w[..k])), r.(body := r.body.(records := w[k..]));
    RowRoom(b, w[k - 1]);
    assert w[..k][k - 1] == w[k - 1] && w[..k][..k - 1] == w[..k - 1] && [w[k - 1]] + w[k..] == w[k - 1..];
    assert k < |w| ==> KeyLess(RecordKeys(w)[k - 1], RecordKeys(w)[k]);
  }

  // ------------------------------------------------------------------ internal pairs

  function PairKeys(l: Page, sep: Key, r: Page): seq<Key>
    requires l.body.Internal? && r.body.Internal?
  {
    l.body.keys + [sep] + r.body.keys
  }

  function PairChildren(l: Page, r: Page): seq<PageId>
    requires l.body.Internal? && r.body.Internal?
  {
    l.body.children + r.body.children
  }

  /** Two internal pages around a separator, keys sorted throughout and of legal size. */
  ghost predicate InternalPair(l: Page, sep: Key, r: Page) {
    && l.body.Internal? && r.body.Internal?
    && |l.body.children| == |l.body.keys| + 1 && |r.body.children| == |r.body.keys| + 1
    && Sorted(PairKeys(l, sep, r))
    && (forall i :: 0 <= i < |PairKeys(l, sep, r)| ==>
        InternalEntrySize(PairKeys(l, sep, r)[i]) <= MAX_INTERNAL_ENTRY_SIZE)
  }

  /** The pair cut at key `k`, which moves up as the separator. */
  function InternalAt(l: Page, sep: Key, r: Page, k: nat): (Page, Page, Key)
    requires l.body.Internal? && r.body.Internal? && k < |PairKeys(l, sep, r)| && k < |PairChildren(l, r)|
  {
    var w, ch := PairKeys(l, sep, r), PairChildren(l, r);
    (l.(body := Internal(w[..k], ch[..k + 1])), r.(body := Internal(w[k + 1..], ch[k + 1..])), w[k])
  }

  /** The two pages and the separator do not fit into one, and one of them is underfull. */
  ghost predicate InternalUnmergeable(l: Page, sep: Key, r: Page)
    requires l.body.Internal? && r.body.Internal?
  {
    INTERNAL_USABLE < KeyBytes(PairKeys(l, sep, r))
      <= INTERNAL_UNDERFULL_BYTES - 1 + MAX_INTERNAL_ENTRY_SIZE + INTERNAL_USABLE
  }

  lemma {:induction false} InternalCutWeights(l: Page, sep: Key, r: Page, k: nat)
    requires InternalPair(l, sep, r) && InternalUnmergeable(l, sep, r) && k < |PairKeys(l, sep, r)|
    ensures var w := PairKeys(l, sep, r); var z := KeySizes(w);
      && KeyBytes(w[..k]) == Sum(z[..k]) && KeyBytes(w[k + 1..]) == Sum(z[k + 1..])
      && (Sum(z[..k]) < Sum(z[k + 1..]) ==> k + 3 <= |w| && Sum(z[..k]) + InternalEntrySize(w[k]) <= INTERNAL_USABLE)
      && (Sum(z[k + 1..]) < Sum(z[..k]) ==> 2 <= k && Sum(z[k + 1..]) + InternalEntrySize(w[k]) <= INTERNAL_USABLE)
  {
    hide Sorted, Sum;
    var w := PairKeys(l, sep, r);
    var z := KeySizes(w);
    assert KeySizes(w[..k]) == z[..k] && KeySizes(w[k + 1..]) == z[k + 1..];
    CutSum(z, 1, k);
    if Sum(z[..k]) < Sum(z[k + 1..]) {
      InternalBorrowRoom(Sum(z), Sum(z[..k]), z[k], z[k + 1..]);
    }
    if Sum(z[k + 1..]) < Sum(z[..k]) {
      InternalBorrowRoom(Sum(z), Sum(z[k + 1..]), z[k], z[..k]);
    }
  }

  lemma {:induction false} InternalStepRight(l: Page, sep: Key, r: Page, k: nat)
    requires InternalPair(l, sep, r) && k + 1 < |PairKeys(l, sep, r)|
    requires KeyBytes(PairKeys(l, sep, r)[..k]) + InternalEntrySize(PairKeys(l, sep, r)[k]) <= INTERNAL_USABLE
    ensures var (a, b, s) := InternalAt(l, sep, r, k);
      InternalBorrowFromRight(a, b, s) == Ok(InternalAt(l, sep, r, k + 1))
  {
    hide KeyBytes, InternalEntrySize, HasRoom;
    var w, ch := PairKeys(l, sep, r), PairChildren(l, r);
    var (a, b, s) := InternalAt(l, sep, r, k);
    KeyRoom(a, w[k]);
    assert w[k + 1..][0] == w[k + 1] && w[k + 1..][1..] == w[k + 2..] && w[..k] + [w[k]] == w[..k + 1];
    assert ch[k + 1..][0] == ch[k + 1] && ch[k + 1..][1..] == ch[k + 2..] && ch[..k + 1] + [ch[k + 1]] == ch[..k + 2];
  }

  lemma {:induction false} InternalStepLeft(l: Page, sep: Key, r: Page, k: nat)
    requires InternalPair(l, sep, r) && 1 <= k < |PairKeys(l, sep, r)|
    requires KeyBytes(PairKeys(l, sep, r)[k + 1..]) + InternalEntrySize(PairKeys(l, sep, r)[k]) <= INTERNAL_USABLE
    ensures var (a, b, s) := InternalAt(l, sep, r, k); var (a', b', s') := InternalAt(l, sep, r, k - 1);
      InternalBorrowFromLeft(b, a, s) == Ok((b', a', s'))
  {
    hide KeyBytes, InternalEntrySize, HasRoom;
    var w, ch := PairKeys(l, sep, r), PairChildren(l, r);
    var (a, b, s) := InternalAt(l, sep, r, k);
    KeyRoom(b, w[k]);
    assert w[..k][k - 1] == w[k - 1] && w[..k][..k - 1] == w[..k - 1] && [w[k]] + w[k + 1..] == w[k..];
    assert ch[..k + 1][k] == ch[k] && ch[..k + 1][..k] == ch[..k] && [ch[k]] + ch[k + 1..] == ch[k..];
  }

  // ---------------------------------------------------------- both kinds of pair at once

  /** A pair of neighbours that cannot merge although one of them is underfull. */
  ghost predicate Starved(l: Page, sep: Key, r: Page) {
    || (LeafPair(l, r) && LeafUnmergeable(l, r))
    || (InternalPair(l, sep, r) && InternalUnmergeable(l, sep, r))
  }

  ghost function PairSizes(l: Page, sep: Key, r: Page): seq<nat>
    requires Starved(l, sep, r)
  {
    if l.body.Leaf? then RowSizes(PairRows(l, r)) else KeySizes(PairKeys(l, sep, r))
  }

  function Gap(l: Page): nat {
    if l.body.Leaf? then 0 else 1
  }

  function NumItems(p: Page): nat {
    match p.body
    case Leaf(records, _, _) => |records|
    case Internal(keys, _) => |keys|
    case _ => 0
  }

  ghost function PairAt(l: Page, sep: Key, r: Page, k: nat): (Page, Page, Key)
    requires Starved(l, sep, r) && k < |PairSizes(l, sep, r)|
  {
    if l.body.Leaf? then LeafAt(l, r, k) else InternalAt(l, sep, r, k)
  }

  /** The receiver `l` is the lighter one. */
  ghost predicate LighterLeft(l: Page, sep: Key, r: Page) {
    Starved(l, sep, r) && EntriesSize(l) < EntriesSize(r)
  }

  ghost predicate LighterRight(l: Page, sep: Key, r: Page) {
    Starved(l, sep, r) && EntriesSize(r) < EntriesSize(l)
  }

  lemma {:induction false} PairWeights(l: Page, sep: Key, r: Page, k: nat)
    requires Starved(l, sep, r) && k < |PairSizes(l, sep, r)|
    ensures var z, g := PairSizes(l, sep, r), Gap(l); var (a, b, s) := PairAt(l, sep, r, k);
      && EntriesSize(a) == Sum(z[..k]) && EntriesSize(b) == Sum(z[k + g..]) && NumItems(b) == |z| - k - g
      && NumItems(a) == k
      && (a.body.Leaf? <==> l.body.Leaf?) && (b.body.Leaf? <==> l.body.Leaf?)
  {
    hide Sum, Sorted, LeafEntrySize, InternalEntrySize;
    if l.body.Leaf? {
      LeafCutWeights(l, r, k);
    } else {
      InternalCutWeights(l, sep, r, k);
    }
  }

  lemma {:induction false} PairStepRight(l: Page, sep: Key, r: Page, k: nat)
    requires Starved(l, sep, r) && k + Gap(l) <= |PairSizes(l, sep, r)|
    requires var z, g := PairSizes(l, sep, r), Gap(l); Sum(z[..k]) < Sum(z[k + g..])
    ensures k + 2 + Gap(l) <= |PairSizes(l, sep, r)|
    ensures var (a, b, s) := PairAt(l, sep, r, k); BorrowFromRight(a, b, s) == Ok(PairAt(l, sep, r, k + 1))
  {
    hide Sum, Sorted, LeafEntrySize, InternalEntrySize, LeafBorrowFromRight, InternalBorrowFromRight;
    if l.body.Leaf? {
      LeafCutWeights(l, r, k);
      LeafStepRight(l, r, k);
    } else {
      InternalCutWeights(l, sep, r, k);
      InternalStepRight(l, sep, r, k);
    }
  }

  lemma {:induction false} PairStepLeft(l: Page, sep: Key, r: Page, k: nat)
    requires Starved(l, sep, r) && k < |PairSizes(l, sep, r)|
    requires var z, g := PairSizes(l, sep, r), Gap(l); Sum(z[k + g..]) < Sum(z[..k])
    ensures 2 <= k
    ensures var (a, b, s) := PairAt(l, sep, r, k); var (a', b', s') := PairAt(l, sep, r, k - 1);
      BorrowFromLeft(b, a, s) == Ok((b', a', s'))
  {
    hide Sum, Sorted, LeafEntrySize, InternalEntrySize, LeafBorrowFromLeft, InternalBorrowFromLeft;
    if l.body.Leaf? {
      LeafCutWeights(l, r, k);
      LeafStepLeft(l, r, k);
    } else {
      InternalCutWeights(l, sep, r, k);
      InternalStepLeft(l, sep, r, k);
    }
  }

  /** The pair as it is given is the pair cut where `l` ends. */
  lemma {:induction false} PairStart(l: Page, sep: Key, r: Page)
    requires Starved(l, sep, r)
    ensures var z, g, n := PairSizes(l, sep, r), Gap(l), NumItems(l);
      && n + g <= |z| && EntriesSize(l) == Sum(z[..n]) && EntriesSize(r) == Sum(z[n + g..])
      && NumItems(r) == |z| - n - g
      && (n < |z| ==> PairAt(l, sep, r, n).0 == l && PairAt(l, sep, r, n).1 == r)
      && (n < |z| && l.body.Internal? ==> PairAt(l, sep, r, n).2 == sep)
  {
    hide Sum, Sorted, LeafEntrySize, InternalEntrySize;
    if l.body.Leaf? {
      var w := PairRows(l, r);
      assert w[..|l.body.records|] == l.body.records && w[|l.body.records|..] == r.body.records;
      LeafCutWeights(l, r, |l.body.records|);
    } else {
      var w, n, ch := PairKeys(l, sep, r), |l.body.keys|, PairChildren(l, r);
      assert w[..n] == l.body.keys && w[n + 1..] == r.body.keys && w[n] == sep;
      assert ch[..n + 1] == l.body.children && ch[n + 1..] == r.body.children;
      InternalCutWeights(l, sep, r, n);
    }
  }

  lemma {:induction false} BorrowShrinks(p: Page, q: Page, s: Key)
    ensures BorrowFromRight(p, q, s).Ok? ==> NumItems(BorrowFromRight(p, q, s).value.1) < NumItems(q)
    ensures BorrowFromLeft(p, q, s).Ok? ==> NumItems(BorrowFromLeft(p, q, s).value.1) < NumItems(q)
  {
  }

  lemma {:induction false} BalanceStep(sizes: seq<nat>, g: nat, k: nat)
    requires k + g <= |sizes|
    ensures Sum(sizes[..k]) < Sum(sizes[k + g..]) ==>
      k + 1 + g <= |sizes| && BalanceUp(sizes, g, k) == BalanceUp(sizes, g, k + 1)
    ensures Sum(sizes[..k]) >= Sum(sizes[k + g..]) ==> BalanceUp(sizes, g, k) == k
    ensures Sum(sizes[k + g..]) < Sum(sizes[..k]) ==> 0 < k && BalanceDown(sizes, g, k) == BalanceDown(sizes, g, k - 1)
    ensures Sum(sizes[k + g..]) >= Sum(sizes[..k]) ==> BalanceDown(sizes, g, k) == k
  {
    assert k + g == |sizes| ==> sizes[k + g..] == [];
    assert k == 0 ==> sizes[..k] == [];
  }

  /** Where borrowing from the right, or from the left, ends. */
  ghost function CutUp(l: Page, sep: Key, r: Page): nat
    requires Starved(l, sep, r)
  {
    PairStart(l, sep, r);
    BalanceUp(PairSizes(l, sep, r), Gap(l), NumItems(l))
  }

  ghost function CutDown(l: Page, sep: Key, r: Page): nat
    requires Starved(l, sep, r)
  {
    PairStart(l, sep, r);
    BalanceDown(PairSizes(l, sep, r), Gap(l), NumItems(l))
  }

  /** Borrowing from the right has moved the cut to `k` and will end where it should. */
  ghost predicate MovedUp(l: Page, sep: Key, r: Page, k: nat, a: Page, b: Page, s: Key) {
    && Starved(l, sep, r) && NumItems(l) < k && k + 1 + Gap(l) <= |PairSizes(l, sep, r)|
    && (a, b, s) == PairAt(l, sep, r, k)
    && CutUp(l, sep, r) == BalanceUp(PairSizes(l, sep, r), Gap(l), k)
  }

  ghost predicate MovedDown(l: Page, sep: Key, r: Page, k: nat, a: Page, b: Page, s: Key) {
    && Starved(l, sep, r) && 0 < k < NumItems(l) && k + 1 <= |PairSizes(l, sep, r)| && (a, b, s) == PairAt(l, sep, r, k)
    && CutDown(l, sep, r) == BalanceDown(PairSizes(l, sep, r), Gap(l), k)
  }

  lemma {:induction false} FirstUp(l: Page, sep: Key, r: Page)
    requires LighterLeft(l, sep, r)
    ensures var res := BorrowFromRight(l, r, sep);
      res.Ok? && MovedUp(l, sep, r, NumItems(l) + 1, res.value.0, res.value.1, res.value.2)
  {
    hide Sum, BalanceUp, LeafBorrowFromRight, InternalBorrowFromRight, Starved, PairSizes, PairAt, EntriesSize;
    hide NumItems;
    PairStart(l, sep, r);
    PairStepRight(l, sep, r, NumItems(l));
    BalanceStep(PairSizes(l, sep, r), Gap(l), NumItems(l));
  }

  lemma {:induction false} NextUp(l: Page, sep: Key, r: Page, k: nat, a: Page, b: Page, s: Key)
    requires MovedUp(l, sep, r, k, a, b, s)
    ensures EntriesSize(a) < EntriesSize(b) ==>
      var res := BorrowFromRight(a, b, s); res.Ok? && MovedUp(l, sep, r, k + 1, res.value.0, res.value.1, res.value.2)
    ensures EntriesSize(a) >= EntriesSize(b) ==> CutUp(l, sep, r) == k
  {
    hide Sum, BalanceUp, BorrowFromRight, Starved, PairSizes, PairAt, EntriesSize, NumItems;
    PairWeights(l, sep, r, k);
    if EntriesSize(a) < EntriesSize(b) {
      PairStepRight(l, sep, r, k);
    }
    BalanceStep(PairSizes(l, sep, r), Gap(l), k);
  }

  lemma {:induction false} FirstDown(l: Page, sep: Key, r: Page)
    requires LighterRight(l, sep, r)
    ensures var res := BorrowFromLeft(r, l, sep);
      2 <= NumItems(l) && res.Ok? && MovedDown(l, sep, r, NumItems(l) - 1, res.value.1, res.value.0, res.value.2)
  {
    hide Sum, BalanceDown, BorrowFromLeft, Starved, PairSizes, PairAt, EntriesSize, NumItems;
    PairStart(l, sep, r);
    FirstBorrowLeft(l, sep, r);
    BalanceStep(PairSizes(l, sep, r), Gap(l), NumItems(l));
  }

  lemma {:induction false} NextDown(l: Page, sep: Key, r: Page, k: nat, a: Page, b: Page, s: Key)
    requires MovedDown(l, sep, r, k, a, b, s)
    ensures EntriesSize(b) < EntriesSize(a) ==>
      var res := BorrowFromLeft(b, a, s);
        0 < k && res.Ok? && MovedDown(l, sep, r, k - 1, res.value.1, res.value.0, res.value.2)
    ensures EntriesSize(b) >= EntriesSize(a) ==> CutDown(l, sep, r) == k
  {
    hide Sum, BalanceDown, BorrowFromLeft, Starved, PairSizes, PairAt, EntriesSize, NumItems;
    PairStart(l, sep, r);
    PairWeights(l, sep, r, k);
    if EntriesSize(b) < EntriesSize(a) {
      PairStepLeft(l, sep, r, k);
    }
    BalanceStep(PairSizes(l, sep, r), Gap(l), k);
  }

  /** The first move from the left; with an empty right leaf there is no row at the cut yet. */
  lemma {:induction false} FirstBorrowLeft(l: Page, sep: Key, r: Page)
    requires LighterRight(l, sep, r)
    ensures 2 <= NumItems(l) && NumItems(l) + Gap(l) <= |PairSizes(l, sep, r)|
    ensures var (a', b', s') := PairAt(l, sep, r, NumItems(l) - 1); BorrowFromLeft(r, l, sep) == Ok((b', a', s'))
  {
    hide Sum, Sorted, LeafEntrySize, InternalEntrySize, LeafBorrowFromLeft, InternalBorrowFromLeft;
    PairStart(l, sep, r);
    var k := NumItems(l);
    if l.body.Leaf? {
      LeafCutWeights(l, r, k);
      LeafStepLeft(l, r, k);
      var w := PairRows(l, r);
      assert w[..k] == l.body.records && w[k..] == r.body.records;
    } else {
      PairStepLeft(l, sep, r, k);
    }
  }

  /** The receiver `l` takes entries from `r` until it is no lighter. For a starved pair the first move
      and every later one succeed, and the pair ends up cut at the first balanced place, with at least
      one entry left in the donor. */
  method BulkBorrowFromRight(l: Page, r: Page, sep: Key) returns (res: Result<(Page, Page, Key), PageError>)
    ensures LighterLeft(l, sep, r) ==>
      && NumItems(l) < CutUp(l, sep, r) && CutUp(l, sep, r) + 1 + Gap(l) <= |PairSizes(l, sep, r)|
      && res == Ok(PairAt(l, sep, r, CutUp(l, sep, r)))
  {
    hide EntriesSize, NumItems, BorrowFromRight, CutUp, PairSizes, PairAt, Starved;
    ghost var good := LighterLeft(l, sep, r);
    ghost var k: nat := NumItems(l) + 1;
    if good {
      FirstUp(l, sep, r);
    }
    var first := BorrowFromRight(l, r, sep);
    if first.Err? {
      return first;
    }
    var (a, b, s) := first.value;
    while EntriesSize(a) < EntriesSize(b)
      invariant good ==> MovedUp(l, sep, r, k, a, b, s)
      decreases NumItems(b)
    {
      hide MovedUp;
      if good {
        NextUp(l, sep, r, k, a, b, s);
        k := k + 1;
      }
      BorrowShrinks(a, b, s);
      match BorrowFromRight(a, b, s) {
        case Ok((a', b', s')) =>
          a, b, s := a', b', s';
        case Err(e) =>
          if e == PageFull || e == InvalidBorrow {
            break;
          }
          return Err(e);
      }
    }
    if good {
      NextUp(l, sep, r, k, a, b, s);
    }
    res := Ok((a, b, s));
  }

  /** The receiver `r` takes entries from `l` until it is no lighter. */
  method BulkBorrowFromLeft(r: Page, l: Page, sep: Key) returns (res: Result<(Page, Page, Key), PageError>)
    ensures LighterRight(l, sep, r) ==>
      && 0 < CutDown(l, sep, r) < NumItems(l) && CutDown(l, sep, r) < |PairSizes(l, sep, r)|
      && var (a, b, s) := PairAt(l, sep, r, CutDown(l, sep, r)); res == Ok((b, a, s))
  {
    hide EntriesSize, NumItems, BorrowFromLeft, CutDown, PairSizes, PairAt, Starved;
    ghost var good := LighterRight(l, sep, r);
    ghost var k: int := NumItems(l) - 1;
    if good {
      FirstDown(l, sep, r);
    }
    var first := BorrowFromLeft(r, l, sep);
    if first.Err? {
      return first;
    }
    var (b, a, s) := first.value;
    while EntriesSize(b) < EntriesSize(a)
      invariant good ==> 0 < k && MovedDown(l, sep, r, k, a, b, s)
      decreases NumItems(a)
    {
      if good {
        NextDown(l, sep, r, k, a, b, s);
        k := k - 1;
      }
      BorrowShrinks(b, a, s);
      match BorrowFromLeft(b, a, s) {
        case Ok((b', a', s')) =>
          a, b, s := a', b', s';
        case Err(e) =>
          if e == PageFull || e == InvalidBorrow {
            break;
          }
          return Err(e);
      }
    }
    if good {
      NextDown(l, sep, r, k, a, b, s);
    }
    res := Ok((b, a, s));
  }

  ghost predicate FitsPage(p: Page) {
    match p.body
    case Leaf(records, _, _) => LeafBytes(records) <= LEAF_USABLE
    case Internal(keys, _) => KeyBytes(keys) <= INTERNAL_USABLE
    case _ => true
  }

  function Budget(p: Page): nat {
    if p.body.Leaf? then LEAF_USABLE else INTERNAL_USABLE
  }

  function UnderfullBelow(p: Page): nat {
    if p.body.Leaf? then LEAF_UNDERFULL_BYTES else INTERNAL_UNDERFULL_BYTES
  }

  /** Moving one entry across the cut keeps the receiver within budget. */
  lemma {:induction false} CutBound(l: Page, sep: Key, r: Page, k: nat)
    requires Starved(l, sep, r) && k + Gap(l) <= |PairSizes(l, sep, r)|
    ensures var z, g := PairSizes(l, sep, r), Gap(l);
      && (Sum(z[..k]) < Sum(z[k + g..]) ==> k < |z| && Sum(z[..k]) + z[k] <= Budget(l))
      && (Sum(z[k + g..]) < Sum(z[..k]) ==> 0 < k && Sum(z[k + g..]) + z[k - 1 + g] <= Budget(l))
  {
    hide Sum, Sorted, LeafEntrySize, InternalEntrySize;
    if l.body.Leaf? {
      LeafCutWeights(l, r, k);
    } else {
      InternalCutWeights(l, sep, r, k);
    }
  }

  /** The weight of the pair as a whole. */
  lemma {:induction false} CutTotals(l: Page, sep: Key, r: Page, k: nat)
    requires Starved(l, sep, r) && k < |PairSizes(l, sep, r)|
    ensures var z := PairSizes(l, sep, r); var total := Sum(z);
      && (l.body.Leaf? ==> LEAF_USABLE < total <= LEAF_UNDERFULL_BYTES - 1 + LEAF_USABLE)
      && (l.body.Internal? ==>
          INTERNAL_USABLE < total <= INTERNAL_UNDERFULL_BYTES - 1 + MAX_INTERNAL_ENTRY_SIZE + INTERNAL_USABLE
                               && z[k] <= MAX_INTERNAL_ENTRY_SIZE)
      && (l.body.Leaf? || l.body.Internal?)
  {
    hide Sum, Sorted, LeafEntrySize, InternalEntrySize;
  }

  lemma {:induction false} KindFacts(p: Page)
    requires p.body.Leaf? || p.body.Internal?
    ensures FitsPage(p) <==> EntriesSize(p) <= Budget(p)
    ensures IsUnderfull(p) <==> EntriesSize(p) < UnderfullBelow(p)
  {
  }

  lemma {:induction false} PairKinds(l: Page, sep: Key, r: Page, k: nat)
    requires Starved(l, sep, r) && k < |PairSizes(l, sep, r)|
    ensures var (a, b, s) := PairAt(l, sep, r, k);
      && (a.body.Leaf? <==> l.body.Leaf?) && (b.body.Leaf? <==> l.body.Leaf?)
      && (a.body.Leaf? || a.body.Internal?) && (b.body.Leaf? || b.body.Internal?)
  {
    hide Sum, Sorted, LeafEntrySize, InternalEntrySize;
  }

  /** After borrowing from the right the receiver is no longer underfull, both pages are within budget
      and the donor keeps at least one entry. */
  lemma {:induction false} BorrowOutcomeUp(l: Page, sep: Key, r: Page)
    requires LighterLeft(l, sep, r)
    ensures NumItems(l) < CutUp(l, sep, r) && CutUp(l, sep, r) + 1 + Gap(l) <= |PairSizes(l, sep, r)|
    ensures var (a, b, s) := PairAt(l, sep, r, CutUp(l, sep, r));
      EntriesSize(b) <= EntriesSize(a) && !IsUnderfull(a) && FitsPage(a) && FitsPage(b) && 1 <= NumItems(b)
        && 1 <= NumItems(a)
  {
    hide Sum, BalanceUp, PairAt, PairSizes, NumItems, Starved, EntriesSize, FitsPage, IsUnderfull;
    PairStart(l, sep, r);
    var z, g, at := PairSizes(l, sep, r), Gap(l), CutUp(l, sep, r);
    PairStepRight(l, sep, r, at - 1);
    PairWeights(l, sep, r, at);
    CutBound(l, sep, r, at - 1);
    PrefixStep(z, at - 1);
    CutSum(z, g, at);
    CutTotals(l, sep, r, at);
    PairKinds(l, sep, r, at);
    KindFacts(PairAt(l, sep, r, at).0);
    KindFacts(PairAt(l, sep, r, at).1);
  }

  lemma {:induction false} BorrowOutcomeDown(l: Page, sep: Key, r: Page)
    requires LighterRight(l, sep, r)
    ensures 0 < CutDown(l, sep, r) < NumItems(l) && CutDown(l, sep, r) < |PairSizes(l, sep, r)|
    ensures var (a, b, s) := PairAt(l, sep, r, CutDown(l, sep, r));
      EntriesSize(a) <= EntriesSize(b) && !IsUnderfull(b) && FitsPage(a) && FitsPage(b) && 1 <= NumItems(a)
        && 1 <= NumItems(b)
  {
    hide Sum, BalanceDown, PairAt, PairSizes, NumItems, Starved, EntriesSize, FitsPage, IsUnderfull;
    PairStart(l, sep, r);
    FirstBorrowLeft(l, sep, r);
    var z, g, at := PairSizes(l, sep, r), Gap(l), CutDown(l, sep, r);
    if at + 1 < |z| {
      PairStepLeft(l, sep, r, at + 1);
    }
    PairWeights(l, sep, r, at);
    CutBound(l, sep, r, at + 1);
    SuffixStep(z, at + g);
    CutSum(z, g, at);
    CutTotals(l, sep, r, at);
    PairKinds(l, sep, r, at);
    KindFacts(PairAt(l, sep, r, at).0);
    KindFacts(PairAt(l, sep, r, at).1);
  }

  lemma {:induction false} SuffixStep(z: seq<nat>, i: nat)
    requires i < |z|
    ensures Sum(z[i..]) == z[i] + Sum(z[i + 1..])
  {
    assert z[i..][1..] == z[i + 1..];
  }
}

/** Two neighbouring children of a page seen apart from it: joining them into one, and cutting the
    joined entries somewhere else. */
module Joining {
  import opened Common
  import opened Schemas
  import opened Pages
  import opened Trees
  import opened Splitting

  function Without<T>(xs: seq<T>, j: nat): (r: seq<T>)
    requires j < |xs|
    ensures |r| == |xs| - 1
  {
    xs[..j] + xs[j + 1..]
  }

  /** The surroundings of children `j` and `j + 1` of `p`, the separator between them left out. */
  function PairCtx(up: Ctx, p: Tree, j: nat): Ctx
    requires p.NodeT? && j < |p.keys| && |p.kids| == |p.keys| + 1
  {
    Down(up, p.id, Without(p.keys, j), p.kids[..j], p.kids[j + 2..])
  }

  function Joined(a: Tree, sep: Key, b: Tree): Tree {
    match (a, b)
    case (LeafT(id, rows), LeafT(_, rows')) => LeafT(id, rows + rows')
    case (NodeT(id, keys, kids), NodeT(_, keys', kids')) => NodeT(id, keys + [sep] + keys', kids + kids')
    case _ => a
  }

  // -------------------------------------------------------------------- soundness

  lemma {:induction false} KeysWithoutOk(s: Schema, keys: seq<Key>, lo: Option<Key>, hi: Option<Key>, j: nat)
    requires KeysOk(s, keys, lo, hi) && j < |keys|
    ensures KeysOk(s, Without(keys, j), lo, hi)
    ensures KeyBytes(Without(keys, j)) + InternalEntrySize(keys[j]) == KeyBytes(keys)
  {
    hide ValidKey, KeyBytes, InternalEntrySize;
    var keys' := Without(keys, j);
    assert KeyBytes(keys') + InternalEntrySize(keys[j]) == KeyBytes(keys) by {
      KeyBytesMiddle(keys[..j], keys[j], keys[j + 1..]);
      assert keys[..j] + [keys[j]] + keys[j + 1..] == keys;
    }
    assert forall i :: 0 <= i < |keys'| ==> keys'[i] == keys[if i < j then i else i + 1];
  }

  /** Taking the separator between two children out of a sound node leaves sound surroundings, and the
      two children on either side of the separator. */
  lemma {:induction false} PairWf(s: Schema, up: Ctx, p: Tree, h: nat, j: nat)
    requires p.NodeT? && CtxWf(s, up, h + 1) && Wf(s, p, Lo(up), Hi(up), h + 1) && j < |p.keys|
    ensures |p.kids| == |p.keys| + 1
    ensures var c, sep := PairCtx(up, p, j), p.keys[j];
      && CtxWf(s, c, h)
      && Wf(s, p.kids[j], Lo(c), Some(sep), h) && Wf(s, p.kids[j + 1], Some(sep), Hi(c), h)
      && ValidKey(s, sep) && Above(Lo(c), sep) && Below(sep, Hi(c))
      && KeyBytes(c.keys) + InternalEntrySize(sep) == KeyBytes(p.keys)
      && Lo(c) == KidLo(p.keys, j, Lo(up)) && Hi(c) == KidHi(p.keys, j + 1, Hi(up))
  {
    var c, sep, lo, hi := PairCtx(up, p, j), p.keys[j], Lo(up), Hi(up);
    KidsWf(s, p, lo, hi, h + 1);
    KeysWithoutOk(s, p.keys, lo, hi, j);
    PairBounds(s, p.keys, lo, hi, j);
    PairCtxBounds(up, p, j);
    hide KeysOk, KeyBytes, InternalEntrySize, ValidKey, Wf, Above, Below;
    SidesWithout(s, p.keys, p.kids, lo, hi, h, j);
    hide SidesOk;
    assert Wf(s, p.kids[j], KidLo(p.keys, j, lo), KidHi(p.keys, j, hi), h);
    assert Wf(s, p.kids[j + 1], KidLo(p.keys, j + 1, lo), KidHi(p.keys, j + 1, hi), h);
  }

  lemma {:induction false} PairCtxBounds(up: Ctx, p: Tree, j: nat)
    requires p.NodeT? && |p.kids| == |p.keys| + 1 && j < |p.keys|
    ensures var c := PairCtx(up, p, j);
      Lo(c) == KidLo(p.keys, j, Lo(up)) && Hi(c) == KidHi(p.keys, j + 1, Hi(up))
  {
  }

  lemma {:induction false} PairBounds(s: Schema, keys: seq<Key>, lo: Option<Key>, hi: Option<Key>, j: nat)
    requires KeysOk(s, keys, lo, hi) && j < |keys|
    ensures ValidKey(s, keys[j]) && Above(KidLo(keys, j, lo), keys[j]) && Below(keys[j], KidHi(keys, j + 1, hi))
  {
    hide ValidKey, KeyBytes;
  }

  lemma {:induction false} SidesWithout(s: Schema, keys: seq<Key>, kids: seq<Tree>, lo: Option<Key>, hi: Option<Key>,
                                        h: nat, j: nat)
    requires |kids| == |keys| + 1 && j < |keys|
    requires forall i :: 0 <= i < |kids| ==> Wf(s, kids[i], KidLo(keys, i, lo), KidHi(keys, i, hi), h)
    ensures SidesOk(s, Without(keys, j), kids[..j], kids[j + 2..], lo, hi, h)
  {
    hide Wf;
    var keys' := Without(keys, j);
    forall i | 0 <= i < j
      ensures KidLo(keys', i, lo) == KidLo(keys, i, lo) && KidHi(keys', i, hi) == KidHi(keys, i, hi)
    {
    }
    var right := kids[j + 2..];
    forall i | 0 <= i < |right|
      ensures Wf(s, right[i], KidLo(keys', j + 1 + i, lo), KidHi(keys', j + 1 + i, hi), h)
    {
      assert KidLo(keys', j + 1 + i, lo) == KidLo(keys, j + 2 + i, lo)
        && KidHi(keys', j + 1 + i, hi) == KidHi(keys, j + 2 + i, hi);
      assert right[i] == kids[j + 2 + i];
    }
  }

  /** Sorted valid rows in [lo, hi), whatever they weigh. */
  ghost predicate RowsOk(s: Schema, rows: seq<Row>, lo: Option<Key>, hi: Option<Key>) {
    && Sorted(RecordKeys(rows))
    && (forall i :: 0 <= i < |rows| ==> ValidRow(s, rows[i]))
    && (forall i :: 0 <= i < |rows| ==> AtLeast(lo, RowKey(rows[i])) && Below(RowKey(rows[i]), hi))
  }

  lemma {:induction false} RowsJoin(s: Schema, a: seq<Row>, b: seq<Row>, lo: Option<Key>, sep: Key, hi: Option<Key>)
    requires RowsOk(s, a, lo, Some(sep)) && RowsOk(s, b, Some(sep), hi) && Above(lo, sep) && Below(sep, hi)
    ensures RowsOk(s, a + b, lo, hi)
  {
    hide ValidRow, RowKey;
    var w := a + b;
    assert RecordKeys(w) == RecordKeys(a) + RecordKeys(b);
    forall i, j | 0 <= i < j < |w|
      ensures KeyLess(RecordKeys(w)[i], RecordKeys(w)[j])
    {
      if i < |a| && |a| <= j {
        assert KeyLess(RowKey(a[i]), sep) && !KeyLess(RowKey(b[j - |a|]), sep);
      } else if j < |a| {
        assert KeyLess(RecordKeys(a)[i], RecordKeys(a)[j]);
      } else {
        assert KeyLess(RecordKeys(b)[i - |a|], RecordKeys(b)[j - |a|]);
      }
    }
    forall i | 0 <= i < |w|
      ensures ValidRow(s, w[i]) && AtLeast(lo, RowKey(w[i])) && Below(RowKey(w[i]), hi)
    {
      if i < |a| {
        assert KeyLess(RowKey(a[i]), sep);
      } else {
        assert !KeyLess(RowKey(b[i - |a|]), sep);
      }
    }
  }

  lemma {:induction false} RowsCut(s: Schema, w: seq<Row>, lo: Option<Key>, hi: Option<Key>, k: nat)
    requires RowsOk(s, w, lo, hi) && 0 < k < |w|
    ensures var sep := RowKey(w[k]);
      && RowsOk(s, w[..k], lo, Some(sep)) && RowsOk(s, w[k..], Some(sep), hi)
      && ValidKey(s, sep) && Above(lo, sep) && Below(sep, hi)
  {
    hide ValidRow, RowKey, ValidKey;
    var ks := RecordKeys(w);
    ValidRowKey(s, w[k]);
    assert RecordKeys(w[..k]) == ks[..k] && RecordKeys(w[k..]) == ks[k..];
    assert KeyLess(ks[0], ks[k]);
    forall i | 0 <= i < |w[k..]|
      ensures AtLeast(Some(ks[k]), RowKey(w[k..][i]))
    {
      assert i > 0 ==> KeyLess(ks[k], ks[k + i]);
    }
  }

  /** Sorted valid keys strictly inside (lo, hi), whatever they weigh. */
  ghost predicate KeysIn(s: Schema, keys: seq<Key>, lo: Option<Key>, hi: Option<Key>) {
    && Sorted(keys)
    && (forall i :: 0 <= i < |keys| ==> ValidKey(s, keys[i]))
    && (forall i :: 0 <= i < |keys| ==> Above(lo, keys[i]) && Below(keys[i], hi))
  }

  lemma {:induction false} KeysJoin(s: Schema, a: seq<Key>, b: seq<Key>, lo: Option<Key>, sep: Key, hi: Option<Key>)
    requires KeysIn(s, a, lo, Some(sep)) && KeysIn(s, b, Some(sep), hi) && ValidKey(s, sep) && Above(lo, sep)
    requires Below(sep, hi)
    ensures KeysIn(s, a + [sep] + b, lo, hi)
  {
    hide ValidKey;
    var w := a + [sep] + b;
    forall i, j | 0 <= i < j < |w|
      ensures KeyLess(w[i], w[j])
    {
      assert i < |a| ==> KeyLess(a[i], sep);
      assert |a| < j ==> KeyLess(sep, b[j - |a| - 1]);
    }
    forall i | 0 <= i < |w|
      ensures ValidKey(s, w[i]) && Above(lo, w[i]) && Below(w[i], hi)
    {
      assert i < |a| ==> KeyLess(a[i], sep);
      assert |a| < i ==> KeyLess(sep, b[i - |a| - 1]);
    }
  }

  lemma {:induction false} KeysCut(s: Schema, w: seq<Key>, lo: Option<Key>, hi: Option<Key>, k: nat)
    requires KeysIn(s, w, lo, hi) && k < |w|
    ensures KeysIn(s, w[..k], lo, Some(w[k])) && KeysIn(s, w[k + 1..], Some(w[k]), hi)
    ensures ValidKey(s, w[k]) && Above(lo, w[k]) && Below(w[k], hi)
  {
    hide ValidKey;
  }

  lemma {:induction false} KidsJoin(s: Schema, ka: seq<Key>, a: seq<Tree>, sep: Key, kb: seq<Key>, b: seq<Tree>,
                                    lo: Option<Key>, hi: Option<Key>, h: nat)
    requires |a| == |ka| + 1 && |b| == |kb| + 1
    requires KidsBut(s, ka, a, lo, Some(sep), h, -1) && KidsBut(s, kb, b, Some(sep), hi, h, -1)
    ensures KidsBut(s, ka + [sep] + kb, a + b, lo, hi, h, -1)
  {
    hide Wf;
    var keys, kids := ka + [sep] + kb, a + b;
    forall i | 0 <= i < |kids|
      ensures Wf(s, kids[i], KidLo(keys, i, lo), KidHi(keys, i, hi), h)
    {
      if i < |a| {
        assert kids[i] == a[i];
        assert KidLo(keys, i, lo) == KidLo(ka, i, lo) && KidHi(keys, i, hi) == KidHi(ka, i, Some(sep));
      } else {
        assert kids[i] == b[i - |a|];
        assert KidLo(keys, i, lo) == KidLo(kb, i - |a|, Some(sep)) && KidHi(keys, i, hi) == KidHi(kb, i - |a|, hi);
      }
    }
  }

  /** Two sound neighbours whose entries fit into one page make one sound tree. */
  lemma {:induction false} JoinWf(s: Schema, a: Tree, sep: Key, b: Tree, lo: Option<Key>, hi: Option<Key>, h: nat)
    requires Wf(s, a, lo, Some(sep), h) && Wf(s, b, Some(sep), hi, h) && ValidKey(s, sep) && Above(lo, sep)
    requires Below(sep, hi)
    requires a.LeafT? && b.LeafT? ==> LeafBytes(a.rows + b.rows) <= LEAF_USABLE
    requires a.NodeT? && b.NodeT? ==> KeyBytes(a.keys + [sep] + b.keys) <= INTERNAL_USABLE
    ensures Wf(s, Joined(a, sep, b), lo, hi, h) && (a.LeafT? <==> b.LeafT?)
  {
    hide LeafBytes, KeyBytes, ValidKey;
    if a.LeafT? {
      assert RowsOk(s, a.rows, lo, Some(sep)) && RowsOk(s, b.rows, Some(sep), hi);
      RowsJoin(s, a.rows, b.rows, lo, sep, hi);
    } else {
      assert KeysIn(s, a.keys, lo, Some(sep)) && KeysIn(s, b.keys, Some(sep), hi);
      KeysJoin(s, a.keys, b.keys, lo, sep, hi);
      KidsJoin(s, a.keys, a.kids, sep, b.keys, b.kids, lo, hi, h - 1);
      assert KeysOk(s, a.keys + [sep] + b.keys, lo, hi);
      KidsAllOk(s, a.id, a.keys + [sep] + b.keys, a.kids + b.kids, lo, hi, h - 1, -1);
    }
  }

  /** How many entries two neighbours have between them, the separator included for internal pages. */
  function JoinedCount(a: Tree, b: Tree): nat {
    match (a, b)
    case (LeafT(_, rows), LeafT(_, rows')) => |rows| + |rows'|
    case (NodeT(_, keys, _), NodeT(_, keys', _)) => |keys| + 1 + |keys'|
    case _ => 0
  }

  /** The joined entries of two neighbours cut at `k` instead. */
  function Recut(a: Tree, sep: Key, b: Tree, k: nat): (Tree, Key, Tree)
    requires k < JoinedCount(a, b)
    requires a.NodeT? ==> |a.kids| == |a.keys| + 1
    requires b.NodeT? ==> |b.kids| == |b.keys| + 1
  {
    match (a, b)
    case (LeafT(id, rows), LeafT(id', rows')) =>
      var w := rows + rows';
      (LeafT(id, w[..k]), RowKey(w[k]), LeafT(id', w[k..]))
    case (NodeT(id, keys, kids), NodeT(id', keys', kids')) =>
      var w, ks := keys + [sep] + keys', kids + kids';
      (NodeT(id, w[..k], ks[..k + 1]), w[k], NodeT(id', w[k + 1..], ks[k + 1..]))
  }

  predicate FitsTree(t: Tree) {
    match t
    case LeafT(_, rows) => LeafBytes(rows) <= LEAF_USABLE
    case NodeT(_, keys, _) => KeyBytes(keys) <= INTERNAL_USABLE
  }

  lemma {:induction false} WfNode(s: Schema, t: Tree, lo: Option<Key>, hi: Option<Key>, h: nat)
    requires Wf(s, t, lo, hi, h)
    ensures t.NodeT? ==>
      h > 0 && |t.kids| == |t.keys| + 1 && KeysIn(s, t.keys, lo, hi) && KidsBut(s, t.keys, t.kids, lo, hi, h - 1, -1)
    ensures t.LeafT? ==> h == 0 && RowsOk(s, t.rows, lo, hi)
    ensures FitsTree(t)
  {
  }

  /** Cutting the entries of two sound neighbours elsewhere gives two sound neighbours again, as long as
      both parts fit their pages. */
  lemma {:induction false} RecutWf(s: Schema, a: Tree, sep: Key, b: Tree, lo: Option<Key>, hi: Option<Key>, h: nat,
                                   k: nat)
    requires Wf(s, a, lo, Some(sep), h) && Wf(s, b, Some(sep), hi, h) && ValidKey(s, sep) && Above(lo, sep)
    requires Below(sep, hi)
    requires k < JoinedCount(a, b) && (a.LeafT? ==> 0 < k)
    ensures a.NodeT? ==> |a.kids| == |a.keys| + 1
    ensures b.NodeT? ==> |b.kids| == |b.keys| + 1
    ensures var (a', sep', b') := Recut(a, sep, b, k);
      FitsTree(a') && FitsTree(b') ==>
        && Wf(s, a', lo, Some(sep'), h) && Wf(s, b', Some(sep'), hi, h)
        && ValidKey(s, sep') && Above(lo, sep') && Below(sep', hi)
  {
    WfNode(s, a, lo, Some(sep), h);
    WfNode(s, b, Some(sep), hi, h);
    hide Wf, ValidKey, Above, Below, FitsTree;
    var (a', sep', b') := Recut(a, sep, b, k);
    if FitsTree(a') && FitsTree(b') {
      if a.LeafT? {
        RecutLeaves(s, a, sep, b, lo, hi, h, k);
      } else {
        RecutNodes(s, a, sep, b, lo, hi, h, k);
      }
    }
  }

  lemma {:induction false} RecutLeaves(s: Schema, a: Tree, sep: Key, b: Tree, lo: Option<Key>, hi: Option<Key>, h: nat,
                                       k: nat)
    requires a.LeafT? && b.LeafT? && Wf(s, a, lo, Some(sep), h) && Wf(s, b, Some(sep), hi, h) && ValidKey(s, sep)
    requires Above(lo, sep) && Below(sep, hi) && 0 < k < |a.rows + b.rows|
    requires FitsTree(Recut(a, sep, b, k).0) && FitsTree(Recut(a, sep, b, k).2)
    ensures var (a', sep', b') := Recut(a, sep, b, k);
      && Wf(s, a', lo, Some(sep'), h) && Wf(s, b', Some(sep'), hi, h)
      && ValidKey(s, sep') && Above(lo, sep') && Below(sep', hi)
  {
    WfNode(s, a, lo, Some(sep), h);
    WfNode(s, b, Some(sep), hi, h);
    hide LeafBytes, ValidKey, Wf, RowsOk, Above, Below, RowKey;
    var (a', sep', b') := Recut(a, sep, b, k);
    RowsJoin(s, a.rows, b.rows, lo, sep, hi);
    RowsCut(s, a.rows + b.rows, lo, hi, k);
    LeafWf(s, a', lo, Some(sep'), h);
    LeafWf(s, b', Some(sep'), hi, h);
  }

  lemma {:induction false} RecutNodes(s: Schema, a: Tree, sep: Key, b: Tree, lo: Option<Key>, hi: Option<Key>, h: nat,
                                      k: nat)
    requires a.NodeT? && b.NodeT? && Wf(s, a, lo, Some(sep), h) && Wf(s, b, Some(sep), hi, h) && ValidKey(s, sep)
    requires |a.kids| == |a.keys| + 1 && |b.kids| == |b.keys| + 1
    requires Above(lo, sep) && Below(sep, hi) && k < |a.keys + [sep] + b.keys|
    requires FitsTree(Recut(a, sep, b, k).0) && FitsTree(Recut(a, sep, b, k).2)
    ensures var (a', sep', b') := Recut(a, sep, b, k);
      && Wf(s, a', lo, Some(sep'), h) && Wf(s, b', Some(sep'), hi, h)
      && ValidKey(s, sep') && Above(lo, sep') && Below(sep', hi)
  {
    hide ValidKey, Wf, KidsBut, KeysIn, Above, Below, FitsTree, Recut;
    WfNode(s, a, lo, Some(sep), h);
    WfNode(s, b, Some(sep), hi, h);
    KeysJoin(s, a.keys, b.keys, lo, sep, hi);
    KidsJoin(s, a.keys, a.kids, sep, b.keys, b.kids, lo, hi, h - 1);
    RecutNode(a, sep, b, k);
    CutNode(s, a.keys + [sep] + b.keys, a.kids + b.kids, lo, hi, h, k, a.id, b.id);
  }

  lemma {:induction false} RecutNode(a: Tree, sep: Key, b: Tree, k: nat)
    requires a.NodeT? && b.NodeT? && |a.kids| == |a.keys| + 1 && |b.kids| == |b.keys| + 1
    requires k < |a.keys + [sep] + b.keys|
    ensures var w, ks := a.keys + [sep] + b.keys, a.kids + b.kids;
      Recut(a, sep, b, k) == (NodeT(a.id, w[..k], ks[..k + 1]), w[k], NodeT(b.id, w[k + 1..], ks[k + 1..]))
  {
  }

  /** The two halves of a page cut at key `k`. */
  lemma {:induction false} CutNode(s: Schema, w: seq<Key>, ks: seq<Tree>, lo: Option<Key>, hi: Option<Key>, h: nat,
                                   k: nat, id: PageId, id': PageId)
    requires |ks| == |w| + 1 && k < |w| && h > 0 && KeysIn(s, w, lo, hi) && KidsBut(s, w, ks, lo, hi, h - 1, -1)
    requires FitsTree(NodeT(id, w[..k], ks[..k + 1])) && FitsTree(NodeT(id', w[k + 1..], ks[k + 1..]))
    ensures Wf(s, NodeT(id, w[..k], ks[..k + 1]), lo, Some(w[k]), h)
    ensures Wf(s, NodeT(id', w[k + 1..], ks[k + 1..]), Some(w[k]), hi, h)
    ensures ValidKey(s, w[k]) && Above(lo, w[k]) && Below(w[k], hi)
  {
    hide KeyBytes, ValidKey, Wf, KidsBut, KeysIn, Above, Below;
    KeysCut(s, w, lo, hi, k);
    KidsPartOk(s, w, ks, lo, hi, h - 1, -1, k);
    NodeWfFrom(s, NodeT(id, w[..k], ks[..k + 1]), lo, Some(w[k]), h, -1);
    NodeWfFrom(s, NodeT(id', w[k + 1..], ks[k + 1..]), Some(w[k]), hi, h, -1 - k - 1);
  }

  lemma {:induction false} LeafWf(s: Schema, t: Tree, lo: Option<Key>, hi: Option<Key>, h: nat)
    requires t.LeafT? && h == 0 && RowsOk(s, t.rows, lo, hi) && FitsTree(t)
    ensures Wf(s, t, lo, hi, h)
  {
  }

  lemma {:induction false} NodeWfFrom(s: Schema, t: Tree, lo: Option<Key>, hi: Option<Key>, h: nat, i: int)
    requires t.NodeT? && h > 0 && |t.kids| == |t.keys| + 1 && KeysIn(s, t.keys, lo, hi) && FitsTree(t)
    requires KidsBut(s, t.keys, t.kids, lo, hi, h - 1, i) && i < 0
    ensures Wf(s, t, lo, hi, h)
  {
    hide KidsBut;
    KidsAllOk(s, t.id, t.keys, t.kids, lo, hi, h - 1, i);
  }
}

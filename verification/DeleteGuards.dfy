/** Simple guards under which a deletion goes through, whatever the keys. */
module DeleteGuards {
  import opened Common
  import opened Schemas
  import opened Pages
  import opened Trees
  import opened Focus
  import opened Inserts
  import opened InsertMethods
  import opened Joining
  import opened Recutting
  import opened Deleting
  import opened DeleteMethods

  /** Every page above the focus has room for one more key of the greatest size. */
  predicate RoomyAbove(c: Ctx) {
    c.Down? ==> SplitSafeKeys(c.keys) && RoomyAbove(c.up)
  }

  /** Every internal page on the way to `k` has room for one more key of the greatest size. */
  predicate RoomyPath(t: Tree, k: Key)
    decreases t
  {
    t.NodeT? ==>
      SplitSafeKeys(t.keys) && (FindChildIndex(t.keys, k) < |t.kids| ==>
          RoomyPath(t.kids[FindChildIndex(t.keys, k)], k))
  }

  /** The key that moves up is a valid one, so it is not too big. */
  lemma {:induction false} CutKeySmall(s: Schema, l: Tree, sep: Key, r: Tree, lo: Option<Key>, hi: Option<Key>, h: nat,
                                       k: nat)
    requires Wf(s, l, lo, Some(sep), h) && Wf(s, r, Some(sep), hi, h) && ValidKey(s, sep)
    ensures InternalEntrySize(CutKey(l, sep, r, k)) <= MAX_INTERNAL_ENTRY_SIZE
  {
    hide InternalEntrySize, KeyBytes, LeafBytes, RowKey, Sorted;
    if l.LeafT? && r.LeafT? && k < |l.rows + r.rows| {
      var row := (l.rows + r.rows)[k];
      assert ValidRow(s, row) by {
        if k >= |l.rows| {
          assert row == r.rows[k - |l.rows|];
        }
      }
    } else if l.NodeT? && r.NodeT? && k < |l.keys + [sep] + r.keys| {
      var key := (l.keys + [sep] + r.keys)[k];
      assert ValidKey(s, key) by {
        if k > |l.keys| {
          assert key == r.keys[k - |l.keys| - 1];
        }
      }
    }
  }

  /** The merged parent fills the surroundings of the pair with the joined child. */
  lemma {:induction false} MergedParentIs(up: Ctx, p: Tree, j: nat)
    requires p.NodeT? && |p.kids| == |p.keys| + 1 && j < |p.keys|
    ensures Enclosing(PairCtx(up, p, j), Joined(p.kids[j], p.keys[j], p.kids[j + 1])) == MergedParent(p, j)
  {
  }

  lemma {:induction false} NodeHasKeys(s: Schema, c: Ctx, h: nat)
    requires CtxWf(s, c, h) && c.Down? && KeyedCtx(c)
    ensures |c.left| + |c.right| == |c.keys| >= 1 && PairIndex(c) < |c.keys| && KeyedCtx(c.up) && CtxWf(s, c.up, h + 1)
  {
    hide Wf, KeysOk, SidesOk, Keyed;
  }

  /** Rebalancing upwards from anywhere below pages with room goes through. */
  lemma {:induction false} RoomyFits(s: Schema, c: Ctx, t: Tree, h: nat)
    requires CtxWf(s, c, h) && Wf(s, t, Lo(c), Hi(c), h) && KeyedCtx(c) && RoomyAbove(c)
    ensures RebalanceFits(c, t)
    decreases c
  {
    hide CtxWf, Wf, KeyedCtx, Lo, Hi, KidLo, KidHi, RebalanceFits, UnderfullTree, FitsJoined, KeyBytes;
    hide InternalEntrySize, ValidKey, Above, Below, TreeCut, CutKey, MergedParent, Joined, Without, LeafBytes;
    if c.Top? || !UnderfullTree(t) {
      FitsEnd(c, t);
    } else {
      NodeHasKeys(s, c, h);
      NodeWf(s, c, t, h);
      var p, j := Enclosing(c, t), PairIndex(c);
      var l, sep, r := p.kids[j], p.keys[j], p.kids[j + 1];
      PairWf(s, c.up, p, h, j);
      FitsStep(c, t);
      var around := PairCtx(c.up, p, j);
      if FitsJoined(l, sep, r) {
        JoinFits(l, sep, r);
        JoinWf(s, l, sep, r, Lo(around), Hi(around), h);
        NodeWf(s, around, Joined(l, sep, r), h);
        MergedParentIs(c.up, p, j);
        RoomyFits(s, c.up, MergedParent(p, j), h + 1);
      } else {
        CutKeySmall(s, l, sep, r, Lo(around), Hi(around), h, TreeCut(l, sep, r,
            if c.right != [] then OnRight else OnLeft));
      }
    }
  }

  lemma {:induction false} RoutedFits(s: Schema, c: Ctx, t: Tree, h: nat, k: Key)
    requires CtxWf(s, c, h) && Wf(s, t, Lo(c), Hi(c), h) && KeyedCtx(c) && Keyed(t) && RoomyAbove(c) && RoomyPath(t, k)
    ensures LeafDeleteFits(RoutedLeaf(c, t, k).0, RoutedLeaf(c, t, k).1, k)
    decreases t
  {
    hide CtxWf, Lo, Hi, KeyedCtx, Keyed, RebalanceFits, LeafOk, KeysOk, FindChildIndex, Search, SplitSafeKeys;
    hide LeafBytes;
    if t.LeafT? {
      match Search(RecordKeys(t.rows), k)
      case Miss(_) =>
      case Hit(i) =>
        LeafRemoveOk(s, t.rows, Lo(c), Hi(c), i);
        RoomyFits(s, c, LeafT(t.id, RowsWithout(t.rows, i)), h);
    } else {
      var i := FindChildIndex(t.keys, k);
      StepDown(s, c, t, h, i);
      KidKeyed(c, t, i);
      RoutedFits(s, KidCtx(c, t, i), t.kids[i], h - 1, k);
    }
  }

  /** If every internal page on the way to the key has room for a key of the greatest size, the deletion
      succeeds with any keys. */
  lemma {:induction false} RoomyDeleteFits(s: Schema, t: Tree, h: nat, k: Key)
    requires Wf(s, t, None, None, h) && Keyed(t) && RoomyPath(t, k)
    ensures DeleteFits(t, k)
  {
    hide Wf, Keyed, RoomyPath, LeafDeleteFits, RoutedLeaf;
    RoutedFits(s, Top, t, h, k);
  }
}

/** Where bulk borrowing stops: `bulk_borrow_from_right` and `bulk_borrow_from_left` (`src/page/mod.rs`).
    Two neighbouring pages are one list of entries cut in two. In a leaf pair the cut lies between two
    rows (`g` = 0); in an internal pair the entry at the cut is the separator above (`g` = 1). */
module Balancing {
  import opened Common
  import opened Schemas
  import opened Pages

  /** The first cut from `k` on at which the left part weighs no less than the right part. */
  function BalanceUp(sizes: seq<nat>, g: nat, k: nat): (at: nat)
    requires k + g <= |sizes|
    ensures k <= at && at + g <= |sizes|
    ensures Sum(sizes[..at]) >= Sum(sizes[at + g..])
    ensures forall i :: k <= i < at ==> Sum(sizes[..i]) < Sum(sizes[i + g..])
    decreases |sizes| - k
  {
    assert k + g == |sizes| ==> sizes[k + g..] == [];
    if Sum(sizes[..k]) < Sum(sizes[k + g..]) then BalanceUp(sizes, g, k + 1) else k
  }

  /** The first cut from `k` down at which the right part weighs no less than the left part. */
  function BalanceDown(sizes: seq<nat>, g: nat, k: nat): (at: nat)
    requires k + g <= |sizes|
    ensures at <= k
    ensures Sum(sizes[at + g..]) >= Sum(sizes[..at])
    ensures forall i :: at < i <= k ==> Sum(sizes[i + g..]) < Sum(sizes[..i])
    decreases k
  {
    assert k == 0 ==> sizes[..k] == [];
    if Sum(sizes[k + g..]) < Sum(sizes[..k]) then BalanceDown(sizes, g, k - 1) else k
  }

  lemma {:induction false} CutSum(sizes: seq<nat>, g: nat, k: nat)
    requires g <= 1 && k + g <= |sizes|
    ensures Sum(sizes[..k]) + (if g == 1 then sizes[k] else 0) + Sum(sizes[k + g..]) == Sum(sizes)
  {
    hide Sum;
    SumSplit(sizes, k);
    if g == 1 {
      PrefixStep(sizes, k);
      SumSplit(sizes, k + 1);
    }
  }

  lemma {:induction false} NonEmptyWhenHeavy(sizes: seq<nat>, max: nat, n: nat)
    requires forall i :: 0 <= i < |sizes| ==> sizes[i] <= max
    requires n * max < Sum(sizes)
    ensures n < |sizes|
  {
    SumAtMost(sizes, max);
    assert |sizes| <= n ==> |sizes| * max <= n * max;
  }

  /** The weights of a leaf pair that cannot merge: while the receiver (either side) is lighter than the
      donor, the donor has three rows or more and the receiver has room for any row. */
  lemma {:induction false} LeafBorrowRoom(sizes: seq<nat>, recv: seq<nat>, donor: seq<nat>)
    requires forall i :: 0 <= i < |donor| ==> donor[i] <= MAX_LEAF_ENTRY_SIZE
    requires LEAF_USABLE < Sum(sizes) <= LEAF_UNDERFULL_BYTES - 1 + LEAF_USABLE
    requires Sum(recv) + Sum(donor) == Sum(sizes) && Sum(recv) < Sum(donor)
    ensures 3 <= |donor| && Sum(recv) + MAX_LEAF_ENTRY_SIZE <= LEAF_USABLE
  {
    hide Sum;
    NonEmptyWhenHeavy(donor, MAX_LEAF_ENTRY_SIZE, 2);
  }

  /** The same for an internal pair with separator weight `s` between. */
  lemma {:induction false} InternalBorrowRoom(total: nat, recv: nat, s: nat, donor: seq<nat>)
    requires forall i :: 0 <= i < |donor| ==> donor[i] <= MAX_INTERNAL_ENTRY_SIZE
    requires s <= MAX_INTERNAL_ENTRY_SIZE
    requires INTERNAL_USABLE < total <= INTERNAL_UNDERFULL_BYTES - 1 + MAX_INTERNAL_ENTRY_SIZE + INTERNAL_USABLE
    requires recv + s + Sum(donor) == total && recv < Sum(donor)
    ensures 2 <= |donor| && recv + s <= INTERNAL_USABLE
  {
    hide Sum;
    NonEmptyWhenHeavy(donor, MAX_INTERNAL_ENTRY_SIZE, 1);
  }
}

/** Choosing a frame to evict: `src/bpm/eviction.rs`, `src/bpm/frame.rs`. */
module Eviction {
  import opened Common
  import opened Pages

  datatype Frame = Frame(page: Option<Page>, pins: nat, dirty: bool, referenced: bool)

  predicate Pinned(f: Frame) { f.pins != 0 }

  /** What the first sweep looks for. */
  predicate Idle(f: Frame) { f.pins == 0 && !f.referenced && !f.dirty }

  // ------------------------------------------------------------------------ clock order

  /** The `k`-th frame in clock order from `hand`, for `k` up to a full turn. */
  function At(hand: nat, k: nat, n: nat): (id: nat)
    ensures hand < n && k <= n ==> id < n
  {
    if hand + k < n then hand + k else hand + k - n
  }

  lemma {:induction false} AtStep(hand: nat, k: nat, n: nat)
    requires hand < n && k < n
    ensures At(hand, k + 1, n) == (At(hand, k, n) + 1) % n
    ensures At(hand, n, n) == hand && At(hand, 0, n) == hand
  {
    if At(hand, k, n) + 1 == n {
      assert n % n == 0;
    } else {
      assert (At(hand, k, n) + 1) % n == At(hand, k, n) + 1;
    }
  }

  /** A full turn visits no frame twice. */
  lemma {:induction false} AtInjective(hand: nat, j: nat, k: nat, n: nat)
    requires hand < n && j < k < n
    ensures At(hand, j, n) != At(hand, k, n)
  {
  }

  /** A full turn visits every frame. */
  lemma {:induction false} AtOnto(hand: nat, f: nat, n: nat) returns (k: nat)
    requires hand < n && f < n
    ensures k < n && At(hand, k, n) == f
  {
    k := if hand <= f then f - hand else f + n - hand;
  }

  /** Frame `f` comes up within the first `i` steps from `hand`. */
  ghost predicate Swept(hand: nat, i: nat, n: nat, f: nat) {
    exists k :: 0 <= k < i && At(hand, k, n) == f
  }

  /** The frames after a sweep of `i` steps: reference bits of unpinned frames passed are cleared, and
      nothing else has changed. */
  ghost predicate SweptTo(before: seq<Frame>, after: seq<Frame>, hand: nat, i: nat) {
    && |after| == |before| > 0
    && forall f :: 0 <= f < |before| ==>
         after[f] == if Swept(hand, i, |before|, f)
           && !Pinned(before[f]) then before[f].(referenced := false) else before[f]
  }

  lemma {:induction false} SweepStart(before: seq<Frame>, hand: nat)
    requires |before| > 0
    ensures SweptTo(before, before, hand, 0)
  {
  }

  lemma {:induction false} SweepStep(before: seq<Frame>, after: seq<Frame>, hand: nat, i: nat, after': seq<Frame>)
    requires SweptTo(before, after, hand, i) && hand < |before| && i < |before|
    requires var id := At(hand, i, |before|);
      after' == after[id := if Pinned(after[id]) then after[id] else after[id].(referenced := false)]
    ensures SweptTo(before, after', hand, i + 1)
    ensures after[At(hand, i, |before|)] == before[At(hand, i, |before|)]
  {
    var n := |before|;
    var id := At(hand, i, n);
    assert !Swept(hand, i, n, id) by {
      if k :| 0 <= k < i && At(hand, k, n) == id {
        AtInjective(hand, k, i, n);
      }
    }
    forall f | 0 <= f < n
      ensures Swept(hand, i + 1, n, f) <==> Swept(hand, i, n, f) || f == id
    {
      if f == id {
        assert At(hand, i, n) == f;
      }
      if Swept(hand, i + 1, n, f) {
        var k :| 0 <= k < i + 1 && At(hand, k, n) == f;
      }
    }
  }

  /** Frames that differ at most in their reference bits. */
  ghost predicate SameButBits(a: seq<Frame>, b: seq<Frame>) {
    |a| == |b| && forall f :: 0 <= f < |a| ==> b[f] == a[f].(referenced := b[f].referenced)
  }

  lemma {:induction false} SweptSame(before: seq<Frame>, after: seq<Frame>, hand: nat, i: nat)
    requires SweptTo(before, after, hand, i)
    ensures SameButBits(before, after)
  {
  }

  /** After a full turn no unpinned frame is marked as referenced. */
  lemma {:induction false} FullSweep(before: seq<Frame>, after: seq<Frame>, hand: nat)
    requires SweptTo(before, after, hand, |before|) && hand < |before|
    ensures forall f :: 0 <= f < |after| ==> Pinned(after[f]) || !after[f].referenced
  {
    forall f | 0 <= f < |after|
      ensures Pinned(after[f]) || !after[f].referenced
    {
      var k := AtOnto(hand, f, |before|);
      assert Swept(hand, |before|, |before|, f);
    }
  }

  // ---------------------------------------------------------------------------- victims

  /** `k` is the first step from `hand` whose frame satisfies `p`. */
  ghost predicate First(frames: seq<Frame>, hand: nat, k: nat, p: Frame -> bool) {
    && hand < |frames| && k < |frames| && p(frames[At(hand, k, |frames|)])
    && forall j :: 0 <= j < k ==> !p(frames[At(hand, j, |frames|)])
  }

  ghost predicate Nowhere(frames: seq<Frame>, hand: nat, p: Frame -> bool) {
    hand < |frames| && forall j :: 0 <= j < |frames| ==> !p(frames[At(hand, j, |frames|)])
  }

  lemma {:induction false} NowhereAll(frames: seq<Frame>, hand: nat, p: Frame -> bool)
    requires hand < |frames| && Nowhere(frames, hand, p)
    ensures forall f :: 0 <= f < |frames| ==> !p(frames[f])
  {
    forall f | 0 <= f < |frames|
      ensures !p(frames[f])
    {
      var k := AtOnto(hand, f, |frames|);
    }
  }

  /** What a turn of the clock takes: an unpinned frame that is not marked, and not dirty unless dirty
      frames are wanted too. */
  function Wanted(dirtyToo: bool): Frame -> bool {
    (f: Frame) => f.pins == 0 && !f.referenced && (dirtyToo || !f.dirty)
  }

  function Unpinned(): Frame -> bool {
    (f: Frame) => !Pinned(f)
  }

  /** The victim at step `k`: the first idle frame, or the first unpinned one if none is idle. */
  ghost predicate VictimAt(frames: seq<Frame>, hand: nat, k: nat) {
    if Nowhere(frames, hand, Idle) then First(frames, hand, k, Unpinned()) else First(frames, hand, k, Idle)
  }

  /** `v` is the frame to evict. */
  ghost predicate IsVictim(frames: seq<Frame>, hand: nat, v: nat) {
    exists k: nat :: VictimAt(frames, hand, k) && At(hand, k, |frames|) == v
  }

  /** There is at most one. */
  lemma {:induction false} VictimUnique(frames: seq<Frame>, hand: nat, v: nat, v': nat)
    requires IsVictim(frames, hand, v) && IsVictim(frames, hand, v')
    ensures v == v'
  {
    var k: nat :| VictimAt(frames, hand, k) && At(hand, k, |frames|) == v;
    var k': nat :| VictimAt(frames, hand, k') && At(hand, k', |frames|) == v';
    hide At;
    if k != k' {
      var p := if Nowhere(frames, hand, Idle) then Unpinned() else Idle;
      assert First(frames, hand, k, p) && First(frames, hand, k', p);
    }
  }

  /** After a full turn the marks are gone, so the next turn takes the first unpinned frame. */
  lemma {:induction false} SecondTurn(before: seq<Frame>, mid: seq<Frame>, after: seq<Frame>, hand: nat, i: nat)
    requires hand < |before| && i <= |before| && SweptTo(before, mid, hand, |before|) && SweptTo(mid, after, hand, i)
    ensures after == mid
    ensures forall f :: 0 <= f < |before| ==> (Wanted(true)(mid[f]) <==> Unpinned()(before[f]))
  {
    FullSweep(before, mid, hand);
    SweptSame(before, mid, hand, |before|);
    hide Swept;
  }

  class ClockEvictor {
    var hand: nat

    constructor ()
      ensures hand == 0
    {
      hand := 0;
    }

    /** One turn of the clock: stops behind the first wanted frame, and clears the marks of the unpinned
        frames on the way. */
    method Turn(frames: array<Frame>, dirtyToo: bool) returns (victim: Option<nat>)
      requires hand < frames.Length
      modifies this, frames
      ensures hand < frames.Length && frames.Length > 0
      ensures victim.None? ==>
        && Nowhere(old(frames[..]), old(hand), Wanted(dirtyToo)) && hand == old(hand)
        && SweptTo(old(frames[..]), frames[..], old(hand), frames.Length)
      ensures victim.Some? ==>
        exists k: nat :: First(old(frames[..]), old(hand), k, Wanted(dirtyToo))
          && victim.value == At(old(hand), k, frames.Length)
          && hand == At(old(hand), k + 1, frames.Length) && SweptTo(old(frames[..]), frames[..], old(hand), k + 1)
    {
      hide At, SweptTo;
      ghost var before, start, n := frames[..], hand, frames.Length;
      SweepStart(before, start);
      AtStep(start, 0, n);
      for i := 0 to frames.Length
        invariant hand == At(start, i, n) && hand < n
        invariant SweptTo(before, frames[..], start, i)
        invariant forall j :: 0 <= j < i ==> !Wanted(dirtyToo)(before[At(start, j, n)])
      {
        var id := hand;
        AtStep(start, i, n);
        hand := (hand + 1) % frames.Length;
        ghost var now := frames[..];
        SweepStep(before, now, start, i, now[id := if Pinned(now[id]) then now[id] else now[id].(referenced := false)]);
        assert frames[id] == before[id];
        if Pinned(frames[id]) {
          assert frames[..] == now[id := now[id]];
        } else {
          var referenced := frames[id].referenced;
          frames[id] := frames[id].(referenced := false);
          assert frames[..] == now[id := now[id].(referenced := false)];
          if !referenced && (dirtyToo || !frames[id].dirty) {
            assert First(before, start, i, Wanted(dirtyToo));
            return Some(id);
          }
        }
      }
      return None;
    }

    /** Two turns of the clock, the second one for dirty frames too. The victim is the first frame that is
        unpinned, unreferenced and clean; if there is none, the first that is unpinned; if there is none of
        those either, there is no victim. The hand stops behind the victim, and the reference bits of the
        unpinned frames it passed are cleared. */
    method FindVictim(frames: array<Frame>) returns (victim: Option<nat>)
      requires hand < frames.Length
      modifies this, frames
      ensures hand < frames.Length
      ensures SameButBits(old(frames[..]), frames[..])
      ensures victim.None? <==> forall f :: 0 <= f < frames.Length ==> Pinned(old(frames[f]))
      ensures victim.Some? ==> victim.value < frames.Length && !Pinned(frames[victim.value])
      ensures victim.None? ==> frames[..] == old(frames[..]) && hand == old(hand)
      ensures victim.Some? ==> IsVictim(old(frames[..]), old(hand), victim.value)
      ensures victim.Some? ==>
        exists k: nat :: VictimAt(old(frames[..]), old(hand), k) && victim.value == At(old(hand), k, frames.Length)
          && hand == At(old(hand), k + 1, frames.Length)
          && SweptTo(old(frames[..]), frames[..], old(hand),
                     if Nowhere(old(frames[..]), old(hand), Idle) then frames.Length else k + 1)
    {
      hide At, SweptTo, First, Nowhere, VictimAt, Wanted;
      ghost var before, start, n := frames[..], hand, frames.Length;
      victim := Turn(frames, false);
      if victim.Some? {
        ghost var k: nat :| First(before, start, k, Wanted(false)) && victim.value == At(start, k, n)
          && hand == At(start, k + 1, n) && SweptTo(before, frames[..], start, k + 1);
        SweptSame(before, frames[..], start, k + 1);
        FirstBelow(before, start, k, Wanted(false));
        FirstIdle(before, start, k);
        return;
      }
      ghost var mid := frames[..];
      NoneIdle(before, start);
      victim := Turn(frames, true);
      SweptSame(before, mid, start, n);
      if victim.Some? {
        ghost var k: nat :| First(mid, start, k, Wanted(true)) && victim.value == At(start, k, n)
          && hand == At(start, k + 1, n) && SweptTo(mid, frames[..], start, k + 1);
        FirstBelow(mid, start, k, Wanted(true));
        SecondTurn(before, mid, frames[..], start, k + 1);
        FirstUnpinned(before, mid, start, k);
      } else {
        SecondTurn(before, mid, frames[..], start, n);
        NowhereAll(mid, start, Wanted(true));
        AllPinned(before, mid, start, n);
      }
    }
  }

  lemma {:induction false} FirstBelow(frames: seq<Frame>, hand: nat, k: nat, p: Frame -> bool)
    requires First(frames, hand, k, p)
    ensures k < |frames| && At(hand, k, |frames|) < |frames|
  {
  }

  /** An idle frame is a wanted one when dirty frames are not. */
  lemma {:induction false} FirstIdle(frames: seq<Frame>, hand: nat, k: nat)
    requires First(frames, hand, k, Wanted(false))
    ensures VictimAt(frames, hand, k) && !Nowhere(frames, hand, Idle) && !Pinned(frames[At(hand, k, |frames|)])
  {
    hide At;
    assert First(frames, hand, k, Idle);
  }

  lemma {:induction false} NoneIdle(frames: seq<Frame>, hand: nat)
    requires Nowhere(frames, hand, Wanted(false))
    ensures Nowhere(frames, hand, Idle)
  {
    hide At;
  }

  lemma {:induction false} FirstUnpinned(before: seq<Frame>, mid: seq<Frame>, hand: nat, k: nat)
    requires First(mid, hand, k, Wanted(true)) && |mid| == |before| && Nowhere(before, hand, Idle)
    requires forall f :: 0 <= f < |before| ==> (Wanted(true)(mid[f]) <==> Unpinned()(before[f]))
    ensures VictimAt(before, hand, k) && !Pinned(before[At(hand, k, |before|)])
  {
    assert At(hand, k, |before|) < |before|;
    assert forall j :: 0 <= j < k ==> At(hand, j, |before|) < |before|;
    hide At;
  }

  lemma {:induction false} AllPinned(before: seq<Frame>, mid: seq<Frame>, hand: nat, i: nat)
    requires SweptTo(before, mid, hand, i) && forall f :: 0 <= f < |mid| ==> !Wanted(true)(mid[f])
    requires forall f :: 0 <= f < |before| ==> (Wanted(true)(mid[f]) <==> Unpinned()(before[f]))
    ensures mid == before && forall f :: 0 <= f < |before| ==> Pinned(before[f])
  {
    hide Swept;
  }

  /** Round robin: the first unpinned frame. */
  class Replacer {
    var hand: nat

    constructor ()
      ensures hand == 0
    {
      hand := 0;
    }

    method FindVictim(frames: array<Frame>) returns (victim: Option<nat>)
      requires hand < frames.Length
      modifies this
      ensures hand < frames.Length
      ensures victim.None? <==> forall f :: 0 <= f < frames.Length ==> Pinned(frames[f])
      ensures victim.Some? ==>
        exists k :: 0 <= k < frames.Length && victim.value == At(old(hand), k, frames.Length)
          && hand == At(old(hand), k + 1, frames.Length)
          && First(frames[..], old(hand), k, f => !Pinned(f))
    {
      hide At;
      ghost var start, n := hand, frames.Length;
      AtStep(start, 0, n);
      for i := 0 to frames.Length
        invariant hand == At(start, i, n) && hand < n
        invariant forall j :: 0 <= j < i ==> Pinned(frames[At(start, j, n)])
      {
        var id := hand;
        AtStep(start, i, n);
        hand := (hand + 1) % frames.Length;
        if !Pinned(frames[id]) {
          assert First(frames[..], start, i, f => !Pinned(f));
          return Some(id);
        }
      }
      NowhereAll(frames[..], start, f => !Pinned(f));
      return None;
    }
  }
}

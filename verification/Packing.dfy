/** Packing a list of entries greedily into pages, and levels of a tree built that way: the bulk load
    of `src/table/mod.rs`. */
module Packing {
  import opened Common
  import opened Schemas
  import opened Pages
  import opened Trees

  // ----------------------------------------------------------------- where pages begin

  predicate Increasing(cuts: seq<nat>) {
    forall g, g' :: 0 <= g < g' < |cuts| ==> cuts[g] < cuts[g']
  }

  /** Where the pages begin, from the one that starts at `a` on, when entries `a` to `i - 1` are in it.
      The first `gap` entries of a page take no room. */
  function Cuts(z: seq<nat>, budget: nat, gap: nat, a: nat, i: nat): (cuts: seq<nat>)
    requires gap <= 1 && a < i <= |z|
    ensures cuts != [] && cuts[0] == a
    ensures forall g :: 0 <= g < |cuts| ==> a <= cuts[g] < |z|
    ensures Increasing(cuts)
    decreases |z| - i
  {
    if i == |z| then [a]
    else if Sum(z[a + gap..i]) + z[i] <= budget then Cuts(z, budget, gap, a, i + 1)
    else [a] + Cuts(z, budget, gap, i, i + 1)
  }

  /** Page starts in a list of `n` entries. */
  predicate CutsOf(cuts: seq<nat>, n: nat) {
    cuts != [] && Increasing(cuts) && forall g :: 0 <= g < |cuts| ==> cuts[g] < n
  }

  /** Where page `g` ends. */
  function CutEndAt(cuts: seq<nat>, g: nat, n: nat): (e: nat)
    requires CutsOf(cuts, n) && g < |cuts|
    ensures cuts[g] < e <= n
  {
    if g + 1 < |cuts| then cuts[g + 1] else n
  }

  function LeafCuts(rows: seq<Row>): (cuts: seq<nat>)
    requires rows != []
    ensures CutsOf(cuts, |rows|) && cuts[0] == 0
  {
    Cuts(RowSizes(rows), LEAF_USABLE, 0, 0, 1)
  }

  function KeyCuts(lows: seq<Key>): (cuts: seq<nat>)
    requires lows != []
    ensures CutsOf(cuts, |lows|) && cuts[0] == 0
  {
    Cuts(KeySizes(lows), INTERNAL_USABLE, 1, 0, 1)
  }

  function Pick(lows: seq<Key>, cuts: seq<nat>): (ks: seq<Key>)
    requires forall g :: 0 <= g < |cuts| ==> cuts[g] < |lows|
    ensures |ks| == |cuts|
    ensures forall g :: 0 <= g < |ks| ==> ks[g] == lows[cuts[g]]
  {
    seq(|cuts|, g requires 0 <= g < |cuts| => lows[cuts[g]])
  }

  /** The lowest keys of the next level up. */
  function UpLows(lows: seq<Key>): seq<Key>
    requires lows != []
  {
    Pick(lows, KeyCuts(lows))
  }

  predicate SmallKeys(lows: seq<Key>) {
    forall i :: 0 <= i < |lows| ==> InternalEntrySize(lows[i]) <= MAX_INTERNAL_ENTRY_SIZE
  }

  /** Every page but the last takes at least two entries, because a second one always fits. */
  lemma {:induction false} CutsInPairs(z: seq<nat>, budget: nat, a: nat, i: nat)
    requires a < i <= |z| && forall j :: 0 <= j < |z| ==> z[j] <= budget
    ensures a + 2 * (|Cuts(z, budget, 1, a, i)| - 1) < |z|
    decreases |z| - i
  {
    if i < |z| {
      if Sum(z[a + 1..i]) + z[i] <= budget {
        CutsInPairs(z, budget, a, i + 1);
      } else {
        assert z[a + 1..a + 1] == [];
        CutsInPairs(z, budget, i, i + 1);
      }
    }
  }

  /** The level loop terminates: each level of two or more is strictly shorter than the one below. */
  lemma {:induction false} UpShrinks(lows: seq<Key>)
    requires |lows| >= 2 && SmallKeys(lows)
    ensures |UpLows(lows)| < |lows| && SmallKeys(UpLows(lows)) && UpLows(lows) != []
  {
    hide Cuts;
    CutsInPairs(KeySizes(lows), INTERNAL_USABLE, 0, 1);
  }

  /** Every page of every level above gets a key: no level's last page starts with the last entry. */
  predicate LevelsKeyed(lows: seq<Key>)
    requires SmallKeys(lows)
    decreases |lows|
  {
    |lows| >= 2 ==>
      var cuts := KeyCuts(lows);
      UpShrinks(lows);
      cuts[|cuts| - 1] + 1 < |lows| && LevelsKeyed(UpLows(lows))
  }

  /** The leaves of a bulk load, numbered from 1. */
  function LeafTrees(table: nat, rows: seq<Row>, cuts: seq<nat>): (ts: seq<Tree>)
    requires CutsOf(cuts, |rows|)
    ensures |ts| == |cuts|
  {
    seq(|cuts|, g requires 0 <= g < |cuts| => LeafT(PageId(table, g + 1), rows[cuts[g]..CutEndAt(cuts, g, |rows|)]))
  }

  /** One level of internal pages over another, numbered from `n`. */
  function NodeTrees(table: nat, n: nat, lows: seq<Key>, ts: seq<Tree>, cuts: seq<nat>): (us: seq<Tree>)
    requires |lows| == |ts| && CutsOf(cuts, |lows|)
    ensures |us| == |cuts|
  {
    seq(|cuts|, g requires 0 <= g < |cuts| =>
      NodeT(PageId(table, n + g), lows[cuts[g] + 1..CutEndAt(cuts, g, |lows|)], ts[cuts[g]..CutEndAt(cuts, g, |lows|)]))
  }

  /** All levels above `ts`. */
  function LoadFrom(table: nat, n: nat, lows: seq<Key>, ts: seq<Tree>): Tree
    requires |lows| == |ts| >= 1 && SmallKeys(lows)
    decreases |lows|
  {
    if |lows| == 1 then ts[0]
    else
      UpShrinks(lows);
      LoadFrom(table, n + |KeyCuts(lows)|, UpLows(lows), NodeTrees(table, n, lows, ts, KeyCuts(lows)))
  }

  /** The tree that a bulk load of these rows builds. */
  function LoadTree(table: nat, rows: seq<Row>): Tree
    requires rows != [] && SmallKeys(RecordKeys(rows))
  {
    var cuts := LeafCuts(rows);
    LoadFrom(table, 1 + |cuts|, Pick(RecordKeys(rows), cuts), LeafTrees(table, rows, cuts))
  }

  /** Whether bulk loading these rows gives every internal page at least one key. */
  predicate LoadKeyed(rows: seq<Row>)
    requires rows != [] && SmallKeys(RecordKeys(rows))
  {
    LevelsKeyed(Pick(RecordKeys(rows), LeafCuts(rows)))
  }

  // ------------------------------------------------------------------------- levels

  function LowAt(lows: seq<Key>, i: nat): Option<Key>
    requires i < |lows|
  {
    if i == 0 then None else Some(lows[i])
  }

  function HighAt(lows: seq<Key>, i: nat): Option<Key>
    requires i < |lows|
  {
    if i + 1 == |lows| then None else Some(lows[i + 1])
  }

  ghost predicate LowsOk(s: Schema, lows: seq<Key>) {
    Sorted(lows) && lows != [] && forall i :: 0 <= i < |lows| ==> ValidKey(s, lows[i])
  }

  /** Neighbouring trees, each between its own lowest key and the next one's. */
  ghost predicate LevelWf(s: Schema, lows: seq<Key>, ts: seq<Tree>, h: nat) {
    && |lows| == |ts|
    && forall i :: 0 <= i < |ts| ==> Wf(s, ts[i], LowAt(lows, i), HighAt(lows, i), h)
  }

  /** All but the last of a level, whose lowest key is known already. */
  ghost predicate BuiltWf(s: Schema, lows: seq<Key>, us: seq<Tree>, h: nat) {
    && |lows| == |us| + 1
    && forall g :: 0 <= g < |us| ==> Wf(s, us[g], LowAt(lows, g), Some(lows[g + 1]), h)
  }

  lemma {:induction false} PickSorted(s: Schema, lows: seq<Key>, cuts: seq<nat>)
    requires LowsOk(s, lows) && cuts != [] && Increasing(cuts) && forall g :: 0 <= g < |cuts| ==> cuts[g] < |lows|
    ensures LowsOk(s, Pick(lows, cuts))
  {
    hide ValidKey;
    var ks := Pick(lows, cuts);
    forall g, g' | 0 <= g < g' < |ks|
      ensures KeyLess(ks[g], ks[g'])
    {
      assert cuts[g] < cuts[g'];
    }
  }

  /** One page over children `a` to `i - 1` of a level. */
  lemma {:induction false} GroupWf(s: Schema, lows: seq<Key>, ts: seq<Tree>, h: nat, a: nat, i: nat, id: PageId)
    requires LowsOk(s, lows) && LevelWf(s, lows, ts, h) && a < i <= |lows|
    requires KeyBytes(lows[a + 1..i]) <= INTERNAL_USABLE
    ensures Wf(s, NodeT(id, lows[a + 1..i], ts[a..i]), LowAt(lows, a), HighAt(lows, i - 1), h + 1)
  {
    hide KeyBytes, ValidKey;
    var keys, kids := lows[a + 1..i], ts[a..i];
    var lo, hi := LowAt(lows, a), HighAt(lows, i - 1);
    assert KeysOk(s, keys, lo, hi) by {
      hide Wf;
      forall j | 0 <= j < |keys|
        ensures Above(lo, keys[j]) && Below(keys[j], hi) && ValidKey(s, keys[j])
      {
        assert keys[j] == lows[a + 1 + j];
        assert KeyLess(lows[a], lows[a + 1 + j]);
        if i < |lows| {
          assert KeyLess(lows[a + 1 + j], lows[i]);
        }
      }
      forall j, j' | 0 <= j < j' < |keys|
        ensures KeyLess(keys[j], keys[j'])
      {
        assert KeyLess(lows[a + 1 + j], lows[a + 1 + j']);
      }
    }
    forall j | 0 <= j < |kids|
      ensures Wf(s, kids[j], KidLo(keys, j, lo), KidHi(keys, j, hi), h)
    {
      hide Wf;
      assert kids[j] == ts[a + j];
      assert Wf(s, ts[a + j], LowAt(lows, a + j), HighAt(lows, a + j), h);
    }
  }

  /** One leaf with rows `a` to `i - 1` of a sorted list. */
  lemma {:induction false} LeafGroupWf(s: Schema, rows: seq<Row>, a: nat, i: nat, id: PageId)
    requires Sorted(RecordKeys(rows)) && a < i <= |rows| && (forall j :: 0 <= j < |rows| ==> ValidRow(s, rows[j]))
    requires LeafBytes(rows[a..i]) <= LEAF_USABLE
    ensures Wf(s, LeafT(id, rows[a..i]), LowAt(RecordKeys(rows), a), HighAt(RecordKeys(rows), i - 1), 0)
  {
    hide LeafBytes, ValidRow, RowKey;
    var part, ks := rows[a..i], RecordKeys(rows);
    forall j | 0 <= j < |part|
      ensures ValidRow(s, part[j]) && AtLeast(LowAt(ks, a), RowKey(part[j]))
      ensures Below(RowKey(part[j]), HighAt(ks, i - 1))
    {
      assert part[j] == rows[a + j];
      if j > 0 {
        assert KeyLess(ks[a], ks[a + j]);
      }
      if i < |rows| {
        assert KeyLess(ks[a + j], ks[i]);
      }
    }
    forall j, j' | 0 <= j < j' < |part|
      ensures KeyLess(RecordKeys(part)[j], RecordKeys(part)[j'])
    {
      assert KeyLess(ks[a + j], ks[a + j']);
    }
  }

  lemma {:induction false} BuiltNext(s: Schema, lows: seq<Key>, us: seq<Tree>, h: nat, u: Tree, low: Key)
    requires BuiltWf(s, lows, us, h) && Wf(s, u, LowAt(lows, |us|), Some(low), h)
    ensures BuiltWf(s, lows + [low], us + [u], h)
  {
    hide Wf;
    var lows', us' := lows + [low], us + [u];
    forall g | 0 <= g < |us'|
      ensures Wf(s, us'[g], LowAt(lows', g), Some(lows'[g + 1]), h)
    {
      if g < |us| {
        assert Wf(s, us[g], LowAt(lows, g), Some(lows[g + 1]), h);
      }
    }
  }

  lemma {:induction false} BuiltLast(s: Schema, lows: seq<Key>, us: seq<Tree>, h: nat, u: Tree)
    requires BuiltWf(s, lows, us, h) && Wf(s, u, LowAt(lows, |us|), None, h)
    ensures LevelWf(s, lows, us + [u], h)
  {
    hide Wf;
    var us' := us + [u];
    forall g | 0 <= g < |us'|
      ensures Wf(s, us'[g], LowAt(lows, g), HighAt(lows, g), h)
    {
      if g < |us| {
        assert Wf(s, us[g], LowAt(lows, g), Some(lows[g + 1]), h);
      }
    }
  }

  // --------------------------------------------------------------------- cut sequences

  /** `cuts` are the page starts found so far, the last one that of the open page. */
  ghost predicate CutSoFar(z: seq<nat>, budget: nat, gap: nat, cuts: seq<nat>, i: nat) {
    && gap <= 1 && cuts != [] && Increasing(cuts) && cuts[0] == 0 && cuts[|cuts| - 1] < i <= |z|
    && Sum(z[cuts[|cuts| - 1] + gap..i]) <= budget
    && cuts[..|cuts| - 1] + Cuts(z, budget, gap, cuts[|cuts| - 1], i) == Cuts(z, budget, gap, 0, 1)
  }

  lemma {:induction false} CutStart(z: seq<nat>, budget: nat, gap: nat)
    requires z != [] && gap <= 1 && z[0] <= budget
    ensures CutSoFar(z, budget, gap, [0], 1)
  {
    hide Cuts, Sum;
    FirstSum(z, gap);
    assert [0][..0] + Cuts(z, budget, gap, 0, 1) == Cuts(z, budget, gap, 0, 1);
  }

  lemma {:induction false} FirstSum(z: seq<nat>, gap: nat)
    requires z != [] && gap <= 1
    ensures Sum(z[gap..1]) <= z[0]
  {
    SumOne(z[0]);
    assert z[1..1] == [] && z[0..1] == [z[0]];
  }

  lemma {:induction false} SliceMore<T>(z: seq<T>, a: nat, i: nat)
    requires a <= i < |z|
    ensures z[a..i + 1] == z[a..i] + [z[i]]
  {
  }

  /** One more entry goes to the open page. */
  lemma {:induction false} CutMore(z: seq<nat>, budget: nat, gap: nat, cuts: seq<nat>, i: nat)
    requires CutSoFar(z, budget, gap, cuts, i) && i < |z| && Sum(z[cuts[|cuts| - 1] + gap..i]) + z[i] <= budget
    ensures CutSoFar(z, budget, gap, cuts, i + 1)
  {
    var a := cuts[|cuts| - 1];
    assert Cuts(z, budget, gap, a, i) == Cuts(z, budget, gap, a, i + 1);
    hide Cuts, Sum, Increasing;
    SliceMore(z, a + gap, i);
    SumAppend(z[a + gap..i], [z[i]]);
    SumOne(z[i]);
  }

  /** One more entry opens the next page. */
  lemma {:induction false} CutNew(z: seq<nat>, budget: nat, gap: nat, cuts: seq<nat>, i: nat)
    requires CutSoFar(z, budget, gap, cuts, i) && i < |z| && Sum(z[cuts[|cuts| - 1] + gap..i]) + z[i] > budget
    requires z[i] <= budget
    ensures CutSoFar(z, budget, gap, cuts + [i], i + 1)
  {
    var a := cuts[|cuts| - 1];
    assert Cuts(z, budget, gap, a, i) == [a] + Cuts(z, budget, gap, i, i + 1);
    hide Cuts, Sum;
    var cuts' := cuts + [i];
    assert Increasing(cuts') by { IncreasingNext(cuts, i); }
    hide Increasing;
    LastMoves(cuts, a, Cuts(z, budget, gap, i, i + 1));
    assert cuts'[..|cuts'| - 1] == cuts;
    FirstFits(z, budget, gap, i);
  }

  lemma {:induction false} LastMoves(cuts: seq<nat>, a: nat, rest: seq<nat>)
    requires cuts != [] && cuts[|cuts| - 1] == a
    ensures cuts + rest == cuts[..|cuts| - 1] + ([a] + rest)
  {
    assert cuts == cuts[..|cuts| - 1] + [a];
  }

  /** A page that holds one entry is within its budget. */
  lemma {:induction false} FirstFits(z: seq<nat>, budget: nat, gap: nat, i: nat)
    requires gap <= 1 && i < |z| && z[i] <= budget
    ensures Sum(z[i + gap..i + 1]) <= budget
  {
    hide Sum;
    SumOne(z[i]);
    assert z[i..i + 1] == [z[i]];
    if gap == 1 {
      assert z[i + gap..i + 1] == [];
      SumNone();
    }
  }

  lemma {:induction false} SumNone()
    ensures Sum([]) == 0
  {
  }

  lemma {:induction false} IncreasingNext(cuts: seq<nat>, i: nat)
    requires Increasing(cuts) && cuts != [] && cuts[|cuts| - 1] < i
    ensures Increasing(cuts + [i])
  {
    assert forall g :: 0 <= g < |cuts| ==> cuts[g] <= cuts[|cuts| - 1];
  }

  lemma {:induction false} CutEnd(z: seq<nat>, budget: nat, gap: nat, cuts: seq<nat>)
    requires CutSoFar(z, budget, gap, cuts, |z|)
    ensures cuts == Cuts(z, budget, gap, 0, 1)
  {
    assert cuts == cuts[..|cuts| - 1] + [cuts[|cuts| - 1]];
  }

  // ------------------------------------------------------------------ trees built so far

  /** All leaves but the open one. */
  ghost predicate LeavesSoFar(table: nat, rows: seq<Row>, cuts: seq<nat>, ts: seq<Tree>) {
    && |cuts| == |ts| + 1 && CutsOf(cuts, |rows|)
    && forall g :: 0 <= g < |ts| ==> ts[g] == LeafT(PageId(table, g + 1), rows[cuts[g]..cuts[g + 1]])
  }

  lemma {:induction false} LeavesNext(table: nat, rows: seq<Row>, cuts: seq<nat>, ts: seq<Tree>, i: nat)
    requires LeavesSoFar(table, rows, cuts, ts) && cuts[|cuts| - 1] < i < |rows|
    ensures LeavesSoFar(table, rows, cuts + [i], ts + [LeafT(PageId(table, |ts| + 1), rows[cuts[|cuts| - 1]..i])])
  {
    IncreasingNext(cuts, i);
  }

  lemma {:induction false} LeavesDone(table: nat, rows: seq<Row>, cuts: seq<nat>, ts: seq<Tree>)
    requires LeavesSoFar(table, rows, cuts, ts)
    ensures ts + [LeafT(PageId(table, |ts| + 1), rows[cuts[|cuts| - 1]..])] == LeafTrees(table, rows, cuts)
  {
    var us := ts + [LeafT(PageId(table, |ts| + 1), rows[cuts[|cuts| - 1]..])];
    assert rows[cuts[|cuts| - 1]..] == rows[cuts[|cuts| - 1]..|rows|];
    forall g | 0 <= g < |us|
      ensures us[g] == LeafTrees(table, rows, cuts)[g]
    {
    }
  }

  /** All pages of a level but the open one. */
  ghost predicate NodesSoFar(table: nat, n: nat, lows: seq<Key>, ts: seq<Tree>, cuts: seq<nat>, us: seq<Tree>) {
    && |cuts| == |us| + 1 && |lows| == |ts| && CutsOf(cuts, |lows|)
    && forall g :: 0 <= g < |us| ==>
         us[g] == NodeT(PageId(table, n + g), lows[cuts[g] + 1..cuts[g + 1]], ts[cuts[g]..cuts[g + 1]])
  }

  lemma {:induction false} NodesNext(table: nat, n: nat, lows: seq<Key>, ts: seq<Tree>, cuts: seq<nat>, us: seq<Tree>,
                                     i: nat)
    requires NodesSoFar(table, n, lows, ts, cuts, us) && cuts[|cuts| - 1] < i < |lows|
    ensures var a := cuts[|cuts| - 1];
      NodesSoFar(table, n, lows, ts, cuts + [i], us + [NodeT(PageId(table, n + |us|), lows[a + 1..i], ts[a..i])])
  {
    IncreasingNext(cuts, i);
  }

  lemma {:induction false} NodesDone(table: nat, n: nat, lows: seq<Key>, ts: seq<Tree>, cuts: seq<nat>, us: seq<Tree>)
    requires NodesSoFar(table, n, lows, ts, cuts, us)
    ensures var a := cuts[|cuts| - 1];
      us + [NodeT(PageId(table, n + |us|), lows[a + 1..], ts[a..])] == NodeTrees(table, n, lows, ts, cuts)
  {
    var a := cuts[|cuts| - 1];
    var us' := us + [NodeT(PageId(table, n + |us|), lows[a + 1..], ts[a..])];
    assert lows[a + 1..] == lows[a + 1..|lows|] && ts[a..] == ts[a..|lows|];
    forall g | 0 <= g < |us'|
      ensures us'[g] == NodeTrees(table, n, lows, ts, cuts)[g]
    {
    }
  }

  // ------------------------------------------------------------- entries of equal weight

  lemma {:induction false} EqualSum(z: seq<nat>, w: nat, a: nat, i: nat)
    requires a <= i <= |z| && forall j :: 0 <= j < |z| ==> z[j] == w
    ensures Sum(z[a..i]) == w * (i - a)
    decreases i - a
  {
    if a < i {
      assert z[a..i][0] == w && z[a..i][1..] == z[a + 1..i];
      EqualSum(z, w, a + 1, i);
    }
  }

  /** Entries of equal weight fill pages evenly, `q` to a page besides the free first one. */
  lemma {:induction false} EvenCuts(z: seq<nat>, w: nat, budget: nat, gap: nat, q: nat, a: nat, i: nat)
    requires gap <= 1 && a < i <= |z| && (forall j :: 0 <= j < |z| ==> z[j] == w)
    requires w * q <= budget < w * q + w && 1 <= q && i <= a + gap + q
    ensures Cuts(z, budget, gap, a, i) ==
      if |z| <= a + gap + q then [a] else [a] + Cuts(z, budget, gap, a + gap + q, a + gap + q + 1)
    decreases |z| - i
  {
    hide Cuts, Sum;
    CutsStep(z, budget, gap, a, i);
    if i < |z| {
      EqualSum(z, w, a + gap, i);
      if i < a + gap + q {
        Monotone(w, i - a - gap, q);
        EvenCuts(z, w, budget, gap, q, a, i + 1);
      }
    }
  }

  lemma {:induction false} CutsStep(z: seq<nat>, budget: nat, gap: nat, a: nat, i: nat)
    requires gap <= 1 && a < i <= |z|
    ensures Cuts(z, budget, gap, a, i) ==
      if i == |z| then [a]
      else if Sum(z[a + gap..i]) + z[i] <= budget then Cuts(z, budget, gap, a, i + 1)
      else [a] + Cuts(z, budget, gap, i, i + 1)
  {
  }

  lemma {:induction false} SliceGrows(z: seq<nat>, a: nat, i: nat, b: nat)
    requires a <= i < b <= |z|
    ensures Sum(z[a..i]) + z[i] <= Sum(z[a..b])
  {
    hide Sum;
    assert z[a..b] == z[a..i] + ([z[i]] + z[i + 1..b]);
    SumAppend(z[a..i], [z[i]] + z[i + 1..b]);
    SumAppend([z[i]], z[i + 1..b]);
    SumOne(z[i]);
  }

  /** A page is cut where the next entry does not fit. */
  lemma {:induction false} PageCut(z: seq<nat>, budget: nat, gap: nat, a: nat, i: nat, b: nat)
    requires gap <= 1 && a < i <= b < |z| && Sum(z[a + gap..b]) <= budget < Sum(z[a + gap..b]) + z[b]
    ensures Cuts(z, budget, gap, a, i) == [a] + Cuts(z, budget, gap, b, b + 1)
    decreases b - i
  {
    hide Cuts, Sum;
    CutsStep(z, budget, gap, a, i);
    if i < b {
      SliceGrows(z, a + gap, i, b);
      PageCut(z, budget, gap, a, i + 1, b);
    }
  }

  /** What fits one page goes into one. */
  lemma {:induction false} LastCut(z: seq<nat>, budget: nat, gap: nat, a: nat, i: nat)
    requires gap <= 1 && a < i <= |z| && Sum(z[a + gap..|z|]) <= budget
    ensures Cuts(z, budget, gap, a, i) == [a]
    decreases |z| - i
  {
    hide Cuts, Sum;
    CutsStep(z, budget, gap, a, i);
    if i < |z| {
      SliceGrows(z, a + gap, i, |z|);
      LastCut(z, budget, gap, a, i + 1);
    }
  }

  lemma {:induction false} Monotone(w: nat, x: nat, y: nat)
    requires x < y
    ensures w * x + w <= w * y
    decreases y
  {
    assert w * y == w * (y - 1) + w;
    if x < y - 1 {
      Monotone(w, x, y - 1);
    }
  }

  /** With integer keys every internal page takes 194 children, the last one what is left. */
  lemma {:induction false} IntCuts(z: seq<nat>, a: nat)
    requires a < |z| && forall j :: 0 <= j < |z| ==> z[j] == 21
    ensures var cuts, n := Cuts(z, INTERNAL_USABLE, 1, a, a + 1), |z| - a;
      |cuts| == (n + 193) / 194 && cuts[|cuts| - 1] == a + 194 * ((n - 1) / 194)
    decreases |z| - a
  {
    hide Cuts;
    EvenCuts(z, 21, INTERNAL_USABLE, 1, 193, a, a + 1);
    By194(|z| - a);
    if a + 194 < |z| {
      IntCuts(z, a + 194);
      var rest := Cuts(z, INTERNAL_USABLE, 1, a + 194, a + 195);
      assert ([a] + rest)[|rest|] == rest[|rest| - 1];
    }
  }

  lemma {:induction false} By194(n: nat)
    requires n >= 1
    ensures n <= 194 ==> (n + 193) / 194 == 1 && (n - 1) / 194 == 0
    ensures n > 194 ==> (n + 193) / 194 == 1 + (n - 194 + 193) / 194 && (n - 1) / 194 == 1 + (n - 194 - 1) / 194
  {
  }

  /** Whether a bulk load over `n` leaves gives every internal page a key, with integer keys: on no level is
      there one page over a multiple of 194. */
  predicate IntLevelsKeyed(n: nat) {
    n >= 2 ==> n % 194 != 1 && IntLevelsKeyed((n + 193) / 194)
  }

  lemma {:induction false} LevelsKeyedStep(lows: seq<Key>)
    requires |lows| >= 2 && SmallKeys(lows)
    ensures SmallKeys(UpLows(lows))
    ensures LevelsKeyed(lows) <==> KeyCuts(lows)[|KeyCuts(lows)| - 1] + 1 < |lows| && LevelsKeyed(UpLows(lows))
  {
    hide KeyCuts, UpLows, SmallKeys;
    UpShrinks(lows);
  }

  lemma {:induction false} IntKeyCuts(lows: seq<Key>)
    requires lows != [] && forall i :: 0 <= i < |lows| ==> lows[i].IntKey?
    ensures SmallKeys(lows)
    ensures |KeyCuts(lows)| == (|lows| + 193) / 194 && KeyCuts(lows)[|KeyCuts(lows)| - 1] == 194 * ((|lows| - 1) / 194)
    ensures forall i :: 0 <= i < |UpLows(lows)| ==> UpLows(lows)[i].IntKey?
  {
    hide Cuts;
    IntCuts(KeySizes(lows), 0);
  }

  lemma {:induction false} IntStep(n: nat)
    requires n >= 2
    ensures 194 * ((n - 1) / 194) + 1 < n <==> n % 194 != 1
    ensures IntLevelsKeyed(n) <==> n % 194 != 1 && IntLevelsKeyed((n + 193) / 194)
  {
    hide IntLevelsKeyed;
    IntUnfold(n);
    assert n - 1 == 194 * ((n - 1) / 194) + (n - 1) % 194;
  }

  lemma {:induction false} IntUnfold(n: nat)
    requires n >= 2
    ensures IntLevelsKeyed(n) <==> n % 194 != 1 && IntLevelsKeyed((n + 193) / 194)
  {
  }

  lemma {:induction false} IntLevels(lows: seq<Key>)
    requires forall i :: 0 <= i < |lows| ==> lows[i].IntKey?
    ensures SmallKeys(lows) && (LevelsKeyed(lows) <==> IntLevelsKeyed(|lows|))
    decreases |lows|
  {
    if |lows| < 2 {
      assert LevelsKeyed(lows);
    } else {
      hide KeyCuts, UpLows, SmallKeys, LevelsKeyed, IntLevelsKeyed;
      IntKeyCuts(lows);
      UpCount(lows);
      LevelsKeyedStep(lows);
      UpShrinks(lows);
      IntLevels(UpLows(lows));
      IntStep(|lows|);
    }
  }

  lemma {:induction false} UpCount(lows: seq<Key>)
    requires lows != []
    ensures |UpLows(lows)| == |KeyCuts(lows)|
  {
  }

  /** For integer keys the condition is one on the number of leaves: up to 194 leaves are always enough, and
      195 are the first that are not. */
  lemma {:induction false} IntLoadKeyed(rows: seq<Row>)
    requires rows != [] && forall i :: 0 <= i < |rows| ==> RowKey(rows[i]).IntKey?
    ensures SmallKeys(RecordKeys(rows)) && (LoadKeyed(rows) <==> IntLevelsKeyed(|LeafCuts(rows)|))
    ensures |LeafCuts(rows)| <= 194 ==> LoadKeyed(rows)
    ensures |LeafCuts(rows)| == 195 ==> !LoadKeyed(rows)
  {
    hide LeafCuts, RowKey, LevelsKeyed;
    IntLevels(RecordKeys(rows));
    IntLevels(Pick(RecordKeys(rows), LeafCuts(rows)));
  }
}

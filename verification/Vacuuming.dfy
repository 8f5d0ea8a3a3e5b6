/** `Table::vacuum` (`src/table/mod.rs`): rebuilds a table from its rows, packed and without free pages. */
module Vacuuming {
  import opened Common
  import opened Schemas
  import opened Pages
  import opened Trees
  import opened Stores
  import opened Focus
  import opened Contents
  import opened StoredRows
  import opened Tables
  import opened Inserting
  import opened Inserts
  import opened Scans
  import opened Packing

  // ------------------------------------------------------------------- pages of a level

  /** The new pages `out` spell out the trees `us`, then those of `ts` from `a` on; together they have
      the leaves `ls` and take page numbers 1 to n - 1, each once. None has an LSN. */
  ghost predicate Closed(out: Store, table: nat, n: nat, us: seq<Tree>, ts: seq<Tree>, a: nat, ls: seq<Tree>) {
    && a <= |ts| && 1 <= n
    && RepAll(out, us) && RepAll(out, ts) && Chain(out, ls)
    && LeavesOf(us) + LeavesOf(ts[a..]) == ls
    && IdsOf(us) + IdsOf(ts[a..]) == AllIds(table, n)
    && (forall id :: id in out <==> id in AllIds(table, n))
    && forall id :: id in out ==> out[id].lsn == 0
  }

  /** The same, with page `open` numbered but not written yet. */
  ghost predicate Opened(out: Store, table: nat, n: nat, open: PageId, us: seq<Tree>, ts: seq<Tree>, a: nat,
                         ls: seq<Tree>) {
    && a <= |ts| && 1 <= n
    && RepAll(out, us) && RepAll(out, ts) && Chain(out, ls)
    && LeavesOf(us) + LeavesOf(ts[a..]) == ls
    && IdsOf(us) + multiset{open} + IdsOf(ts[a..]) == AllIds(table, n)
    && (forall id :: id in out <==> id in AllIds(table, n) && id != open)
    && forall id :: id in out ==> out[id].lsn == 0
  }

  lemma {:induction false} OpenNext(out: Store, table: nat, n: nat, us: seq<Tree>, ts: seq<Tree>, a: nat, ls: seq<Tree>)
    requires Closed(out, table, n, us, ts, a, ls)
    ensures Opened(out, table, n + 1, PageId(table, n), us, ts, a, ls)
  {
    hide RepAll, Chain, LeavesOf, IdsOf, AllIds;
    AllIdsStep(table, n);
  }

  lemma {:induction false} ClosePage(out: Store, table: nat, n: nat, p: Page, us: seq<Tree>, ts: seq<Tree>, a: nat,
                                     i: nat, ls: seq<Tree>)
    requires Opened(out, table, n, p.id, us, ts, a, ls) && a < i <= |ts|
    requires p.body.Internal? && p.body.children == RootIds(ts[a..i]) && p.lsn == 0
    ensures Closed(out[p.id := p], table, n, us + [NodeT(p.id, p.body.keys, ts[a..i])], ts, i, ls)
    ensures p.id !in out
  {
    hide RepAll, LeavesOf, IdsOf, AllIds, RepT, Leaves, Ids, Chain, RootIds;
    var out', node := out[p.id := p], NodeT(p.id, p.body.keys, ts[a..i]);
    assert Agree(out, out', IdsOf(us)) && Agree(out, out', IdsOf(ts));
    RepAllFrame(out, out', us);
    RepAllFrame(out, out', ts);
    ChainGrows(out, out', ls);
    assert ts[a..] == ts[a..i] + ts[i..];
    assert ts == ts[..a] + ts[a..];
    RepAllParts(out', ts[..a], ts[a..]);
    RepAllParts(out', ts[a..i], ts[i..]);
    NodeRep(out', p.id, p.body.keys, ts[a..i]);
    OneTree(out', node);
    RepAllAppend(out', us, [node]);
    LeavesOfAppend(us, [node]);
    LeavesOfAppend(ts[a..i], ts[i..]);
    IdsOfAppend(us, [node]);
    IdsOfAppend(ts[a..i], ts[i..]);
    NodeIds(node);
    NodeLeaves(node);
    IdsOut(AllIds(table, n), IdsOf(us), p.id, IdsOf(ts[a..]));
  }

  lemma {:induction false} IdsOut(all: multiset<PageId>, a: multiset<PageId>, id: PageId, b: multiset<PageId>)
    requires a + multiset{id} + b == all
    ensures id in all
  {
    assert (a + multiset{id} + b)[id] == a[id] + 1 + b[id];
  }

  lemma {:induction false} OneTree(out: Store, t: Tree)
    ensures RepT(out, t) ==> RepAll(out, [t])
    ensures LeavesOf([t]) == Leaves(t) && IdsOf([t]) == Ids(t)
  {
    hide RepT, Leaves, Ids;
    assert [t][1..] == [];
    assert IdsOf([]) == multiset{} && LeavesOf([]) == [];
  }

  lemma {:induction false} ChainGrows(out: Store, out': Store, ls: seq<Tree>)
    requires Chain(out, ls) && forall id :: id in out ==> id in out' && out'[id] == out[id]
    ensures Chain(out', ls)
  {
    forall i | 0 <= i < |ls|
      ensures Linked(out', ls, i)
    {
      assert Linked(out, ls, i);
    }
  }

  // -------------------------------------------------------------- one level of internal pages

  predicate Entries(level: seq<(Key, PageId)>, lows: seq<Key>, ts: seq<Tree>) {
    && |level| == |lows| == |ts|
    && forall i :: 0 <= i < |level| ==> level[i] == (lows[i], ts[i].id)
  }

  /** A separator above all keys of a page goes to its end. */
  lemma {:induction false} AppendSeparator(p: Page, sep: Key, child: PageId)
    requires p.body.Internal? && |p.body.children| == |p.body.keys| + 1 && CanInsertSeparator(p, sep)
    requires InternalEntrySize(sep) <= MAX_INTERNAL_ENTRY_SIZE && Sorted(p.body.keys + [sep])
    ensures InternalInsert(p, sep, child) == Ok(p.(body := Internal(p.body.keys + [sep], p.body.children + [child])))
  {
    hide CanInsertSeparator, Search, InternalEntrySize;
    var keys := p.body.keys;
    SearchEnd(keys, sep);
    assert keys[..|keys|] + [sep] + keys[|keys|..] == keys + [sep];
    assert p.body.children[..|keys| + 1] + [child] + p.body.children[|keys| + 1..] == p.body.children + [child];
  }

  lemma {:induction false} SearchEnd(keys: seq<Key>, k: Key)
    requires Sorted(keys + [k])
    ensures Search(keys, k) == Miss(|keys|)
  {
    var all := keys + [k];
    forall i | 0 <= i < |keys|
      ensures KeyLess(keys[i], k)
    {
      assert KeyLess(all[i], all[|keys|]);
    }
  }

  lemma {:induction false} SizesSlice(lows: seq<Key>, a: nat, i: nat)
    requires a <= i <= |lows|
    ensures KeySizes(lows)[a..i] == KeySizes(lows[a..i]) && Sum(KeySizes(lows)[a..i]) == KeyBytes(lows[a..i])
  {
  }

  lemma {:induction false} SortedSlice(lows: seq<Key>, a: nat, i: nat)
    requires Sorted(lows) && a <= i <= |lows|
    ensures Sorted(lows[a..i])
  {
    forall j, j' | 0 <= j < j' < i - a
      ensures KeyLess(lows[a..i][j], lows[a..i][j'])
    {
      assert KeyLess(lows[a + j], lows[a + j']);
    }
  }

  /** The state of `build_internal_level` after `i` children: pages over children up to `a` are done,
      the open page covers children `a` to `i - 1`. */
  ghost predicate Building(s: Schema, out: Store, table: nat, n: nat, page: Page, lows: seq<Key>, ts: seq<Tree>,
                           h: nat, ls: seq<Tree>,
                           us: seq<Tree>, cuts: seq<nat>, i: nat) {
    && LowsOk(s, lows) && LevelWf(s, lows, ts, h) && SmallKeys(lows)
    && CutSoFar(KeySizes(lows), INTERNAL_USABLE, 1, cuts, i)
    && var a := cuts[|cuts| - 1];
       && page.body == Internal(lows[a + 1..i], RootIds(ts[a..i])) && page.lsn == 0
       && BuiltWf(s, Pick(lows, cuts), us, h + 1)
       && Opened(out, table, n, page.id, us, ts, a, ls)
       && (KeyedAll(us) <==> KeyedAll(ts[..a]))
  }

  lemma {:induction false} ValidSmall(s: Schema, lows: seq<Key>)
    requires LowsOk(s, lows)
    ensures SmallKeys(lows)
  {
  }

  lemma {:induction false} KeySizesSmall(lows: seq<Key>, i: nat)
    requires SmallKeys(lows) && i < |lows|
    ensures KeySizes(lows)[i] == InternalEntrySize(lows[i]) <= MAX_INTERNAL_ENTRY_SIZE < INTERNAL_USABLE
  {
  }

  lemma {:induction false} BuildStart(s: Schema, out: Store, table: nat, n: nat, page: Page, lows: seq<Key>,
                                      ts: seq<Tree>, h: nat, ls: seq<Tree>)
    requires LowsOk(s, lows) && LevelWf(s, lows, ts, h) && Closed(out, table, n, [], ts, 0, ls)
    requires page == Page(PageId(table, n), 0, Internal([], [ts[0].id]))
    ensures Building(s, out, table, n + 1, page, lows, ts, h, ls, [], [0], 1)
  {
    hide Closed, Opened, CutSoFar, LowsOk, LevelWf, SmallKeys, KeySizes;
    ValidSmall(s, lows);
    SameLength(s, lows, ts, h);
    KeySizesSmall(lows, 0);
    CutStart(KeySizes(lows), INTERNAL_USABLE, 1);
    OpenNext(out, table, n, [], ts, 0, ls);
    assert lows[1..1] == [] && RootIds(ts[0..1]) == [ts[0].id] && ts[..0] == [];
  }

  lemma {:induction false} SameLength(s: Schema, lows: seq<Key>, ts: seq<Tree>, h: nat)
    requires LowsOk(s, lows) && LevelWf(s, lows, ts, h)
    ensures |lows| == |ts| && lows != []
  {
  }

  /** The next child fits into the open page. */
  lemma {:induction false} BuildAdd(s: Schema, out: Store, table: nat, n: nat, page: Page, lows: seq<Key>,
                                    ts: seq<Tree>, h: nat, ls: seq<Tree>,
                                    us: seq<Tree>, cuts: seq<nat>, i: nat)
    requires Building(s, out, table, n, page, lows, ts, h, ls, us, cuts, i) && i < |lows| == |ts|
    requires CanInsertSeparator(page, lows[i])
    ensures InternalInsert(page, lows[i], ts[i].id).Ok?
    ensures Building(s, out, table, n, InternalInsert(page, lows[i], ts[i].id).value, lows, ts, h, ls, us, cuts, i + 1)
  {
    hide Opened, LowsOk, LevelWf, SmallKeys, KeySizes, BuiltWf, KeyedAll, CutSoFar, Sum, InternalEntrySize;
    hide CanInsertSeparator, InternalInsert, RootIds, KeyBytes, Pick;
    CutBounds(KeySizes(lows), INTERNAL_USABLE, 1, cuts, i);
    var a := cuts[|cuts| - 1];
    KeyRoom(page, lows[i]);
    SizesSlice(lows, a + 1, i);
    KeySizesSmall(lows, i);
    CutMore(KeySizes(lows), INTERNAL_USABLE, 1, cuts, i);
    SliceNext(lows, a + 1, i);
    LowsSorted(s, lows);
    SortedSlice(lows, a + 1, i + 1);
    AppendSeparator(page, lows[i], ts[i].id);
    RootIdsNext(ts, a, i);
  }

  lemma {:induction false} SliceNext<T>(s: seq<T>, a: nat, i: nat)
    requires a <= i < |s|
    ensures s[a..i] + [s[i]] == s[a..i + 1]
  {
  }

  lemma {:induction false} LowsSorted(s: Schema, lows: seq<Key>)
    requires LowsOk(s, lows)
    ensures Sorted(lows)
  {
  }

  lemma {:induction false} RootIdsNext(ts: seq<Tree>, a: nat, i: nat)
    requires a <= i < |ts|
    ensures RootIds(ts[a..i]) + [ts[i].id] == RootIds(ts[a..i + 1]) && |RootIds(ts[a..i])| == i - a
  {
  }

  lemma {:induction false} CutBounds(z: seq<nat>, budget: nat, gap: nat, cuts: seq<nat>, i: nat)
    requires CutSoFar(z, budget, gap, cuts, i)
    ensures cuts != [] && cuts[|cuts| - 1] < i <= |z| && Sum(z[cuts[|cuts| - 1] + gap..i]) <= budget
    ensures Increasing(cuts) && cuts[0] == 0
    ensures forall g :: 0 <= g < |cuts| ==> cuts[g] < |z|
  {
    hide Cuts;
  }

  /** The open page over children `a` to `i - 1`. */
  lemma {:induction false} OpenTree(s: Schema, out: Store, table: nat, n: nat, page: Page, lows: seq<Key>,
                                    ts: seq<Tree>, h: nat, ls: seq<Tree>,
                                    us: seq<Tree>, cuts: seq<nat>, i: nat)
    requires i <= |lows| == |ts| && cuts != [] && cuts[|cuts| - 1] < i
    requires Building(s, out, table, n, page, lows, ts, h, ls, us, cuts, i)
    ensures |us| + 1 == |cuts|
    ensures var a := cuts[|cuts| - 1]; var node := NodeT(page.id, lows[a + 1..i], ts[a..i]);
      && Wf(s, node, if us == [] then None else Some(lows[a]), HighAt(lows, i - 1), h + 1)
      && Closed(out[page.id := page], table, n, us + [node], ts, i, ls)
      && (KeyedAll(us + [node]) <==> KeyedAll(ts[..i]) && i >= a + 2)
  {
    hide Opened, LowsOk, LevelWf, SmallKeys, KeySizes, BuiltWf, KeyedAll, CutSoFar, Sum, RootIds, KeyBytes, Wf, Closed;
    hide Increasing;
    CutBounds(KeySizes(lows), INTERNAL_USABLE, 1, cuts, i);
    BuiltLength(s, Pick(lows, cuts), us, h + 1);
    var a := cuts[|cuts| - 1];
    var node := NodeT(page.id, lows[a + 1..i], ts[a..i]);
    SizesSlice(lows, a + 1, i);
    GroupWf(s, lows, ts, h, a, i, page.id);
    FirstCut(cuts);
    ClosePage(out, table, n, page, us, ts, a, i, ls);
    KeyedNext(us, ts, a, i, node);
  }

  lemma {:induction false} FirstCut(cuts: seq<nat>)
    requires Increasing(cuts) && cuts != [] && cuts[0] == 0
    ensures cuts[|cuts| - 1] == 0 <==> |cuts| == 1
  {
  }

  lemma {:induction false} BuiltLength(s: Schema, lows: seq<Key>, us: seq<Tree>, h: nat)
    requires BuiltWf(s, lows, us, h)
    ensures |lows| == |us| + 1
  {
  }

  lemma {:induction false} KeyedNext(us: seq<Tree>, ts: seq<Tree>, a: nat, i: nat, node: Tree)
    requires a < i <= |ts| && (KeyedAll(us) <==> KeyedAll(ts[..a])) && node.NodeT? && node.kids == ts[a..i]
    requires |node.keys| == i - a - 1
    ensures KeyedAll(us + [node]) <==> KeyedAll(ts[..i]) && i >= a + 2
  {
    KeyedSplit(us, [node]);
    KeyedSplit(ts[..a], ts[a..i]);
    assert ts[..i] == ts[..a] + ts[a..i];
    assert KeyedAll([node]) <==> Keyed([node][0]);
    assert Keyed(node) <==> |node.keys| >= 1 && KeyedAll(node.kids);
  }

  lemma {:induction false} KeyedSplit(a: seq<Tree>, b: seq<Tree>)
    ensures KeyedAll(a + b) <==> KeyedAll(a) && KeyedAll(b)
  {
    hide Keyed;
    if KeyedAll(a + b) {
      KeyedParts(a, b);
    }
  }

  /** The next child does not fit: the open page is done, and the child opens another. */
  lemma {:induction false} BuildNew(s: Schema, out: Store, table: nat, n: nat, page: Page, lows: seq<Key>,
                                    ts: seq<Tree>, h: nat, ls: seq<Tree>,
                                    us: seq<Tree>, cuts: seq<nat>, i: nat, next: Page)
    requires cuts != [] && cuts[|cuts| - 1] < i < |lows| == |ts| && forall g :: 0 <= g < |cuts| ==> cuts[g] < |lows|
    requires Building(s, out, table, n, page, lows, ts, h, ls, us, cuts, i) && !CanInsertSeparator(page, lows[i])
    requires next == Page(PageId(table, n), 0, Internal([], [ts[i].id]))
    ensures var a := cuts[|cuts| - 1]; var node := NodeT(page.id, lows[a + 1..i], ts[a..i]);
      Building(s, out[page.id := page], table, n + 1, next, lows, ts, h, ls, us + [node], cuts + [i], i + 1)
  {
    hide Opened, LowsOk, LevelWf, SmallKeys, KeySizes, BuiltWf, KeyedAll, CutSoFar, Sum, InternalEntrySize;
    hide CanInsertSeparator, RootIds, KeyBytes, Wf, Closed, Pick, Increasing;
    CutBounds(KeySizes(lows), INTERNAL_USABLE, 1, cuts, i);
    OpenTree(s, out, table, n, page, lows, ts, h, ls, us, cuts, i);
    var a := cuts[|cuts| - 1];
    var node := NodeT(page.id, lows[a + 1..i], ts[a..i]);
    KeyRoom(page, lows[i]);
    SizesSlice(lows, a + 1, i);
    KeySizesSmall(lows, i);
    SecondFits(lows, a, i);
    CutNew(KeySizes(lows), INTERNAL_USABLE, 1, cuts, i);
    OpenNext(out[page.id := page], table, n, us + [node], ts, i, ls);
    BuiltNext(s, Pick(lows, cuts), us, h + 1, node, lows[i]);
    PickNext(lows, cuts, i);
    OneKidPage(lows, ts, i);
  }

  lemma {:induction false} OneKidPage(lows: seq<Key>, ts: seq<Tree>, i: nat)
    requires i < |lows| == |ts|
    ensures lows[i + 1..i + 1] == [] && RootIds(ts[i..i + 1]) == [ts[i].id]
  {
  }

  lemma {:induction false} PickNext(lows: seq<Key>, cuts: seq<nat>, i: nat)
    requires i < |lows| && forall g :: 0 <= g < |cuts| ==> cuts[g] < |lows|
    ensures Pick(lows, cuts + [i]) == Pick(lows, cuts) + [lows[i]]
  {
  }

  /** A second child always fits. */
  lemma {:induction false} SecondFits(lows: seq<Key>, a: nat, i: nat)
    requires a < i < |lows| && InternalEntrySize(lows[i]) < INTERNAL_USABLE
    requires KeyBytes(lows[a + 1..i]) + InternalEntrySize(lows[i]) > INTERNAL_USABLE
    ensures i >= a + 2
  {
    hide InternalEntrySize;
    assert KeyBytes([]) == 0;
    assert lows[a + 1..a + 1] == [];
  }

  /** All children are placed: the pages built, with the open one, are the next level. */
  lemma {:induction false} BuildEnd(s: Schema, out: Store, table: nat, n: nat, page: Page, lows: seq<Key>,
                                    ts: seq<Tree>, h: nat, ls: seq<Tree>,
                                    us: seq<Tree>, cuts: seq<nat>)
    requires Building(s, out, table, n, page, lows, ts, h, ls, us, cuts, |lows|) && |lows| == |ts|
    ensures cuts[|cuts| - 1] < |lows| && cuts == KeyCuts(lows)
    ensures var a := cuts[|cuts| - 1]; var us' := us + [NodeT(page.id, lows[a + 1..], ts[a..])];
      && LevelWf(s, Pick(lows, cuts), us', h + 1) && LowsOk(s, Pick(lows, cuts))
      && Closed(out[page.id := page], table, n, [], us', 0, ls)
      && (KeyedAll(us') <==> KeyedAll(ts) && a + 1 < |lows|)
  {
    hide Opened, LowsOk, LevelWf, SmallKeys, KeySizes, BuiltWf, KeyedAll, CutSoFar, Sum, RootIds, KeyBytes, Wf, Closed;
    hide Pick, Increasing, Cuts;
    CutBounds(KeySizes(lows), INTERNAL_USABLE, 1, cuts, |lows|);
    OpenTree(s, out, table, n, page, lows, ts, h, ls, us, cuts, |lows|);
    CutEnd(KeySizes(lows), INTERNAL_USABLE, 1, cuts);
    var a := cuts[|cuts| - 1];
    assert lows[a + 1..|lows|] == lows[a + 1..] && ts[a..|lows|] == ts[a..] && ts[..|lows|] == ts;
    var us' := us + [NodeT(page.id, lows[a + 1..], ts[a..])];
    BuiltLength(s, Pick(lows, cuts), us, h + 1);
    BuiltLast(s, Pick(lows, cuts), us, h + 1, us'[|us|]);
    PickSorted(s, lows, cuts);
    AllClosed(out[page.id := page], table, n, us', ts, ls);
  }

  lemma {:induction false} AllClosed(out: Store, table: nat, n: nat, us: seq<Tree>, ts: seq<Tree>, ls: seq<Tree>)
    requires Closed(out, table, n, us, ts, |ts|, ls)
    ensures Closed(out, table, n, [], us, 0, ls)
  {
    assert ts[|ts|..] == [] && us[0..] == us;
    assert LeavesOf([]) == [] && IdsOf([]) == multiset{};
    hide LeavesOf, IdsOf, AllIds, RepT, Chain;
    assert IdsOf(us) + multiset{} == multiset{} + IdsOf(us);
  }

  /** `build_internal_level`: one level of internal pages over a level of children. */
  method BuildInternalLevel(table: nat, children: seq<(Key, PageId)>, n0: nat, out0: Store,
                            ghost s: Schema, ghost lows: seq<Key>, ghost ts: seq<Tree>, ghost h: nat,
                                ghost ls: seq<Tree>)
    returns (level: seq<(Key, PageId)>, n: nat, out: Store, ghost us: seq<Tree>)
    requires LowsOk(s, lows) && LevelWf(s, lows, ts, h) && Entries(children, lows, ts)
    requires Closed(out0, table, n0, [], ts, 0, ls)
    ensures lows != [] && LowsOk(s, UpLows(lows)) && LevelWf(s, UpLows(lows), us, h + 1)
    ensures Entries(level, UpLows(lows), us)
    ensures Closed(out, table, n, [], us, 0, ls)
    ensures KeyedAll(us) <==> KeyedAll(ts) && KeyCuts(lows)[|KeyCuts(lows)| - 1] + 1 < |lows|
    ensures |lows| == |ts| && us == NodeTrees(table, n0, lows, ts, KeyCuts(lows)) && n == n0 + |KeyCuts(lows)|
  {
    hide Closed, LowsOk, LevelWf, KeyedAll, KeySizes, Cuts, Building, CanInsertSeparator, InternalInsert, Pick, KeyCuts;
    hide NodesSoFar, NodeTrees;
    SameLength(s, lows, ts, h);
    var lowKey := children[0].0;
    var page := Page(PageId(table, n0), 0, Internal([], [children[0].1]));
    out, n, level, us := out0, n0 + 1, [], [];
    ghost var cuts: seq<nat> := [0];
    BuildStart(s, out, table, n0, page, lows, ts, h, ls);
    NodesStart(table, n0, lows, ts);
    for i := 1 to |children|
      invariant NodesSoFar(table, n0, lows, ts, cuts, us) && page.id == PageId(table, n0 + |us|) && n == n0 + |us| + 1
      invariant Building(s, out, table, n, page, lows, ts, h, ls, us, cuts, i)
      invariant cuts != [] && cuts[|cuts| - 1] < i && (forall g :: 0 <= g < |cuts| ==> cuts[g] < |lows|)
      invariant Entries(level + [(lowKey, page.id)], Pick(lows, cuts), us + [NodeT(page.id, [], [])])
    {
      var (key, child) := children[i];
      if CanInsertSeparator(page, key) {
        BuildAdd(s, out, table, n, page, lows, ts, h, ls, us, cuts, i);
        InsertKeepsId(page, key, child);
        page := InternalInsert(page, key, child).value;
      } else {
        ghost var a := cuts[|cuts| - 1];
        var next := Page(PageId(table, n), 0, Internal([], [child]));
        BuildNew(s, out, table, n, page, lows, ts, h, ls, us, cuts, i, next);
        PickNext(lows, cuts, i);
        NodesNext(table, n0, lows, ts, cuts, us, i);
        level := level + [(lowKey, page.id)];
        out := out[page.id := page];
        us := us + [NodeT(page.id, lows[a + 1..i], ts[a..i])];
        cuts := cuts + [i];
        lowKey := key;
        page := next;
        n := n + 1;
      }
    }
    BuildEnd(s, out, table, n, page, lows, ts, h, ls, us, cuts);
    NodesDone(table, n0, lows, ts, cuts, us);
    ghost var a := cuts[|cuts| - 1];
    level := level + [(lowKey, page.id)];
    out := out[page.id := page];
    us := us + [NodeT(page.id, lows[a + 1..], ts[a..])];
  }

  lemma {:induction false} NodesStart(table: nat, n: nat, lows: seq<Key>, ts: seq<Tree>)
    requires |lows| == |ts| && lows != []
    ensures NodesSoFar(table, n, lows, ts, [0], [])
  {
  }

  lemma {:induction false} InsertKeepsId(p: Page, k: Key, child: PageId)
    requires InternalInsert(p, k, child).Ok?
    ensures InternalInsert(p, k, child).value.id == p.id
  {
  }

  // ------------------------------------------------------------------------- the leaves

  ghost predicate LeafPages(table: nat, leaves: seq<Page>, ts: seq<Tree>) {
    && |leaves| == |ts|
    && forall g :: 0 <= g < |ts| ==>
         ts[g].LeafT? && ts[g].id == PageId(table, g + 1)
           && leaves[g] == Page(ts[g].id, 0, Leaf(ts[g].rows, None, None))
  }

  ghost predicate Firsts(ts: seq<Tree>, lows: seq<Key>) {
    && |ts| <= |lows|
    && forall g :: 0 <= g < |ts| ==> ts[g].LeafT? && ts[g].rows != [] && RowKey(ts[g].rows[0]) == lows[g]
  }

  ghost predicate RowsOk(s: Schema, rows: seq<Row>) {
    Sorted(RecordKeys(rows)) && forall j :: 0 <= j < |rows| ==> ValidRow(s, rows[j])
  }

  /** The state of the leaf loop after `i` rows: leaves up to row `a` are done, the open one has rows
      `a` to `i - 1`. */
  ghost predicate Filling(s: Schema, table: nat, rows: seq<Row>, leaves: seq<Page>, page: Page, ts: seq<Tree>,
                          cuts: seq<nat>, i: nat) {
    && CutSoFar(RowSizes(rows), LEAF_USABLE, 0, cuts, i)
    && var a := cuts[|cuts| - 1];
       && page == Page(PageId(table, |ts| + 1), 0, Leaf(rows[a..i], None, None))
       && BuiltWf(s, Pick(RecordKeys(rows), cuts), ts, 0)
       && LeafPages(table, leaves, ts) && Firsts(ts, Pick(RecordKeys(rows), cuts))
       && RowsOf(ts) == rows[..a]
  }

  /** A row above all rows of a leaf goes to its end. */
  lemma {:induction false} AppendRow(p: Page, row: Row)
    requires p.body.Leaf? && CanInsert(p, row) && Sorted(RecordKeys(p.body.records + [row]))
    ensures LeafInsert(p, row) == Ok(p.(body := p.body.(records := p.body.records + [row])))
  {
    hide CanInsert, Search, RowKey;
    var rows := p.body.records;
    assert RecordKeys(rows + [row]) == RecordKeys(rows) + [RowKey(row)];
    SearchEnd(RecordKeys(rows), RowKey(row));
    assert rows[..|rows|] + [row] + rows[|rows|..] == rows + [row];
  }

  lemma {:induction false} RowSizesSlice(rows: seq<Row>, a: nat, i: nat)
    requires a <= i <= |rows|
    ensures RowSizes(rows)[a..i] == RowSizes(rows[a..i]) && Sum(RowSizes(rows)[a..i]) == LeafBytes(rows[a..i])
  {
    hide LeafEntrySize;
  }

  lemma {:induction false} RowSizesSmall(s: Schema, rows: seq<Row>, i: nat)
    requires RowsOk(s, rows) && i < |rows|
    ensures RowSizes(rows)[i] == LeafEntrySize(rows[i]) <= MAX_LEAF_ENTRY_SIZE < LEAF_USABLE
  {
    hide LeafEntrySize, RowKey;
    assert ValidRow(s, rows[i]);
  }

  /** The keys of rows `a` to `i - 1` are sorted too. */
  lemma {:induction false} RowsSlice(rows: seq<Row>, a: nat, i: nat)
    requires Sorted(RecordKeys(rows)) && a <= i <= |rows|
    ensures Sorted(RecordKeys(rows[a..i]))
  {
    hide RowKey;
    SortedSlice(RecordKeys(rows), a, i);
    assert RecordKeys(rows[a..i]) == RecordKeys(rows)[a..i];
  }

  lemma {:induction false} FillStart(s: Schema, table: nat, rows: seq<Row>, page: Page)
    requires RowsOk(s, rows) && rows != [] && page == Page(PageId(table, 1), 0, Leaf([rows[0]], None, None))
    ensures Filling(s, table, rows, [], page, [], [0], 1)
  {
    hide CutSoFar, RowSizes, LeafEntrySize, RowKey, RowsOk, BuiltWf, LeafPages, Firsts, RowsOf, Pick, RecordKeys;
    RowSizesSmall(s, rows, 0);
    CutStart(RowSizes(rows), LEAF_USABLE, 0);
    assert rows[0..1] == [rows[0]] && rows[..0] == [];
    NoRows();
    NoLeaves(s, table, Pick(RecordKeys(rows), [0]));
  }

  /** No leaf is done yet. */
  lemma {:induction false} NoLeaves(s: Schema, table: nat, lows: seq<Key>)
    requires |lows| == 1
    ensures BuiltWf(s, lows, [], 0) && LeafPages(table, [], []) && Firsts([], lows)
  {
  }

  lemma {:induction false} FillAdd(s: Schema, table: nat, rows: seq<Row>, leaves: seq<Page>, page: Page, ts: seq<Tree>,
                                   cuts: seq<nat>, i: nat)
    requires cuts != [] && cuts[|cuts| - 1] < i < |rows| && RowsOk(s, rows)
    requires Filling(s, table, rows, leaves, page, ts, cuts, i) && CanInsert(page, rows[i])
    ensures LeafInsert(page, rows[i]).Ok?
    ensures Filling(s, table, rows, leaves, LeafInsert(page, rows[i]).value, ts, cuts, i + 1)
  {
    hide CutSoFar, RowSizes, LeafEntrySize, RowKey, ValidRow, BuiltWf, LeafPages, Firsts, RowsOf, Sum, CanInsert;
    hide LeafBytes, LeafInsert, Pick, Sorted;
    CutBounds(RowSizes(rows), LEAF_USABLE, 0, cuts, i);
    var a := cuts[|cuts| - 1];
    RowRoom(page, rows[i]);
    RowSizesSlice(rows, a, i);
    RowSizesSmall(s, rows, i);
    CutMore(RowSizes(rows), LEAF_USABLE, 0, cuts, i);
    SliceNext(rows, a, i);
    RowsSlice(rows, a, i + 1);
    AppendRow(page, rows[i]);
  }

  /** The open leaf with rows `a` to `i - 1`, done. */
  lemma {:induction false} OpenLeaf(s: Schema, table: nat, rows: seq<Row>, leaves: seq<Page>, page: Page,
                                    ts: seq<Tree>, cuts: seq<nat>, i: nat)
    requires cuts != [] && cuts[|cuts| - 1] < i <= |rows| && RowsOk(s, rows)
    requires Filling(s, table, rows, leaves, page, ts, cuts, i)
    ensures |ts| + 1 == |cuts|
    ensures var a := cuts[|cuts| - 1]; var leaf := LeafT(page.id, rows[a..i]); var ks := RecordKeys(rows);
      && Wf(s, leaf, if ts == [] then None else Some(ks[a]), HighAt(ks, i - 1), 0)
      && LeafPages(table, leaves + [page], ts + [leaf])
      && RowsOf(ts + [leaf]) == rows[..i]
      && leaf.rows != [] && RowKey(leaf.rows[0]) == ks[a]
  {
    hide CutSoFar, RowSizes, LeafEntrySize, RowKey, ValidRow, BuiltWf, Firsts, RowsOf, Sum, LeafBytes, Sorted;
    hide Increasing, Wf;
    CutBounds(RowSizes(rows), LEAF_USABLE, 0, cuts, i);
    var a := cuts[|cuts| - 1];
    BuiltLength(s, Pick(RecordKeys(rows), cuts), ts, 0);
    RowSizesSlice(rows, a, i);
    LeafGroupWf(s, rows, a, i, page.id);
    FirstCut(cuts);
    var leaf := LeafT(page.id, rows[a..i]);
    RowsOfAppend(ts, [leaf]);
    LeafRows(leaf);
    assert rows[..i] == rows[..a] + rows[a..i];
  }

  lemma {:induction false} FillNew(s: Schema, table: nat, rows: seq<Row>, leaves: seq<Page>, page: Page, ts: seq<Tree>,
                                   cuts: seq<nat>, i: nat, next: Page)
    requires cuts != [] && cuts[|cuts| - 1] < i < |rows| && RowsOk(s, rows)
    requires Filling(s, table, rows, leaves, page, ts, cuts, i) && !CanInsert(page, rows[i])
    requires next == Page(PageId(table, |ts| + 2), 0, Leaf([rows[i]], None, None))
    ensures var a := cuts[|cuts| - 1]; var leaf := LeafT(page.id, rows[a..i]);
      Filling(s, table, rows, leaves + [page], next, ts + [leaf], cuts + [i], i + 1)
  {
    hide CutSoFar, RowSizes, LeafEntrySize, RowKey, ValidRow, BuiltWf, LeafPages, Firsts, RowsOf, Sum, CanInsert;
    hide LeafBytes, Pick, Sorted, Wf, Increasing, RowsOk;
    CutBounds(RowSizes(rows), LEAF_USABLE, 0, cuts, i);
    OpenLeaf(s, table, rows, leaves, page, ts, cuts, i);
    var a := cuts[|cuts| - 1];
    var leaf, ks := LeafT(page.id, rows[a..i]), RecordKeys(rows);
    RowRoom(page, rows[i]);
    RowSizesSlice(rows, a, i);
    RowSizesSmall(s, rows, i);
    CutNew(RowSizes(rows), LEAF_USABLE, 0, cuts, i);
    PickNext(ks, cuts, i);
    BuiltNext(s, Pick(ks, cuts), ts, 0, leaf, ks[i]);
    FirstsNext(ts, Pick(ks, cuts), leaf, ks[i]);
    assert rows[i..i + 1] == [rows[i]];
  }

  lemma {:induction false} FirstsNext(ts: seq<Tree>, lows: seq<Key>, leaf: Tree, low: Key)
    requires Firsts(ts, lows) && |lows| == |ts| + 1 && leaf.LeafT? && leaf.rows != []
    requires RowKey(leaf.rows[0]) == lows[|ts|]
    ensures Firsts(ts + [leaf], lows + [low]) && Firsts(ts + [leaf], lows)
  {
    hide RowKey;
  }

  lemma {:induction false} FillEnd(s: Schema, table: nat, rows: seq<Row>, leaves: seq<Page>, page: Page, ts: seq<Tree>,
                                   cuts: seq<nat>)
    requires rows != [] && cuts != [] && cuts[|cuts| - 1] < |rows| && RowsOk(s, rows)
    requires Filling(s, table, rows, leaves, page, ts, cuts, |rows|)
    ensures cuts == LeafCuts(rows)
    ensures var a := cuts[|cuts| - 1]; var ts' := ts + [LeafT(page.id, rows[a..])]; var lows := Pick(RecordKeys(rows),
        cuts);
      && LeafPages(table, leaves + [page], ts') && Firsts(ts', lows)
      && LevelWf(s, lows, ts', 0) && LowsOk(s, lows) && RowsOf(ts') == rows
  {
    hide CutSoFar, RowSizes, RowKey, ValidRow, BuiltWf, LeafPages, Firsts, RowsOf, Sum, Pick, Wf, Increasing, Cuts;
    hide LevelWf, LowsOk;
    CutBounds(RowSizes(rows), LEAF_USABLE, 0, cuts, |rows|);
    OpenLeaf(s, table, rows, leaves, page, ts, cuts, |rows|);
    CutEnd(RowSizes(rows), LEAF_USABLE, 0, cuts);
    var a := cuts[|cuts| - 1];
    assert rows[a..|rows|] == rows[a..] && rows[..|rows|] == rows;
    var ks, leaf := RecordKeys(rows), LeafT(page.id, rows[a..]);
    RowKeysOk(s, rows);
    PickSorted(s, ks, cuts);
    BuiltLast(s, Pick(ks, cuts), ts, 0, leaf);
    FirstsNext(ts, Pick(ks, cuts), leaf, ks[0]);
  }

  lemma {:induction false} RowKeysOk(s: Schema, rows: seq<Row>)
    requires RowsOk(s, rows) && rows != []
    ensures LowsOk(s, RecordKeys(rows))
  {
    hide ValidKey, ValidRow, RowKey;
    forall i | 0 <= i < |rows|
      ensures ValidKey(s, RecordKeys(rows)[i])
    {
      ValidRowKey(s, rows[i]);
    }
  }

  /** The leaf loop of `vacuum`: packs the rows into leaves numbered from 1. */
  method PackLeaves(table: nat, s: Schema, rows: seq<Row>) returns (leaves: seq<Page>, n: nat, ghost ts: seq<Tree>)
    requires rows != [] && ValidSchema(s) && RowsOk(s, rows)
    ensures LeafPages(table, leaves, ts) && n == |leaves| + 1 && RowsOf(ts) == rows
    ensures var lows := Pick(RecordKeys(rows), LeafCuts(rows));
      Firsts(ts, lows) && LevelWf(s, lows, ts, 0) && LowsOk(s, lows)
    ensures ts == LeafTrees(table, rows, LeafCuts(rows))
  {
    hide Filling, RowSizes, Cuts, LevelWf, LowsOk, CanInsert, LeafInsert, ValidRow, Firsts, LeafPages, RowsOf, Pick;
    hide RowKey;
    hide LeavesSoFar, LeafTrees, LeafCuts;
    LeavesStart(table, rows);
    var page := Page(PageId(table, 1), 0, Leaf([], None, None));
    leaves, n, ts := [], 2, [];
    ghost var cuts: seq<nat> := [0];
    for i := 0 to |rows|
      invariant n == |leaves| + 2 && |leaves| == |ts| && page.id == PageId(table, |ts| + 1)
      invariant LeavesSoFar(table, rows, cuts, ts)
      invariant i == 0 ==> leaves == [] && page == Page(PageId(table, 1), 0, Leaf([], None, None)) && cuts == [0]
      invariant i > 0 ==> Filling(s, table, rows, leaves, page, ts, cuts, i) && cuts != [] && cuts[|cuts| - 1] < i
    {
      var row := rows[i];
      var checked := ValidateRow(s, row);
      FreshLeafTakes(s, rows, i, PageId(table, n));
      if CanInsert(page, row) {
        if i > 0 {
          FillAdd(s, table, rows, leaves, page, ts, cuts, i);
        } else {
          FirstRowIn(s, table, rows);
        }
        InsertKeepsLeaf(page, checked.value);
        page := LeafInsert(page, checked.value).value;
      } else {
        if i == 0 {
          FirstRowIn(s, table, rows);
          assert false;
        }
        ghost var a := cuts[|cuts| - 1];
        FillNew(s, table, rows, leaves, page, ts, cuts, i, Page(PageId(table, n), 0, Leaf([row], None, None)));
        LeavesNext(table, rows, cuts, ts, i);
        ts, cuts := ts + [LeafT(page.id, rows[a..i])], cuts + [i];
        leaves := leaves + [page];
        page := Page(PageId(table, n), 0, Leaf([], None, None));
        n := n + 1;
        page := LeafInsert(page, checked.value).value;
      }
    }
    FillEnd(s, table, rows, leaves, page, ts, cuts);
    LeavesDone(table, rows, cuts, ts);
    ghost var a := cuts[|cuts| - 1];
    leaves, ts := leaves + [page], ts + [LeafT(page.id, rows[a..])];
  }

  lemma {:induction false} LeavesStart(table: nat, rows: seq<Row>)
    requires rows != []
    ensures LeavesSoFar(table, rows, [0], [])
  {
  }

  lemma {:induction false} InsertKeepsLeaf(p: Page, row: Row)
    requires LeafInsert(p, row).Ok?
    ensures LeafInsert(p, row).value.id == p.id
  {
  }

  /** A row always fits into an empty leaf. */
  lemma {:induction false} FreshLeafTakes(s: Schema, rows: seq<Row>, i: nat, id: PageId)
    requires RowsOk(s, rows) && i < |rows|
    ensures LeafInsert(Page(id, 0, Leaf([], None, None)), rows[i]) == Ok(Page(id, 0, Leaf([rows[i]], None, None)))
    ensures CanInsert(Page(id, 0, Leaf([], None, None)), rows[i])
  {
    hide LeafEntrySize, RowKey, Search;
    assert ValidRow(s, rows[i]);
    assert LeafBytes([]) == 0;
    RowRoom(Page(id, 0, Leaf([], None, None)), rows[i]);
    assert [] + [rows[i]] == [rows[i]];
    AppendRow(Page(id, 0, Leaf([], None, None)), rows[i]);
  }

  lemma {:induction false} FirstRowIn(s: Schema, table: nat, rows: seq<Row>)
    requires RowsOk(s, rows) && rows != []
    ensures var page := Page(PageId(table, 1), 0, Leaf([], None, None));
      && CanInsert(page, rows[0]) && LeafInsert(page, rows[0]).Ok?
      && Filling(s, table, rows, [], LeafInsert(page, rows[0]).value, [], [0], 1)
  {
    hide CanInsert, LeafInsert, Filling, RowsOk;
    FreshLeafTakes(s, rows, 0, PageId(table, 1));
    FillStart(s, table, rows, Page(PageId(table, 1), 0, Leaf([rows[0]], None, None)));
  }

  // ------------------------------------------------------------------------ the leaf chain

  function PrevOf(leaves: seq<Page>, i: nat): Option<PageId> {
    if 0 < i <= |leaves| then Some(leaves[i - 1].id) else None
  }

  function NextOf(leaves: seq<Page>, i: nat): Option<PageId> {
    if i + 1 < |leaves| then Some(leaves[i + 1].id) else None
  }

  /** Links each leaf with its neighbours in the list. */
  method LinkLeaves(leaves: seq<Page>) returns (linked: seq<Page>)
    requires forall i :: 0 <= i < |leaves| ==> leaves[i].body.Leaf?
    ensures |linked| == |leaves|
    ensures forall i :: 0 <= i < |leaves| ==>
      linked[i] == leaves[i].(body := Leaf(leaves[i].body.records, NextOf(leaves, i), PrevOf(leaves, i)))
  {
    linked := leaves;
    for i := 0 to |leaves|
      invariant |linked| == |leaves|
      invariant forall j :: 0 <= j < i ==>
        linked[j] == leaves[j].(body := Leaf(leaves[j].body.records, NextOf(leaves, j), PrevOf(leaves, j)))
      invariant forall j :: i <= j < |leaves| ==> linked[j] == leaves[j]
    {
      var leaf := linked[i];
      leaf := leaf.(body := leaf.body.(prev := PrevOf(leaves, i)));
      leaf := leaf.(body := leaf.body.(next := NextOf(leaves, i)));
      linked := linked[i := leaf];
    }
  }

  /** The pages of a list, by number. */
  function StoreOf(ps: seq<Page>): Store {
    if ps == [] then map[] else StoreOf(ps[..|ps| - 1])[ps[|ps| - 1].id := ps[|ps| - 1]]
  }

  lemma {:induction false} StoreOfHas(table: nat, ps: seq<Page>)
    requires forall i :: 0 <= i < |ps| ==> ps[i].id == PageId(table, i + 1)
    ensures forall i :: 0 <= i < |ps| ==> ps[i].id in StoreOf(ps) && StoreOf(ps)[ps[i].id] == ps[i]
    ensures forall id :: id in StoreOf(ps) <==> id in AllIds(table, |ps| + 1)
    ensures (forall i :: 0 <= i < |ps| ==> ps[i].lsn == 0) ==>
      forall id :: id in StoreOf(ps) ==> StoreOf(ps)[id].lsn == 0
  {
    if ps == [] {
      assert (set i: nat | 1 <= i < 1 :: PageId(table, i)) == {};
    } else {
      var k := |ps| - 1;
      StoreOfHas(table, ps[..k]);
      AllIdsStep(table, k + 1);
      hide AllIds;
    }
  }

  lemma {:induction false} LeavesOnly(ts: seq<Tree>)
    requires forall g :: 0 <= g < |ts| ==> ts[g].LeafT?
    ensures LeavesOf(ts) == ts
    ensures KeyedAll(ts)
  {
    if ts != [] {
      LeavesOnly(ts[1..]);
      assert ts == [ts[0]] + ts[1..];
    }
  }

  lemma {:induction false} LeafNumbers(table: nat, ts: seq<Tree>)
    requires forall g :: 0 <= g < |ts| ==> ts[g].LeafT? && ts[g].id == PageId(table, g + 1)
    ensures IdsOf(ts) == AllIds(table, |ts| + 1)
  {
    if ts == [] {
      assert (set i: nat | 1 <= i < 1 :: PageId(table, i)) == {};
    } else {
      var k := |ts| - 1;
      LeafNumbers(table, ts[..k]);
      AllIdsStep(table, k + 1);
      hide AllIds;
      assert ts == ts[..k] + [ts[k]];
      IdsOfAppend(ts[..k], [ts[k]]);
      OneTree(map[], ts[k]);
    }
  }

  lemma {:induction false} NoTrees()
    ensures LeavesOf([]) == [] && IdsOf([]) == multiset{}
  {
  }

  /** The linked leaves are the lowest level. */
  lemma {:induction false} LeavesClosed(table: nat, leaves: seq<Page>, linked: seq<Page>, ts: seq<Tree>)
    requires LeafPages(table, leaves, ts) && |linked| == |leaves|
    requires forall i :: 0 <= i < |leaves| ==>
      linked[i] == leaves[i].(body := Leaf(ts[i].rows, NextOf(leaves, i), PrevOf(leaves, i)))
    ensures Closed(StoreOf(linked), table, |ts| + 1, [], ts, 0, ts) && KeyedAll(ts)
  {
    hide StoreOf, AllIds, LeavesOf, IdsOf, Keyed, RepT, Linked;
    var out := StoreOf(linked);
    StoreOfHas(table, linked);
    LeavesOnly(ts);
    LeafNumbers(table, ts);
    NoTrees();
    assert ts[0..] == ts && [] + ts == ts;
    forall i | 0 <= i < |ts|
      ensures Linked(out, ts, i) && RepT(out, ts[i])
    {
      LeafLinked(table, leaves, linked, ts, out, i);
    }
  }

  lemma {:induction false} LeafLinked(table: nat, leaves: seq<Page>, linked: seq<Page>, ts: seq<Tree>, out: Store,
                                      i: nat)
    requires LeafPages(table, leaves, ts) && |linked| == |leaves| && i < |ts|
    requires linked[i] == leaves[i].(body := Leaf(ts[i].rows, NextOf(leaves, i), PrevOf(leaves, i)))
    requires linked[i].id in out && out[linked[i].id] == linked[i]
    ensures Linked(out, ts, i) && RepT(out, ts[i])
  {
    assert linked[i].id == ts[i].id;
    assert NextOf(leaves, i) == IdAt(ts, i + 1) && PrevOf(leaves, i) == IdAt(ts, i - 1);
  }

  /** The lowest level: each leaf under its first key. */
  method FirstLevel(leaves: seq<Page>, ghost ts: seq<Tree>, ghost lows: seq<Key>) returns (level: seq<(Key, PageId)>)
    requires |leaves| == |ts| == |lows| && Firsts(ts, lows)
    requires forall i :: 0 <= i < |leaves| ==>
      leaves[i].id == ts[i].id && leaves[i].body.Leaf? && leaves[i].body.records == ts[i].rows
    ensures Entries(level, lows, ts)
  {
    hide RowKey;
    level := [];
    for i := 0 to |leaves|
      invariant Entries(level, lows[..i], ts[..i])
    {
      level := level + [(RowKey(leaves[i].body.records[0]), leaves[i].id)];
    }
    assert lows[..|lows|] == lows && ts[..|ts|] == ts;
  }

  // ------------------------------------------------------------------------ the whole table

  lemma {:induction false} SortedValid(s: Schema, rows: seq<Row>)
    requires SortedRows(rows) && AllValid(s, rows)
    ensures RowsOk(s, rows)
  {
    hide ValidRow, RowKey;
    forall i, j | 0 <= i < j < |rows|
      ensures KeyLess(RecordKeys(rows)[i], RecordKeys(rows)[j])
    {
    }
  }

  lemma {:induction false} TopLeaves(t: Tree)
    ensures AllLeaves(Top, t) == Leaves(t)
  {
    hide Leaves;
  }

  lemma {:induction false} TableRowsOk(s: Schema, pages: Store, m: PageId, t: Tree, h: nat, fl: seq<PageId>)
    requires Sound(s, pages, m, Top, t, h, fl)
    ensures RowsOk(s, RowsOf(AllLeaves(Top, t)))
  {
    hide Wf, RepT, Chain, Space, Leaves, RowsOf, AllLeaves, SortedRows, AllValid, RowsOk;
    TopLeaves(t);
    FocusSorted(s, Top, t, h);
    RowsValid(s, t, None, None, h);
    SortedValid(s, Rows(t));
  }

  /** One tree left: with the meta page, its pages are the new table. */
  lemma {:induction false} NewTable(s: Schema, out: Store, m: PageId, n: nat, lows: seq<Key>, ts: seq<Tree>, h: nat,
                                    ls: seq<Tree>, meta: Page)
    requires LevelWf(s, lows, ts, h) && |ts| == 1 && Closed(out, m.table, n, [], ts, 0, ls) && m.num == 0
    requires meta.id == m && meta.body.Meta? && meta.body.root == ts[0].id && meta.body.pageCount == n
    requires meta.body.freeHead == None && meta.body.schema == s && Fitting(meta)
    ensures Sound(s, out[m := meta], m, Top, ts[0], h, []) && AllLeaves(Top, ts[0]) == ls
  {
    hide Closed, RepT, LeavesOf, IdsOf, Leaves, Ids, AllIds, Chain, Wf, Fitting;
    var t, pages := ts[0], out[m := meta];
    LastTree(out, m.table, n, ts, ls);
    assert Wf(s, t, None, None, h);
    hide LevelWf;
    NewSpace(out, m, n, t, meta);
    assert Agree(out, pages, Ids(t));
    RepFrame(out, pages, t);
    ChainGrows(out, pages, ls);
    hide Space;
    assert AllLeaves(Top, t) == Leaves(t) == ls;
    assert CtxIds(Top) + Ids(t) == Ids(t);
  }

  lemma {:induction false} LastTree(out: Store, table: nat, n: nat, ts: seq<Tree>, ls: seq<Tree>)
    requires |ts| == 1 && Closed(out, table, n, [], ts, 0, ls)
    ensures RepT(out, ts[0]) && Leaves(ts[0]) == ls && Ids(ts[0]) == AllIds(table, n) && Chain(out, ls) && 1 <= n
    ensures forall id :: id in out <==> id in AllIds(table, n)
  {
    hide RepT, Leaves, Ids, AllIds, Chain;
    assert ts[0..] == [ts[0]];
    assert LeavesOf([]) == [] && IdsOf([]) == multiset{};
    OneTree(out, ts[0]);
    hide LeavesOf, IdsOf;
  }

  lemma {:induction false} NewSpace(out: Store, m: PageId, n: nat, t: Tree, meta: Page)
    requires Ids(t) == AllIds(m.table, n) && m.num == 0 && 1 <= n
    requires forall id :: id in out <==> id in AllIds(m.table, n)
    requires meta.id == m && meta.body.Meta? && meta.body.root == t.id && meta.body.pageCount == n
    requires meta.body.freeHead == None && Fitting(meta)
    ensures m !in out && Space(out[m := meta], m, Ids(t), [])
  {
    hide Ids;
    assert m !in AllIds(m.table, n);
    RootIdIn(t);
    assert t.id in AllIds(m.table, n) ==> t.id.table == m.table;
    hide AllIds;
    assert Ids(t) + multiset([]) == Ids(t);
    assert FreeChain(out[m := meta], []);
  }

  /** `Table::vacuum`. The new pages hold the same rows in the same order; no page is free and the page
      numbers are 1 to `page_count` - 1. Every internal page has a key exactly when `LoadKeyed`. On an
      empty table the source panics. */
  method Vacuum(tb: Table) returns (res: Result<(), PageError>)
    requires tb.Valid()
    modifies tb
    ensures tb.Valid() && tb.Contents() == old(tb.Contents())
    ensures res.Ok? <==> old(tb.Contents()) != map[]
    ensures res.Err? ==> res.error == Panic && tb.pages == old(tb.pages)
    ensures KeepsName(old(tb.pages), tb.pages, tb.m) && RowsStored(tb.pages) == old(RowsStored(tb.pages))
    ensures res.Ok? ==>
      && RowsOf(AllLeaves(Top, tb.tree)) == old(RowsOf(AllLeaves(Top, tb.tree)))
      && tb.free == []
      && tb.m in tb.pages && tb.pages[tb.m].body.Meta?
      && (forall id :: id in tb.pages <==>
          id == tb.m || (id.table == tb.m.table && 1 <= id.num < tb.pages[tb.m].body.pageCount))
      && (forall id :: id in tb.pages && id != tb.m ==> tb.pages[id].lsn == 0)
      && var rows := RowsOf(AllLeaves(Top, tb.tree));
         && rows != [] && SmallKeys(RecordKeys(rows)) && tb.tree == LoadTree(tb.m.table, rows)
         && (Keyed(tb.tree) <==> LoadKeyed(rows))
  {
    hide Sound, RowsOf, AllLeaves, Closed, LevelWf, LowsOk, Entries, KeyedAll, Keyed, LevelsKeyed, Cuts, Pick, Firsts;
    hide StoreOf, ToMap, SmallKeys, RowsOk, KeyCuts, LeafCuts, RecordKeys, UpLows;
    hide LoadFrom, LeafTrees, NodeTrees, Fitting, ValidSchema, MapOf, RowsStored, KeepsName;
    TableMeans(tb);
    ghost var m0, rows0 := tb.Contents(), RowsStored(tb.pages);
    KnownMeta(tb.schema, tb.pages, tb.m, Top, tb.tree, tb.height, tb.free);
    var rows := Scans.GetAll(tb, r => true);
    TableRowsOk(tb.schema, tb.pages, tb.m, tb.tree, tb.height, tb.free);
    NoEntries(rows);
    if rows == [] {
      NameStays(tb.pages, tb.m);
      return Err(Panic);
    }
    RowKeysOk(tb.schema, rows);
    ValidSmall(tb.schema, RecordKeys(rows));
    ghost var ls: seq<Tree>;
    var leaves, n;
    leaves, n, ls := PackLeaves(tb.m.table, tb.schema, rows);
    ghost var lows, ts, h := Pick(RecordKeys(rows), LeafCuts(rows)), ls, 0;
    ValidSmall(tb.schema, lows);
    SameLength(tb.schema, lows, ts, 0);
    var linked := LinkLeaves(leaves);
    LeavesClosed(tb.m.table, leaves, linked, ts);
    var level := FirstLevel(linked, ts, lows);
    EntriesLength(level, lows, ts);
    var out := StoreOf(linked);
    while |level| > 1
      invariant LowsOk(tb.schema, lows) && LevelWf(tb.schema, lows, ts, h) && Entries(level, lows, ts)
      invariant Closed(out, tb.m.table, n, [], ts, 0, ls)
      invariant SmallKeys(lows) && SmallKeys(RecordKeys(rows))
      invariant KeyedAll(ts) && LevelsKeyed(lows) <==> LoadKeyed(rows)
      invariant |level| == |lows| == |ts| >= 1 && LoadFrom(tb.m.table, n, lows, ts) == LoadTree(tb.m.table, rows)
      decreases |level|
      modifies {}
    {
      UpShrinks(lows);
      LevelsKeyedStep(lows);
      LoadStep(tb.m.table, n, lows, ts);
      level, n, out, ts := BuildInternalLevel(tb.m.table, level, n, out, tb.schema, lows, ts, h, ls);
      lows, h := UpLows(lows), h + 1;
      SameLength(tb.schema, lows, ts, h);
      EntriesLength(level, lows, ts);
    }
    EntryAt(level, lows, ts, 0);
    KnownMeta(tb.schema, tb.pages, tb.m, Top, tb.tree, tb.height, tb.free);
    var meta := tb.pages[tb.m];
    meta := meta.(body := meta.body.(root := level[0].1, pageCount := n, freeHead := None));
    FittingKept(tb.pages[tb.m], meta);
    NameKept(tb.pages, out, tb.m, meta);
    NewTable(tb.schema, out, tb.m, n, lows, ts, h, ls, meta);
    OneLevelKeyed(lows, ts);
    LoadEnd(tb.m.table, n, lows, ts);
    PageNumbers(out, tb.m, n, ts, ls);
    tb.pages := out[tb.m := meta];
    tb.tree, tb.height, tb.free := ts[0], h, [];
    tb.Mark();
    TableMeans(tb);
    SameRows(m0, rows0, RowsStored(tb.pages));
    res := Ok(());
  }

  lemma {:induction false} LoadStep(table: nat, n: nat, lows: seq<Key>, ts: seq<Tree>)
    requires |lows| == |ts| >= 2 && SmallKeys(lows)
    ensures |UpLows(lows)| == |KeyCuts(lows)| >= 1 && SmallKeys(UpLows(lows))
    ensures LoadFrom(table, n, lows, ts) ==
      LoadFrom(table, n + |KeyCuts(lows)|, UpLows(lows), NodeTrees(table, n, lows, ts, KeyCuts(lows)))
  {
    hide KeyCuts, SmallKeys, NodeTrees;
    UpShrinks(lows);
  }

  lemma {:induction false} LoadEnd(table: nat, n: nat, lows: seq<Key>, ts: seq<Tree>)
    requires |lows| == |ts| == 1 && SmallKeys(lows)
    ensures LoadFrom(table, n, lows, ts) == ts[0]
  {
  }

  lemma {:induction false} OneLevelKeyed(lows: seq<Key>, ts: seq<Tree>)
    requires SmallKeys(lows) && |lows| == |ts| == 1
    ensures LevelsKeyed(lows) && (KeyedAll(ts) <==> Keyed(ts[0]))
  {
  }

  lemma {:induction false} EntriesLength(level: seq<(Key, PageId)>, lows: seq<Key>, ts: seq<Tree>)
    requires Entries(level, lows, ts)
    ensures |level| == |lows| == |ts|
  {
  }

  lemma {:induction false} EntryAt(level: seq<(Key, PageId)>, lows: seq<Key>, ts: seq<Tree>, i: nat)
    requires Entries(level, lows, ts) && i < |level|
    ensures |level| == |lows| == |ts| && level[i] == (lows[i], ts[i].id)
  {
  }

  lemma {:induction false} KnownMeta(s: Schema, pages: Store, m: PageId, c: Ctx, t: Tree, h: nat, fl: seq<PageId>)
    requires Sound(s, pages, m, c, t, h, fl)
    ensures m in pages && pages[m].id == m && pages[m].body.Meta? && m.num == 0 && pages[m].body.schema == s
    ensures Fitting(pages[m]) && ValidSchema(s)
  {
    hide Shape, ValidSchema;
  }

  lemma {:induction false} NameKept(pages: Store, out: Store, m: PageId, meta: Page)
    requires m in pages && pages[m].body.Meta? && meta.body.Meta?
    requires meta == pages[m].(body := pages[m].body.(root := meta.body.root, pageCount := meta.body.pageCount,
                                                      freeHead := None))
    ensures KeepsName(pages, out[m := meta], m)
  {
  }

  lemma {:induction false} NameStays(pages: Store, m: PageId)
    requires m in pages && pages[m].body.Meta?
    ensures KeepsName(pages, pages, m)
  {
  }

  lemma {:induction false} PageNumbers(out: Store, m: PageId, n: nat, ts: seq<Tree>, ls: seq<Tree>)
    requires Closed(out, m.table, n, [], ts, 0, ls)
    ensures forall id :: id in out <==> id.table == m.table && 1 <= id.num < n
    ensures forall id :: id in out ==> out[id].lsn == 0
  {
    hide RepAll, Chain, LeavesOf, IdsOf;
    forall id: PageId
      ensures id in AllIds(m.table, n) <==> id.table == m.table && 1 <= id.num < n
    {
      if id.table == m.table && 1 <= id.num < n {
        assert id == PageId(m.table, id.num);
      }
    }
  }
}

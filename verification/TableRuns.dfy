/** Whole runs of a client against a table, and the table's own check of its pages (`src/table/mod.rs`). */
module TableRuns {
  import opened Common
  import opened Schemas
  import opened Pages
  import opened Trees
  import opened Stores
  import opened Focus
  import opened Contents
  import opened Tables
  import opened Inserting
  import opened Inserts
  import opened Finding
  import opened Lookups
  import opened Scans
  import opened InsertMethods
  import opened DeleteMethods
  import opened Deleting
  import opened Accounting
  import opened Packing
  import opened Vacuuming
  import Steps

  /** What a client asks of a table; `Compact` is `vacuum`. */
  datatype Request =
    | Put(row: Row)
    | Remove(key: Key)
    | Find(key: Key)
    | Scan(start: Bound, end: Bound, filter: Row -> bool)
    | Compact

  datatype Answer =
    | Stored | Invalid | Duplicate
    | Had(row: Option<Row>)
    | Selected(rows: seq<Row>)
    | Compacted
    | Failed(error: PageError)

  /** The map after one request. */
  function Effect(s: Schema, m: map<Key, Row>, req: Request): map<Key, Row> {
    match req
    case Put(row) => if ValidRow(s, row) && RowKey(row) !in m then m[RowKey(row) := row] else m
    case Remove(k) => m - {k}
    case _ => m
  }

  function EffectAll(s: Schema, m: map<Key, Row>, reqs: seq<Request>): map<Key, Row> {
    if reqs == [] then m
    else Effect(s, EffectAll(s, m, reqs[..|reqs| - 1]), reqs[|reqs| - 1])
  }

  /** The one answer that the map gives. */
  ghost predicate Answers(s: Schema, m: map<Key, Row>, req: Request, ans: Answer) {
    match req
    case Put(row) => ans == if !ValidRow(s, row) then Invalid else if RowKey(row) in m then Duplicate else Stored
    case Remove(k) => ans == Had(if k in m then Some(m[k]) else None)
    case Find(k) => ans == Had(if k in m then Some(m[k]) else None)
    case Scan(start, end, f) =>
      && ans.Selected? && SortedRows(ans.rows)
      && (forall r :: r in ans.rows <==> RowKey(r) in m && m[RowKey(r)] == r && InRange(RowKey(r), start, end) && f(r))
    case Compact => ans == Compacted
  }

  /** A vacuum of a table with these contents goes through and gives every internal page a key. */
  ghost predicate CompactsWell(m: map<Key, Row>) {
    m != map[] && forall rows :: SortedRows(rows) && ToMap(rows) == m ==>
        rows != [] && SmallKeys(RecordKeys(rows)) && LoadKeyed(rows)
  }

  /** One request. It is answered as the map answers it, except a deletion exactly when it does not fit, and a
      vacuum exactly when there is no row. */
  method Serve(tb: Table, req: Request) returns (ans: Answer)
    requires tb.Valid()
    modifies tb
    ensures ans.Failed? <==>
      (req.Remove? && !old(DeleteFits(tb.tree, req.key))) || (req.Compact? && old(tb.Contents()) == map[])
    ensures ans == Failed(Panic) <==>
      (req.Remove? && old(DeletePanics(tb.tree, req.key))) || (req.Compact? && old(tb.Contents()) == map[])
    ensures ans.Failed? ==> ans == Failed(Panic) || (ans == Failed(PageFull) && !IntKeyed(tb.schema))
    ensures !ans.Failed? ==> tb.Valid() && tb.Contents() == Effect(tb.schema, old(tb.Contents()), req)
    ensures !ans.Failed? ==> Answers(tb.schema, old(tb.Contents()), req, ans)
    ensures old(Keyed(tb.tree)) && !req.Compact? ==> ans != Failed(Panic) && (!ans.Failed? ==> Keyed(tb.tree))
    ensures req.Compact? && !ans.Failed? ==> (Keyed(tb.tree) <==> CompactsWell(tb.Contents()))
    ensures KeepsName(old(tb.pages), tb.pages, tb.m)
  {
    hide Sound, Keyed, ToMap, RowsOf, AllLeaves, ValidRow, RowKey, DeleteFits, DeletePanics, IntKeyed;
    hide Spelled, LostAt, FailedDelete, SortedRows, InRange, Select, Finding.Find, CompactsWell, LoadKeyed, LoadTree;
    hide SmallKeys, RecordKeys, ValidSchema, Fitting, Steps.Replay;
    KnownMeta(tb.schema, tb.pages, tb.m, Top, tb.tree, tb.height, tb.free);
    match req {
      case Put(row) =>
        var checked := ValidateRow(tb.schema, row);
        if checked.Err? {
          return Invalid;
        }
        var res := Insert(tb, row);
        ans := if res.Ok? then Stored else Duplicate;
      case Remove(k) =>
        var res := Delete(tb, k);
        ans := match res case Ok(row) => Had(row) case Err(e) => Failed(e);
      case Find(k) =>
        SoundIsSpelled(tb.schema, tb.pages, tb.m, tb.tree, tb.height, tb.free);
        var row := Get(tb, k);
        ans := Had(row);
      case Scan(start, end, f) =>
        var rows := GetRange(tb, start, end, f);
        ans := Selected(rows);
      case Compact =>
        var res := Vacuum(tb);
        if res.Ok? {
          OneLoad(tb);
        }
        ans := match res case Ok(_) => Compacted case Err(e) => Failed(e);
    }
  }

  /** A map has its rows in one order only, so whether its bulk load has a key in every page depends on it alone. */
  lemma {:induction false} OneLoad(tb: Table)
    requires tb.Valid() && tb.Contents() != map[]
    requires var rows := RowsOf(AllLeaves(Top, tb.tree)); rows != [] && SmallKeys(RecordKeys(rows))
    ensures CompactsWell(tb.Contents()) <==> LoadKeyed(RowsOf(AllLeaves(Top, tb.tree)))
  {
    hide Wf, RepT, Chain, Space, RowsOf, AllLeaves, ToMap, RowKey, SortedRows, LoadKeyed, SmallKeys, RecordKeys;
    var rows := RowsOf(AllLeaves(Top, tb.tree));
    FocusSorted(tb.schema, Top, tb.tree, tb.height);
    forall other | SortedRows(other) && ToMap(other) == tb.Contents()
      ensures other == rows
    {
      SortedUnique(other, rows);
    }
  }

  /** The first `n` answers of a run are those of the map. */
  ghost predicate Answered(s: Schema, m: map<Key, Row>, reqs: seq<Request>, anss: seq<Answer>, n: nat)
    requires n <= |reqs| && n <= |anss|
  {
    forall i :: 0 <= i < n ==> !anss[i].Failed? && Answers(s, EffectAll(s, m, reqs[..i]), reqs[i], anss[i])
  }

  lemma {:induction false} AnsweredNext(s: Schema, m: map<Key, Row>, reqs: seq<Request>, anss: seq<Answer>, ans: Answer)
    requires |anss| < |reqs| && Answered(s, m, reqs, anss, |anss|)
    ensures Answered(s, m, reqs, anss + [ans], |anss|)
    ensures var n := |anss|;
      !ans.Failed? && Answers(s, EffectAll(s, m, reqs[..n]), reqs[n], ans) ==> Answered(s, m, reqs, anss + [ans], n + 1)
    ensures EffectAll(s, m, reqs[..|anss| + 1]) == Effect(s, EffectAll(s, m, reqs[..|anss|]), reqs[|anss|])
  {
    hide Answers, Effect;
    var n := |anss|;
    assert reqs[..n + 1][..n] == reqs[..n];
  }

  /** Every vacuum of this run leaves a key in every internal page. */
  ghost predicate AllCompactWell(s: Schema, m: map<Key, Row>, reqs: seq<Request>) {
    forall i :: 0 <= i < |reqs| && reqs[i].Compact? ==> CompactsWell(EffectAll(s, m, reqs[..i]))
  }

  lemma {:induction false} CompactWellAt(s: Schema, m: map<Key, Row>, reqs: seq<Request>, i: nat)
    requires AllCompactWell(s, m, reqs) && i < |reqs| && reqs[i].Compact?
    ensures CompactsWell(EffectAll(s, m, reqs[..i])) && EffectAll(s, m, reqs[..i]) != map[]
  {
    hide EffectAll;
  }

  /** A run of requests up to the first one that fails, if any. Every answer before it is the map's. On a table
      with integer keys and a key in every internal page none fails, as long as every vacuum leaves it so. */
  method Run(tb: Table, reqs: seq<Request>) returns (anss: seq<Answer>, failed: bool)
    requires tb.Valid()
    modifies tb
    ensures failed ==> 0 < |anss| <= |reqs|
    ensures failed ==> anss[|anss| - 1].Failed? && (reqs[|anss| - 1].Remove? || reqs[|anss| - 1].Compact?)
    ensures failed && reqs[|anss| - 1].Compact? ==>
      anss[|anss| - 1] == Failed(Panic) && EffectAll(tb.schema, old(tb.Contents()), reqs[..|anss| - 1]) == map[]
    ensures failed ==> Answered(tb.schema, old(tb.Contents()), reqs, anss, |anss| - 1)
    ensures !failed ==> |anss| == |reqs| && Answered(tb.schema, old(tb.Contents()), reqs, anss, |reqs|)
    ensures !failed ==> tb.Valid() && tb.Contents() == EffectAll(tb.schema, old(tb.Contents()), reqs)
    ensures !failed && old(Keyed(tb.tree)) && AllCompactWell(tb.schema, old(tb.Contents()), reqs) ==> Keyed(tb.tree)
    ensures old(Keyed(tb.tree)) && IntKeyed(tb.schema) && AllCompactWell(tb.schema, old(tb.Contents()), reqs) ==>
      !failed
    ensures KeepsName(old(tb.pages), tb.pages, tb.m)
  {
    hide Sound, Keyed, ToMap, RowsOf, AllLeaves, Effect, Answers, IntKeyed, DeleteFits, DeletePanics;
    hide Answered, EffectAll, CompactsWell, AllCompactWell;
    anss, failed := [], false;
    ghost var m, pages := tb.Contents(), tb.pages;
    KnownMeta(tb.schema, tb.pages, tb.m, Top, tb.tree, tb.height, tb.free);
    ghost var keyed := Keyed(tb.tree) && AllCompactWell(tb.schema, m, reqs);
    NoRequests(tb.schema, m, reqs);
    for k := 0 to |reqs|
      invariant tb.Valid() && |anss| == k && (keyed ==> Keyed(tb.tree)) && KeepsName(pages, tb.pages, tb.m)
      invariant tb.Contents() == EffectAll(tb.schema, m, reqs[..k]) && Answered(tb.schema, m, reqs, anss, k)
    {
      if keyed && reqs[k].Compact? {
        CompactWellAt(tb.schema, m, reqs, k);
      }
      var ans := Serve(tb, reqs[k]);
      if reqs[k].Compact? && !ans.Failed? {
        CompactKeeps(tb.schema, tb.Contents(), EffectAll(tb.schema, m, reqs[..k]), reqs[k]);
      }
      AnsweredNext(tb.schema, m, reqs, anss, ans);
      anss := anss + [ans];
      if ans.Failed? {
        failed := true;
        return;
      }
    }
    assert reqs[..|reqs|] == reqs;
  }

  lemma {:induction false} CompactKeeps(s: Schema, m': map<Key, Row>, m: map<Key, Row>, req: Request)
    requires req.Compact? && m' == Effect(s, m, req)
    ensures m' == m
  {
  }

  lemma {:induction false} NoRequests(s: Schema, m: map<Key, Row>, reqs: seq<Request>)
    ensures EffectAll(s, m, reqs[..0]) == m && Answered(s, m, reqs, [], 0)
  {
  }

  // ------------------------------------------------------------------- space accounting

  /** Pages 1 to `page_count` - 1 are exactly the pages of the tree and of the free list, each once. */
  lemma {:induction false} ExactAccounting(s: Schema, pages: Store, m: PageId, t: Tree, h: nat, fl: seq<PageId>, n: nat)
    requires Sound(s, pages, m, Top, t, h, fl)
    ensures m in pages && pages[m].body.Meta?
    ensures var id := PageId(m.table, n);
      if 1 <= n < pages[m].body.pageCount then Ids(t)[id] + multiset(fl)[id] == 1 && id in pages
      else id !in Ids(t) && id !in fl
  {
    hide Wf, RepT, Chain, Ids;
    var id := PageId(m.table, n);
    assert CtxIds(Top) + Ids(t) == Ids(t);
    var all := AllIds(m.table, pages[m].body.pageCount);
    assert (Ids(t) + multiset(fl))[id] == all[id];
    assert all[id] == if 1 <= n < pages[m].body.pageCount then 1 else 0;
  }

  function Size(t: Tree): (n: nat)
    ensures n >= 1
    decreases t
  {
    if t.LeafT? then 1 else 1 + SizeOf(t.kids)
  }

  function SizeOf(ts: seq<Tree>): nat
    decreases ts
  {
    if ts == [] then 0 else Size(ts[0]) + SizeOf(ts[1..])
  }

  lemma {:induction false} SizeOfAppend(a: seq<Tree>, b: seq<Tree>)
    ensures SizeOf(a + b) == SizeOf(a) + SizeOf(b)
  {
    if a == [] {
      assert a + b == b;
    } else {
      assert (a + b)[1..] == a[1..] + b;
      SizeOfAppend(a[1..], b);
    }
  }

  function Elems(ids: seq<PageId>): set<PageId> {
    set x | x in ids
  }

  /** The pages still to be visited and those seen make up the tree. */
  ghost predicate Walk(pages: Store, stack: seq<PageId>, ts: seq<Tree>, seen: set<PageId>, all: multiset<PageId>) {
    stack == RootIds(ts) && RepAll(pages, ts) && multiset(seen) + IdsOf(ts) == all && Distinct(all)
  }

  lemma {:induction false} WalkStep(pages: Store, stack: seq<PageId>, ts: seq<Tree>, seen: set<PageId>,
                                    all: multiset<PageId>)
    requires Walk(pages, stack, ts, seen, all) && stack != []
    ensures var t := ts[|ts| - 1]; var kids := if t.NodeT? then t.kids else [];
      && |stack| == |ts| && stack[|stack| - 1] == t.id && t.id !in seen && t.id in pages
      && (if t.NodeT? then pages[t.id].body.Internal?
        && pages[t.id].body.children == RootIds(kids) else pages[t.id].body.Leaf?)
      && Walk(pages, stack[..|stack| - 1] + RootIds(kids), ts[..|ts| - 1] + kids, seen + {t.id}, all)
      && SizeOf(ts[..|ts| - 1] + kids) < SizeOf(ts)
  {
    hide RootIds, Ids, IdsOf, RepT, SizeOf, Size;
    var n := |ts| - 1;
    var t := ts[n];
    var kids := if t.NodeT? then t.kids else [];
    var rest := ts[..n];
    RootsAndPages(pages, ts);
    TopParts(rest, t, kids);
    assert ts == rest + [t];
    NotSeen(all, seen, IdsOf(rest), t.id, IdsOf(kids));
    SeenOne(all, seen, IdsOf(rest), t.id, IdsOf(kids));
  }

  /** The page on top of the stack and the pages below it. */
  lemma {:induction false} RootsAndPages(pages: Store, ts: seq<Tree>)
    requires RepAll(pages, ts) && ts != []
    ensures var t, rest := ts[|ts| - 1], ts[..|ts| - 1]; var kids := if t.NodeT? then t.kids else [];
      && RootIds(ts) == RootIds(rest) + [t.id] && RootIds(rest + kids) == RootIds(rest) + RootIds(kids)
      && |RootIds(ts)| == |ts|
      && t.id in pages && RepAll(pages, rest + kids)
      && (if t.NodeT? then pages[t.id].body.Internal?
        && pages[t.id].body.children == RootIds(kids) else pages[t.id].body.Leaf?)
  {
    var t, rest := ts[|ts| - 1], ts[..|ts| - 1];
    var kids := if t.NodeT? then t.kids else [];
    assert RepT(pages, t);
    assert RepAll(pages, kids) && RepAll(pages, rest);
    assert ts == rest + [t];
    hide RepT;
    RepAllAppend(pages, rest, kids);
  }

  lemma {:induction false} TopParts(rest: seq<Tree>, t: Tree, kids: seq<Tree>)
    requires kids == if t.NodeT? then t.kids else []
    ensures IdsOf(rest + [t]) == IdsOf(rest) + (multiset{t.id} + IdsOf(kids))
    ensures IdsOf(rest + kids) == IdsOf(rest) + IdsOf(kids)
    ensures SizeOf(rest + kids) < SizeOf(rest + [t])
  {
    assert [t][1..] == [];
    IdsOfAppend(rest, [t]);
    IdsOfAppend(rest, kids);
    SizeOfAppend(rest, [t]);
    SizeOfAppend(rest, kids);
    assert IdsOf([t]) == Ids(t) + IdsOf([]) && SizeOf([t]) == Size(t) + SizeOf([]);
  }

  lemma {:induction false} SeenOne(all: multiset<PageId>, seen: set<PageId>, a: multiset<PageId>, id: PageId,
                                   b: multiset<PageId>)
    requires multiset(seen) + (a + (multiset{id} + b)) == all && id !in seen
    ensures multiset(seen + {id}) + (a + b) == all
  {
    assert multiset(seen + {id}) == multiset(seen) + multiset{id};
  }

  lemma {:induction false} NotSeen(all: multiset<PageId>, seen: set<PageId>, a: multiset<PageId>, id: PageId,
                                   b: multiset<PageId>)
    requires multiset(seen) + (a + (multiset{id} + b)) == all && Distinct(all)
    ensures id !in seen
  {
    assert all[id] == multiset(seen)[id] + a[id] + 1 + b[id];
    assert id in all;
  }

  /** Collects the pages reachable from the root, none of them twice. */
  method PagesInTree(tb: Table) returns (ok: bool, inTree: set<PageId>)
    requires tb.Valid()
    ensures ok && multiset(inTree) == Ids(tb.tree)
  {
    hide Sound, Walk, RootIds, Ids, IdsOf, SizeOf, Space, Head;
    KnownTable(tb.schema, tb.pages, tb.m, tb.tree, tb.height, tb.free);
    var stack := [tb.pages[tb.m].body.root];
    inTree := {};
    ghost var ts := [tb.tree];
    while stack != []
      invariant Walk(tb.pages, stack, ts, inTree, Ids(tb.tree))
      decreases SizeOf(ts)
    {
      WalkStep(tb.pages, stack, ts, inTree, Ids(tb.tree));
      var id := stack[|stack| - 1];
      stack := stack[..|stack| - 1];
      if id in inTree {
        return false, inTree;
      }
      inTree := inTree + {id};
      var page := tb.pages[id];
      if page.body.Internal? {
        stack := stack + page.body.children;
      }
      ghost var t := ts[|ts| - 1];
      ts := ts[..|ts| - 1] + (if t.NodeT? then t.kids else []);
      assert page.body.Leaf? ==> stack + RootIds([]) == stack by { NoRoots(); }
    }
    WalkDone(tb.pages, ts, inTree, Ids(tb.tree));
    ok := true;
  }

  /** `check_space_accounting`: it walks the tree and the free list, and none of its assertions ever
      fails on a table between operations. */
  method CheckSpaceAccounting(tb: Table) returns (ok: bool)
    requires tb.Valid()
    ensures ok
  {
    hide Sound, Ids, Space, Head, Elems, Walk;
    KnownTable(tb.schema, tb.pages, tb.m, tb.tree, tb.height, tb.free);
    var pageCount := tb.pages[tb.m].body.pageCount;
    var once, inTree := PagesInTree(tb);
    var onFree: set<PageId> := {};
    var cur := tb.pages[tb.m].body.freeHead;
    ghost var i := 0;
    NoElems(tb.free);
    while cur.Some?
      invariant 0 <= i <= |tb.free| && cur == Head(tb.free[i..]) && onFree == Elems(tb.free[..i]) && |onFree| == i
      decreases |tb.free| - i
    {
      FreeStep(tb.pages, tb.m, Ids(tb.tree), tb.free, i);
      var id := cur.value;
      if id in onFree {
        return false;
      }
      onFree := onFree + {id};
      cur := tb.pages[id].body.nextFree;
      i := i + 1;
    }
    FreeEnd(tb.pages, tb.m, Ids(tb.tree), tb.free, i, inTree);
    ok := once && inTree !! onFree && |inTree| + |onFree| == pageCount - 1;
  }

  lemma {:induction false} NoElems(fl: seq<PageId>)
    ensures Elems(fl[..0]) == {} && fl[0..] == fl
  {
  }

  lemma {:induction false} NoRoots()
    ensures RootIds([]) == []
  {
  }

  lemma {:induction false} KnownTable(s: Schema, pages: Store, m: PageId, t: Tree, h: nat, fl: seq<PageId>)
    requires Sound(s, pages, m, Top, t, h, fl)
    ensures m in pages && pages[m].body.Meta? && pages[m].body.root == t.id && pages[m].body.freeHead == Head(fl)
    ensures Space(pages, m, Ids(t), fl) && Walk(pages, [t.id], [t], {}, Ids(t))
  {
    hide Wf, RepT, Chain, Ids, Partition, FreeChain;
    assert CtxIds(Top) + Ids(t) == Ids(t);
    SpaceGivesDistinct(pages, m, Ids(t), fl);
    assert [t][1..] == [];
    assert IdsOf([t]) == Ids(t) + IdsOf([]);
    assert RootIds([t]) == [t.id];
  }

  lemma {:induction false} WalkDone(pages: Store, ts: seq<Tree>, seen: set<PageId>, all: multiset<PageId>)
    requires Walk(pages, [], ts, seen, all)
    ensures multiset(seen) == all
  {
    assert |RootIds(ts)| == |ts|;
    assert ts == [] && IdsOf([]) == multiset{};
  }

  lemma {:induction false} FreeStep(pages: Store, m: PageId, used: multiset<PageId>, fl: seq<PageId>, i: nat)
    requires Space(pages, m, used, fl) && i <= |fl| && Head(fl[i..]).Some?
    ensures i < |fl| && Head(fl[i..]) == Some(fl[i]) && fl[i] in pages && pages[fl[i]].body == Free(Head(fl[i + 1..]))
    ensures fl[i] !in Elems(fl[..i]) && Elems(fl[..i + 1]) == Elems(fl[..i]) + {fl[i]}
  {
    hide Partition, FreeChain;
    SpaceDistinct(pages, m, used, fl);
    FreeListAcyclic(fl);
    FreeAt(pages, fl, i);
    assert fl[..i + 1] == fl[..i] + [fl[i]];
  }

  lemma {:induction false} FreeAt(pages: Store, fl: seq<PageId>, i: nat)
    requires FreeChain(pages, fl) && i < |fl|
    ensures fl[i] in pages && pages[fl[i]].body == Free(Head(fl[i + 1..]))
  {
  }

  lemma {:induction false} FreeEnd(pages: Store, m: PageId, used: multiset<PageId>, fl: seq<PageId>, i: nat,
                                   seen: set<PageId>)
    requires Space(pages, m, used, fl) && i <= |fl| && Head(fl[i..]).None? && multiset(seen) == used
    ensures i == |fl| && seen !! Elems(fl[..i]) && |seen| + |fl| == pages[m].body.pageCount - 1
  {
    hide FreeChain, AllIds;
    SpaceDistinct(pages, m, used, fl);
    assert fl[..|fl|] == fl;
    AllIdsCount(m.table, pages[m].body.pageCount);
    assert |multiset(seen)| == |seen| && |multiset(fl)| == |fl|;
    assert |used + multiset(fl)| == |used| + |multiset(fl)|;
    forall x | x in seen
      ensures x !in fl
    {
      assert x in multiset(seen);
    }
  }

  lemma {:induction false} AllIdsCount(table: nat, n: nat)
    requires 1 <= n
    ensures |AllIds(table, n)| == n - 1
  {
    if n == 1 {
      assert (set i: nat | 1 <= i < 1 :: PageId(table, i)) == {};
    } else {
      AllIdsCount(table, n - 1);
      AllIdsStep(table, n - 1);
    }
  }
}

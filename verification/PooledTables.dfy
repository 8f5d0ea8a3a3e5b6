/** A table over the buffer pool: the requests that an operation of `Tables.Table` makes, carried out on the pool.
    With the pool behind it, a page store and a set of latches change exactly as the table's own steps say, until a
    frame is needed and every frame is latched. */
module PooledTables {
  import opened Common
  import opened Schemas
  import opened Pages
  import opened Stores
  import opened PageCodec
  import opened Pools
  import opened BufferPools
  import opened PoolRuns
  import opened Tables
  import opened Steps
  import opened Trees
  import opened Deleting
  import Focus
  import Contents
  import InsertMethods
  import DeleteMethods

  ghost predicate Shows(views: Views, pages: Store) {
    forall id :: views(id) == if id in pages then Some(pages[id]) else None
  }

  /** Every page can be written and comes back. */
  ghost predicate Safe(pages: Store) {
    forall id :: id in pages ==> Encodable(pages[id]) && Returns(pages[id])
  }

  /** The pool shows these pages, and the client's guards are write guards on the latched ones. */
  ghost predicate Mirrors(pool: BufferPool, open: seq<Guard>, s: State)
    reads pool, pool.frames, pool.clock
  {
    && OpenIds(open) == s.held && (forall i :: 0 <= i < |open| ==> open[i].wr) && Safe(s.pages)
    && exists views :: Shows(views, s.pages) && Agrees(pool, views, open)
  }

  // ------------------------------------------------------------------------ single steps

  /** `fetch_write`: the page is latched and its contents are what the store holds, unless all frames are taken. */
  method FetchWrite(pool: BufferPool, open: seq<Guard>, id: PageId, ghost s: State)
    returns (res: Result<Page, BpmError>, open': seq<Guard>)
    requires Mirrors(pool, open, s) && id in s.pages && id !in s.held
    modifies pool, pool.frames, pool.clock
    ensures |s.held| <= pool.frames.Length
    ensures res.Ok? <==> |s.held| < pool.frames.Length
    ensures res.Ok? ==> Mirrors(pool, open', Next(s, Latch(id))) && res.value == s.pages[id]
    ensures res.Ok? ==> |open'| == |open| + 1 && open'[..|open|] == open && open'[|open|].id == id
    ensures res.Err? ==> res.error == NoFreeFrames && open' == open && Mirrors(pool, open, s)
  {
    hide Agrees, OpenIds, Encodable, Returns, Blocked;
    ghost var views: Views :| Shows(views, s.pages) && Agrees(pool, views, open);
    NoneOpen(open, id);
    NotBlocked(views, s.pages, open);
    HeldFit(pool, views, open);
    var ans;
    ans, open' := Serve(pool, Fetch(id, true), open, views);
    if ans.Failed? {
      return Err(ans.error), open;
    }
    OpenMore(open, open');
    var got, _ := Serve(pool, Read(|open|), open', views);
    res := Ok(got.page);
  }

  /** A read guard, dropped at once. */
  method Look(pool: BufferPool, open: seq<Guard>, id: PageId, ghost s: State) returns (res: Result<Page, BpmError>)
    requires Mirrors(pool, open, s) && id in s.pages && id !in s.held
    modifies pool, pool.frames, pool.clock
    ensures |s.held| <= pool.frames.Length
    ensures res.Ok? <==> |s.held| < pool.frames.Length
    ensures res.Ok? ==> res.value == s.pages[id]
    ensures res.Err? ==> res.error == NoFreeFrames
    ensures Mirrors(pool, open, s)
  {
    hide Agrees, OpenIds, Encodable, Returns, Blocked;
    ghost var views: Views :| Shows(views, s.pages) && Agrees(pool, views, open);
    NoneOpen(open, id);
    NotBlocked(views, s.pages, open);
    HeldFit(pool, views, open);
    var ans, open1 := Serve(pool, Fetch(id, false), open, views);
    if ans.Failed? {
      return Err(ans.error);
    }
    var got, _ := Serve(pool, Read(|open|), open1, views);
    var _, open2 := Serve(pool, PoolRuns.Drop(|open|), open1, views);
    assert open2 == open;
    res := Ok(got.page);
  }

  /** Writing through the guard at position `g`. */
  method Put(pool: BufferPool, open: seq<Guard>, g: nat, p: Page, ghost s: State)
    requires Mirrors(pool, open, s) && g < |open| && open[g].id == p.id && Typed(p) && Returns(p) && Encodable(p)
    modifies pool, pool.frames, pool.clock
    ensures Mirrors(pool, open, Next(s, Steps.Write(p)))
  {
    hide Agrees, OpenIds, After, Encodable, Returns, Typed;
    ghost var views: Views :| Shows(views, s.pages) && Agrees(pool, views, open);
    var ans, open' := Serve(pool, PoolRuns.Write(g, p), open, views);
    ShowsWritten(views, s.pages, PoolRuns.Write(g, p), ans);
  }

  /** Dropping the guard at position `g`. */
  method Release(pool: BufferPool, open: seq<Guard>, g: nat, ghost s: State) returns (open': seq<Guard>)
    requires Mirrors(pool, open, s) && g < |open|
    modifies pool, pool.frames, pool.clock
    ensures Mirrors(pool, open', s.(held := s.held - {open[g].id})) && |open'| == |open| - 1
  {
    hide Agrees, OpenIds, Impossible, Encodable, Returns;
    ghost var views: Views :| Shows(views, s.pages) && Agrees(pool, views, open);
    AloneOpen(pool, views, open, g);
    CanDrop(open, g);
    var ans;
    ans, open' := Serve(pool, PoolRuns.Drop(g), open, views);
  }

  /** `new_page`: a page the store has not seen, latched, unless all frames are taken. */
  method NewPage(pool: BufferPool, open: seq<Guard>, p: Page, ghost s: State)
    returns (res: Result<(), BpmError>, open': seq<Guard>)
    requires Mirrors(pool, open, s) && p.id !in s.pages && Typed(p) && Returns(p) && Encodable(p)
    modifies pool, pool.frames, pool.clock
    ensures |s.held| <= pool.frames.Length
    ensures res.Ok? <==> |s.held| < pool.frames.Length
    ensures res.Ok? ==> Mirrors(pool, open', Next(s, Make(p)))
    ensures res.Err? ==> res.error == NoFreeFrames && open' == open && Mirrors(pool, open, s)
  {
    hide Agrees, OpenIds, After, Encodable, Returns, Typed, Blocked, Safe;
    ghost var views: Views :| Shows(views, s.pages) && Agrees(pool, views, open);
    SafePut(s.pages, p);
    HeldExist(pool, views, open, p.id);
    NotBlocked(views, s.pages, open);
    HeldFit(pool, views, open);
    var ans;
    ans, open' := Serve(pool, Create(p), open, views);
    if ans.Failed? {
      NotWritten(views, Create(p), ans);
      return Err(ans.error), open;
    }
    OpenMore(open, open');
    ShowsWritten(views, s.pages, Create(p), ans);
    res := Ok(());
  }

  // ------------------------------------------------------------------------- whole lists

  /** Where the guard on `id` is. */
  method GuardOn(open: seq<Guard>, id: PageId) returns (g: nat)
    requires id in OpenIds(open)
    ensures g < |open| && open[g].id == id
  {
    g := 0;
    while open[g].id != id
      invariant g < |open| && exists i :: g <= i < |open| && open[i].id == id
      decreases |open| - g
    {
      g := g + 1;
    }
  }

  /** Drops the guards on these pages. */
  method ReleaseEach(pool: BufferPool, open: seq<Guard>, ids: seq<PageId>, ghost s: State) returns (open': seq<Guard>)
    requires Mirrors(pool, open, s)
    modifies pool, pool.frames, pool.clock
    ensures Mirrors(pool, open', Next(s, Unlatch(ids)))
  {
    hide Agrees, Encodable, Returns, OpenIds;
    open' := open;
    assert s == Next(s, Unlatch(ids[..0]));
    for k := 0 to |ids|
      invariant Mirrors(pool, open', Next(s, Unlatch(ids[..k])))
    {
      UnlatchOne(s, ids, k);
      if ids[k] in OpenIds(open') {
        var g := GuardOn(open', ids[k]);
        open' := Release(pool, open', g, Next(s, Unlatch(ids[..k])));
      }
    }
    assert ids[..|ids|] == ids;
  }

  lemma {:induction false} UnlatchOne(s: State, ids: seq<PageId>, k: nat)
    requires k < |ids|
    ensures var s' := Next(s, Unlatch(ids[..k]));
      Next(s, Unlatch(ids[..k + 1])) == s'.(held := s'.held - {ids[k]})
  {
    var a, b := ids[..k], ids[..k + 1];
    assert b == a + [ids[k]];
    assert (set x | x in b) == (set x | x in a) + {ids[k]};
  }

  method ReleaseAll(pool: BufferPool, open: seq<Guard>, ghost s: State) returns (open': seq<Guard>)
    requires Mirrors(pool, open, s)
    modifies pool, pool.frames, pool.clock
    ensures Mirrors(pool, open', Next(s, UnlatchAll)) && open' == []
  {
    hide Agrees, Encodable, Returns;
    open' := open;
    ghost var now := s;
    while open' != []
      invariant Mirrors(pool, open', now) && now.pages == s.pages
      decreases |open'|
    {
      var g := |open'| - 1;
      ghost var next := now.(held := now.held - {open'[g].id});
      open' := Release(pool, open', g, now);
      now := next;
    }
    assert now == Next(s, UnlatchAll);
  }

  /** A request for which a frame may be needed. */
  predicate NeedsFrame(st: Step) {
    st.Latch? || st.Look? || st.Make?
  }

  /** No page of these requests breaks what the types of the source guarantee, and no column name is too long. */
  predicate AllTyped(steps: seq<Step>) {
    forall i :: 0 <= i < |steps| && (steps[i].Write? || steps[i].Make?) ==>
      Typed(steps[i].page) && Returns(steps[i].page)
  }

  /** Whenever a frame may be needed, fewer pages are latched than there are frames. */
  ghost predicate Room(frames: nat, s: State, steps: seq<Step>)
    requires Replay(s, steps).Some?
  {
    forall k :: 0 <= k < |steps| ==> RoomAt(frames, s, steps, k)
  }

  ghost predicate RoomAt(frames: nat, s: State, steps: seq<Step>, k: nat)
    requires Replay(s, steps).Some? && k < |steps|
  {
    NeedsFrame(steps[k]) ==>
      Replay(s, steps[..k]).Some? && |Replay(s, steps[..k]).value.held| < frames
  }

  /** One request of a table, on the pool. */
  method Perform(pool: BufferPool, open: seq<Guard>, st: Step, ghost s: State) returns (done: bool, open': seq<Guard>)
    requires Mirrors(pool, open, s) && Possible(s, st) && AllTyped([st])
    modifies pool, pool.frames, pool.clock
    ensures |s.held| <= pool.frames.Length
    ensures done <==> (NeedsFrame(st) ==> |s.held| < pool.frames.Length)
    ensures done ==> Mirrors(pool, open', Next(s, st))
    ensures !done ==> open' == open && Mirrors(pool, open, s)
  {
    hide Mirrors, Encodable, Returns, Typed;
    assert AllTyped([st]) ==> st == [st][0];
    MirrorsFit(pool, open, s);
    done, open' := true, open;
    match st {
      case Latch(id) =>
        var res;
        res, open' := FetchWrite(pool, open, id, s);
        done := res.Ok?;
      case Look(id) =>
        var res := Look(pool, open, id, s);
        done := res.Ok?;
      case Write(p) =>
        MirrorsOpen(pool, open, s);
        var g := GuardOn(open, p.id);
        Put(pool, open, g, p, s);
      case Make(p) =>
        var res;
        res, open' := NewPage(pool, open, p, s);
        done := res.Ok?;
      case Unlatch(ids) =>
        open' := ReleaseEach(pool, open, ids, s);
      case UnlatchAll =>
        open' := ReleaseAll(pool, open, s);
    }
  }

  lemma {:induction false} MirrorsFit(pool: BufferPool, open: seq<Guard>, s: State)
    requires Mirrors(pool, open, s)
    ensures |s.held| <= pool.frames.Length
  {
    hide Agrees, OpenIds, Encodable, Returns;
    var views: Views :| Shows(views, s.pages) && Agrees(pool, views, open);
    HeldFit(pool, views, open);
  }

  lemma {:induction false} MirrorsOpen(pool: BufferPool, open: seq<Guard>, s: State)
    requires Mirrors(pool, open, s)
    ensures OpenIds(open) == s.held
  {
  }

  /** The requests of a table, on the pool, up to the first that finds no frame, if any. */
  method PerformAll(pool: BufferPool, open: seq<Guard>, steps: seq<Step>, ghost s: State)
    returns (n: nat, open': seq<Guard>)
    requires Mirrors(pool, open, s) && Replay(s, steps).Some? && AllTyped(steps)
    modifies pool, pool.frames, pool.clock
    ensures n <= |steps| && Replay(s, steps[..n]).Some? && Mirrors(pool, open', Replay(s, steps[..n]).value)
    ensures n == |steps| <==> Room(pool.frames.Length, s, steps)
  {
    hide Mirrors, Typed, Returns, Replay, Next, Possible;
    n, open' := 0, open;
    NoSteps(s);
    assert steps[..0] == [];
    while n < |steps|
      invariant n <= |steps| && Replay(s, steps[..n]).Some? && Mirrors(pool, open', Replay(s, steps[..n]).value)
      invariant forall k :: 0 <= k < n ==> RoomAt(pool.frames.Length, s, steps, k)
    {
      ReplayPart(s, steps, n);
      assert AllTyped([steps[n]]);
      ghost var now := Replay(s, steps[..n]).value;
      var done;
      done, open' := Perform(pool, open', steps[n], now);
      assert done <==> RoomAt(pool.frames.Length, s, steps, n);
      if !done {
        return;
      }
      n := n + 1;
    }
  }

  lemma {:induction false} NoSteps(s: State)
    ensures Replay(s, []) == Some(s)
  {
  }

  // ---------------------------------------------------------------------- whole operations

  /** Carries out on the pool what the table has done since its log began. */
  method Carry(pool: BufferPool, tb: Table) returns (done: bool, open: seq<Guard>)
    requires tb.Logged() && Mirrors(pool, [], State(tb.origin, {})) && AllTyped(tb.log)
    modifies pool, pool.frames, pool.clock
    ensures done <==> Room(pool.frames.Length, State(tb.origin, {}), tb.log)
    ensures done ==> Mirrors(pool, open, State(tb.pages, tb.held))
  {
    hide Mirrors, AllTyped, Replay, Room;
    ghost var s := State(tb.origin, {});
    var steps := tb.log;
    var n;
    n, open := PerformAll(pool, [], steps, s);
    done := n == |steps|;
    assert steps[..|steps|] == steps;
  }

  /** An insert on a table whose pages are in the pool: the table gains the row as `Insert` says, no request ever
      waits for a latch its own thread holds, and as long as there are frames for the pages it latches at a time, the
      pool shows the new pages afterwards. */
  method InsertThrough(pool: BufferPool, tb: Table, row: Row) returns (res: Result<(), PageError>, done: bool)
    requires tb.Valid() && ValidRow(tb.schema, row) && Mirrors(pool, [], State(tb.pages, {}))
    modifies tb, pool, pool.frames, pool.clock
    ensures tb.Valid() && Replay(State(old(tb.pages), {}), tb.log) == Some(State(tb.pages, {}))
    ensures RowKey(row) in old(tb.Contents()) ==>
      res == Err(DuplicateKey) && tb.pages == old(tb.pages) && tb.Contents() == old(tb.Contents())
    ensures RowKey(row) !in old(tb.Contents()) ==>
      res == Ok(()) && tb.Contents() == old(tb.Contents())[RowKey(row) := row]
    ensures done <==> AllTyped(tb.log) && Room(pool.frames.Length, State(old(tb.pages), {}), tb.log)
    ensures done ==> exists open :: Mirrors(pool, open, State(tb.pages, {}))
  {
    hide Mirrors, AllTyped, Replay, Room, Focus.Sound, Contents.ContentsOf, Keyed, RowKey, ValidRow;
    tb.Mark();
    res := InsertMethods.Insert(tb, row);
    done := false;
    if AllTyped(tb.log) {
      var open;
      done, open := Carry(pool, tb);
    }
  }

  /** A delete in the same way, whether it succeeds or not. */
  method DeleteThrough(pool: BufferPool, tb: Table, k: Key) returns (res: Result<Option<Row>, PageError>, done: bool)
    requires tb.Valid() && Mirrors(pool, [], State(tb.pages, {}))
    modifies tb, pool, pool.frames, pool.clock
    ensures Replay(State(old(tb.pages), {}), tb.log) == Some(State(tb.pages, {}))
    ensures res.Ok? <==> old(DeleteFits(tb.tree, k))
    ensures res.Ok? ==> tb.Valid() && tb.Contents() == old(tb.Contents()) - {k}
    ensures res.Ok? ==> res.value == old(if k in tb.Contents() then Some(tb.Contents()[k]) else None)
    ensures res == Err(Panic) <==> old(DeletePanics(tb.tree, k))
    ensures res == Err(PageFull) <==> old(FailedDelete(tb.tree, k)).Some?
    ensures res == Err(PageFull) ==>
      tb.Contents() == old(tb.Contents()) - {k} && DeleteMethods.LostAt(tb, old(FailedDelete(tb.tree, k)).value)
    ensures done <==> AllTyped(tb.log) && Room(pool.frames.Length, State(old(tb.pages), {}), tb.log)
    ensures done ==> exists open :: Mirrors(pool, open, State(tb.pages, {}))
  {
    hide Mirrors, AllTyped, Replay, Room, Focus.Sound, Contents.ContentsOf, Keyed, DeleteFits, DeletePanics;
    hide FailedDelete, DeleteMethods.LostAt;
    tb.Mark();
    res := DeleteMethods.Delete(tb, k);
    done := false;
    if AllTyped(tb.log) {
      var open;
      done, open := Carry(pool, tb);
    }
  }

  // ------------------------------------------------------------------------- small facts

  lemma {:induction false} OpenMore(open: seq<Guard>, open': seq<Guard>)
    requires |open'| == |open| + 1 && open'[..|open|] == open
    ensures OpenIds(open') == OpenIds(open) + {open'[|open|].id}
    ensures forall i :: 0 <= i < |open| ==> open'[i] == open[i]
  {
    var last := open'[|open|];
    assert open' == open + [last];
    forall x
      ensures x in OpenIds(open') <==> x in OpenIds(open) || x == last.id
    {
      NoneOpen(open, x);
      NoneOpen(open', x);
      if i :| 0 <= i < |open| && open[i].id == x {
        assert open'[i].id == x;
      }
    }
  }

  lemma {:induction false} CanDrop(open: seq<Guard>, g: nat)
    requires g < |open|
    ensures !Impossible(open, PoolRuns.Drop(g))
  {
  }

  lemma {:induction false} SafePut(pages: Store, p: Page)
    requires Safe(pages) && Encodable(p) && Returns(p)
    ensures Safe(pages[p.id := p])
  {
    hide Encodable, Returns;
  }

  /** Pages that can be written block nobody. */
  lemma {:induction false} NotBlocked(views: Views, pages: Store, open: seq<Guard>)
    requires Shows(views, pages) && Safe(pages)
    ensures !Blocked(views, open)
  {
    hide Encodable, Returns, OpenIds;
  }

  lemma {:induction false} HeldFit(pool: BufferPool, views: Views, open: seq<Guard>)
    requires Agrees(pool, views, open)
    ensures |OpenIds(open)| <= pool.frames.Length
  {
    hide Inv, Held, OpenIds, Seen;
    FullIsExhausted(pool.frames[..], pool.table, pool.free, pool.disk, pool.crc, pool.guards, pool.writing, open);
  }

  lemma {:induction false} NotWritten(views: Views, req: Request, ans: Answer)
    requires req.Create? && ans.Failed?
    ensures After(views, req, ans) == views
  {
  }

  /** A page under a guard exists. */
  lemma {:induction false} HeldExist(pool: BufferPool, views: Views, open: seq<Guard>, id: PageId)
    requires Agrees(pool, views, open)
    ensures id in OpenIds(open) ==> views(id).Some?
  {
    hide Agrees, OpenIds;
    NoneOpen(open, id);
    if i :| 0 <= i < |open| && open[i].id == id {
      GuardAt(pool, views, open, i);
    }
  }

  /** A write guard is the only guard on its page, so dropping it unlatches the page. */
  lemma {:induction false} AloneOpen(pool: BufferPool, views: Views, open: seq<Guard>, g: nat)
    requires Agrees(pool, views, open) && g < |open| && forall i :: 0 <= i < |open| ==> open[i].wr
    ensures OpenIds(open[..g] + open[g + 1..]) == OpenIds(open) - {open[g].id}
  {
    hide Agrees, OpenIds;
    var open' := open[..g] + open[g + 1..];
    assert forall i :: 0 <= i < |open'| ==> open'[i] == open[if i < g then i else i + 1];
    forall i | 0 <= i < |open| && i != g
      ensures open[i].id != open[g].id
    {
      OneGuard(pool, views, open, g, i);
    }
    forall x
      ensures x in OpenIds(open') <==> x in OpenIds(open) && x != open[g].id
    {
      NoneOpen(open, x);
      NoneOpen(open', x);
      if i :| 0 <= i < |open| && open[i].id == x && i != g {
        assert open'[if i < g then i else i - 1].id == x;
      }
    }
  }

  lemma {:induction false} OneGuard(pool: BufferPool, views: Views, open: seq<Guard>, g: nat, i: nat)
    requires Agrees(pool, views, open) && g < |open| && i < |open| && i != g && open[g].wr
    ensures open[i].id != open[g].id
  {
    hide FramesOf, Inv, View, OnDisk, Seen, Typed, Encodable, Returns;
    var open', at := open[..g] + open[g + 1..], if i < g then i else i - 1;
    GuardAt(pool, views, open, g);
    WritersAlone(pool);
    FramesDrop(open, g);
    FrameCounted(open', at);
    assert open'[at] == open[i];
    OtherFrame(pool.guards, open, open', g, i, at);
  }

  lemma {:induction false} OtherFrame(guards: multiset<nat>, open: seq<Guard>, open': seq<Guard>, g: nat, i: nat,
                                      at: nat)
    requires g < |open| && i < |open| && at < |open'| && open'[at] == open[i] && guards == multiset(FramesOf(open))
    requires multiset(FramesOf(open)) == multiset(FramesOf(open')) + multiset{open[g].frame}
    requires guards[open[g].frame] == 1 && multiset(FramesOf(open'))[open'[at].frame] >= 1
    ensures open[i].frame != open[g].frame
  {
    hide FramesOf;
  }

  lemma {:induction false} ShowsWritten(views: Views, pages: Store, req: Request, ans: Answer)
    requires Shows(views, pages) && ((req.Create? && ans.Opened?) || (req.Write? && ans.Done?))
    ensures Shows(After(views, req, ans), pages[req.page.id := req.page])
  {
  }
}

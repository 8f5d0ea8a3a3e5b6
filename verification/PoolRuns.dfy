/** Whole runs of a client against the buffer pool. Guards stay alive across requests for as long as the
    client likes; whatever is evicted, loaded and flushed on the way, the pool behaves like a map from
    page ids to pages in which as many pages can be held at once as there are frames. Two kinds of pages make
    the exceptions: one that cannot be written blocks the frames that would have to be cleared of it, and one that
    is written and then refused by the reader can be lost while nobody holds it. */
module PoolRuns {
  import opened Common
  import opened Pages
  import opened PageCodec
  import opened Eviction
  import opened Pools
  import opened BufferPools

  // --------------------------------------------------------------------- requests and replies

  /** What a client asks: create a page, which gives a write guard; fetch one under a guard; read or write
      through a guard it holds, named by position; drop one; or flush. */
  datatype Request =
    | Create(page: Page)
    | Fetch(id: PageId, wr: bool)
    | Read(guard: nat)
    | Write(guard: nat, page: Page)
    | Drop(guard: nat)
    | Flush

  /** `Refused` stands for a request that would wait for a latch the client holds itself, or that names no
      guard fit for it; the run goes on without it. */
  datatype Answer = Opened | Got(page: Page) | Done | Refused | Failed(error: BpmError)

  /** A live guard: its frame, its page, and whether it is a write guard. */
  datatype Guard = Guard(frame: nat, id: PageId, wr: bool)

  type Views = PageId -> Option<Page>

  // ------------------------------------------------------------------------- the map

  function OpenIds(open: seq<Guard>): set<PageId> {
    set i | 0 <= i < |open| :: open[i].id
  }

  /** A request that cannot go on, given the guards that are open. */
  predicate Impossible(open: seq<Guard>, req: Request) {
    match req
    case Create(_) => false
    case Fetch(id, wr) => exists i :: 0 <= i < |open| && open[i].id == id && (wr || open[i].wr)
    case Read(g) => g >= |open|
    case Write(g, page) => g >= |open| || !open[g].wr || open[g].id != page.id
    case Drop(g) => g >= |open|
    case Flush => exists i :: 0 <= i < |open| && open[i].wr
  }

  /** Some page that is not held cannot be written to clear its frame. */
  ghost predicate Blocked(views: Views, open: seq<Guard>) {
    exists id :: id !in OpenIds(open) && views(id).Some? && !Encodable(views(id).value)
  }

  ghost predicate Stopped(views: Views, open: seq<Guard>, ans: Answer) {
    ans.Failed? && ans.error.Unwritable? && Blocked(views, open)
  }

  /** The only answers the map allows. A pool of `size` frames opens any page that exists as long as fewer
      than `size` pages are held; a page that is not held may or may not be cached, which is all that a
      client can learn from the refusal to create it. Only a page that the reader refuses can be found
      unreadable, and only one that cannot be written stops another from getting a frame. */
  ghost predicate Allowed(size: nat, views: Views, open: seq<Guard>, req: Request, ans: Answer) {
    if Impossible(open, req) then ans == Refused
    else
      match req
      case Create(page) =>
        if page.id in OpenIds(open) then ans == Failed(AlreadyExists)
        else if |OpenIds(open)| == size then ans == Failed(NoFreeFrames)
        else
          ans == Opened || (ans == Failed(AlreadyExists) && views(page.id).Some?) || Stopped(views, open, ans)
      case Fetch(id, _) =>
        if id in OpenIds(open) then ans == Opened
        else if views(id).None? then ans.Failed? && (ans.error == NotOnDisk || ans.error.Unreadable?)
        else if ans.Failed? && ans.error.Unreadable? then !Returns(views(id).value)
        else if |OpenIds(open)| == size then ans == Failed(NoFreeFrames)
        else ans == Opened || Stopped(views, open, ans)
      case Read(g) => views(open[g].id).Some? && ans == Got(views(open[g].id).value)
      case Write(_, _) => ans == Done
      case Drop(_) => ans == Done
      case Flush => if Saveable(views) then ans == Done else ans.Failed? && ans.error.Unwritable?
  }

  /** The map after one request: a page that was written is there, one that was found unreadable is not. */
  ghost function After(views: Views, req: Request, ans: Answer): Views {
    if (req.Create? && ans.Opened?) || (req.Write? && ans.Done?)
    then (id: PageId) => if id == req.page.id then Some(req.page) else views(id)
    else if req.Fetch? && ans.Failed? && ans.error.Unreadable?
    then (id: PageId) => if id == req.id then None else views(id)
    else views
  }

  /** The pages and modes of the guards after one request. */
  ghost predicate NowOpen(open: seq<Guard>, req: Request, ans: Answer, open': seq<Guard>) {
    match ans
    case Opened =>
      && |open'| == |open| + 1 && open'[..|open|] == open
      && (req.Create? ==> open'[|open|].id == req.page.id && open'[|open|].wr)
      && (req.Fetch? ==> open'[|open|].id == req.id && open'[|open|].wr == req.wr)
    case Done =>
      if req.Drop? then req.guard < |open| && open' == open[..req.guard] + open[req.guard + 1..] else open' == open
    case _ => open' == open
  }

  /** What the types of the source guarantee of the pages in a request. */
  ghost predicate ClientOk(req: Request) {
    req.Create? || req.Write? ==> Typed(req.page)
  }

  ghost predicate Saveable(views: Views) {
    forall id :: views(id).Some? ==> Encodable(views(id).value)
  }

  // ------------------------------------------------------------- guards and the pool's books

  function FramesOf(open: seq<Guard>): (r: seq<nat>)
    ensures |r| == |open| && forall i :: 0 <= i < |r| ==> r[i] == open[i].frame
  {
    seq(|open|, i requires 0 <= i < |open| => open[i].frame)
  }

  /** The pool's counts are those of the client's guards, and every guard is on the frame of its page. */
  ghost predicate Held(table: PageTable, guards: multiset<nat>, writing: set<nat>, open: seq<Guard>) {
    && guards == multiset(FramesOf(open))
    && (forall f :: f in writing <==> exists i :: 0 <= i < |open| && open[i].wr && open[i].frame == f)
    && (forall i :: 0 <= i < |open| ==> open[i].id in table && table[open[i].id] == open[i].frame)
  }

  lemma {:induction false} FrameCounted(open: seq<Guard>, i: nat)
    requires i < |open|
    ensures multiset(FramesOf(open))[open[i].frame] >= 1
  {
    assert FramesOf(open)[i] in FramesOf(open);
  }

  lemma {:induction false} CountedFrame(open: seq<Guard>, f: nat) returns (i: nat)
    requires multiset(FramesOf(open))[f] >= 1
    ensures i < |open| && open[i].frame == f
  {
    assert f in FramesOf(open);
    i :| 0 <= i < |FramesOf(open)| && FramesOf(open)[i] == f;
  }

  /** A cached page is pinned exactly when the client holds it, and latched for writing exactly when the
      client holds a write guard on it. */
  lemma {:induction false} PinnedIsHeld(n: nat, table: PageTable, free: seq<nat>, guards: multiset<nat>,
                                        writing: set<nat>,
                                        open: seq<Guard>, id: PageId)
    requires Held(table, guards, writing, open) && Shared(n, table, free, None)
    ensures id in OpenIds(open) <==> id in table && guards[table[id]] > 0
    ensures (exists i :: 0 <= i < |open| && open[i].id == id && open[i].wr) <==> id in table && table[id] in writing
  {
    hide FramesOf, Mapped;
    if i :| 0 <= i < |open| && open[i].id == id {
      FrameCounted(open, i);
    }
    if id in table && guards[table[id]] > 0 {
      var i := CountedFrame(open, table[id]);
      assert open[i].id == id;
    }
    if id in table && table[id] in writing {
      var i :| 0 <= i < |open| && open[i].wr && open[i].frame == table[id];
      assert open[i].id == id;
    }
  }

  // ------------------------------------------------------------------- counting held pages

  lemma {:induction false} ImageSize(table: PageTable, ids: set<PageId>)
    requires forall id :: id in ids ==> id in table
    requires forall id, id' :: id in ids && id' in ids && id != id' ==> table[id] != table[id']
    ensures |set id | id in ids :: table[id]| == |ids|
    decreases |ids|
  {
    if ids != {} {
      var x :| x in ids;
      var rest := ids - {x};
      ImageSize(table, rest);
      assert (set id | id in ids :: table[id]) == (set id | id in rest :: table[id]) + {table[x]};
      assert table[x] !in (set id | id in rest :: table[id]);
    }
  }

  function UpTo(n: nat): (s: set<nat>)
    ensures forall i: nat :: i in s <==> i < n
    ensures |s| == n
  {
    if n == 0 then {} else UpTo(n - 1) + {n - 1}
  }

  lemma {:induction false} SubsetSize(a: set<nat>, b: set<nat>)
    requires a <= b
    ensures |a| <= |b| && (|a| == |b| ==> a == b)
    decreases |a|
  {
    if a != {} {
      var x :| x in a;
      SubsetSize(a - {x}, b - {x});
      assert a == a - {x} + {x} && b == b - {x} + {x};
    } else if |b| == 0 {
      assert b == {};
    }
  }

  /** The pool is exhausted exactly when the client holds as many pages as there are frames. */
  lemma {:induction false} FullIsExhausted(frames: seq<Frame>, table: PageTable, free: seq<nat>, disk: Disk, crc: Crc,
                                           guards: multiset<nat>, writing: set<nat>, open: seq<Guard>)
    requires Inv(frames, table, free, disk, crc, guards, writing, None) && Held(table, guards, writing, open)
    ensures |OpenIds(open)| == |frames| <==> Exhausted(frames, free)
    ensures |OpenIds(open)| <= |frames|
  {
    hide Inv, OpenIds, Held, Exhausted, FramesOf;
    var n, ids := |frames|, OpenIds(open);
    HeldFrames(frames, table, free, disk, crc, guards, writing, open);
    var held := set id | id in ids :: table[id];
    ImageSize(table, ids);
    SubsetSize(held, UpTo(n));
    if |ids| == n {
      AllHeld(frames, table, free, disk, crc, guards, writing, held);
    }
    if Exhausted(frames, free) {
      ExhaustedPins(frames, free);
      forall f | f in UpTo(n)
        ensures f in held
      {
        assert Pinned(frames[f]);
      }
      SubsetSize(UpTo(n), held);
    }
  }

  lemma {:induction false} ExhaustedPins(frames: seq<Frame>, free: seq<nat>)
    requires Exhausted(frames, free)
    ensures forall f :: 0 <= f < |frames| ==> Pinned(frames[f])
  {
  }

  /** The frames of held pages are the pinned frames, one for each page. */
  lemma {:induction false} HeldFrames(frames: seq<Frame>, table: PageTable, free: seq<nat>, disk: Disk, crc: Crc,
                                      guards: multiset<nat>, writing: set<nat>, open: seq<Guard>)
    requires Inv(frames, table, free, disk, crc, guards, writing, None) && Held(table, guards, writing, open)
    ensures forall id :: id in OpenIds(open) ==> id in table && table[id] < |frames| && guards[table[id]] > 0
    ensures forall id, id' :: id in OpenIds(open) && id' in OpenIds(open) && id != id' ==> table[id] != table[id']
    ensures forall f :: 0 <= f < |frames| && Pinned(frames[f]) ==> f in set id | id in OpenIds(open) :: table[id]
  {
    hide DiskOk, Contained, FramesOf, Mapped;
    forall id | id in OpenIds(open)
      ensures id in table && guards[table[id]] > 0 && table[id] < |frames|
    {
      PinnedIsHeld(|frames|, table, free, guards, writing, open, id);
    }
    forall f | 0 <= f < |frames| && Pinned(frames[f])
      ensures f in set id | id in OpenIds(open) :: table[id]
    {
      var i := CountedFrame(open, f);
      assert open[i].id in OpenIds(open) && table[open[i].id] == f;
    }
  }

  lemma {:induction false} AllHeld(frames: seq<Frame>, table: PageTable, free: seq<nat>, disk: Disk, crc: Crc,
                                   guards: multiset<nat>, writing: set<nat>, held: set<nat>)
    requires Inv(frames, table, free, disk, crc, guards, writing, None)
    requires forall f :: 0 <= f < |frames| ==> f in held
    requires forall f :: f in held ==> f < |frames| && guards[f] > 0
    ensures Exhausted(frames, free)
  {
    hide DiskOk, Contained;
    assert forall f :: f in held ==> Mapped(table, f);
    hide Mapped;
    if free != [] {
      FreeIsUnmapped(|frames|, table, free, 0);
      assert false;
    }
  }

  lemma {:induction false} FreeIsUnmapped(n: nat, table: PageTable, free: seq<nat>, i: nat)
    requires Shared(n, table, free, None) && i < |free|
    ensures free[i] < n && !Mapped(table, free[i])
  {
  }

  // ------------------------------------------------------------------ pages that can be saved

  /** A page that would have to be written and cannot is one that the client knows of. */
  lemma {:induction false} UnsaveableIs(pool: BufferPool, views: Views, open: seq<Guard>, f: nat) returns (id: PageId)
    requires Agrees(pool, views, open) && f < pool.frames.Length && Unsaveable(pool.frames[f])
    ensures views(id).Some? && !Encodable(views(id).value)
    ensures !Pinned(pool.frames[f]) ==> id !in OpenIds(open)
  {
    hide Inv, View, OnDisk, Encodable, Typed, Returns, Held, OpenIds;
    DirtyIsMapped(pool.frames[..], pool.table, pool.free, pool.disk, pool.crc, pool.guards, pool.writing, f);
    MappedTyped(pool.frames[..], pool.table, pool.free, pool.disk, pool.crc, pool.guards, pool.writing, f);
    MappedView(pool.frames[..], pool.table, pool.free, pool.disk, pool.crc, pool.guards, pool.writing, f);
    id := pool.frames[f].page.value.id;
    assert Sees(pool, views, id);
    WritersAlone(pool);
    PinnedIsHeld(pool.frames.Length, pool.table, pool.free, pool.guards, pool.writing, open, id);
    PinsCount(pool, f);
  }

  lemma {:induction false} PinsCount(pool: BufferPool, f: nat)
    requires pool.Valid() && f < pool.frames.Length
    ensures pool.frames[f].pins == pool.guards[f]
  {
    hide DiskOk, Shared, Contained, Mapped;
    assert pool.frames[..][f] == pool.frames[f];
  }

  /** The pool gets stuck only over a page that is not held and cannot be written. */
  lemma {:induction false} StuckIsBlocked(pool: BufferPool, views: Views, open: seq<Guard>)
    requires Agrees(pool, views, open)
    ensures Stuck(pool.frames[..], pool.free, pool.clock.hand) ==> Blocked(views, open)
  {
    hide Agrees, IsVictim, Encodable, OpenIds, Unsaveable;
    var frames := pool.frames[..];
    if v :| 0 <= v < |frames| && IsVictim(frames, pool.clock.hand, v) && Unsaveable(frames[v]) {
      VictimIsUnpinned(frames, pool.clock.hand, v);
      assert pool.frames[v] == frames[v];
      var id := UnsaveableIs(pool, views, open, v);
    }
  }

  lemma {:induction false} VictimIsUnpinned(frames: seq<Frame>, hand: nat, v: nat)
    requires v < |frames| && IsVictim(frames, hand, v)
    ensures !Pinned(frames[v])
  {
    hide At;
  }

  /** Every page that exists can be written exactly when there is nothing in the cache that cannot. */
  lemma {:induction false} SaveableIs(pool: BufferPool, views: Views, open: seq<Guard>)
    requires Agrees(pool, views, open)
    ensures Saveable(views) <==> forall f :: 0 <= f < pool.frames.Length ==> !Unsaveable(pool.frames[f])
  {
    hide Agrees, Encodable, Unsaveable;
    if f :| 0 <= f < pool.frames.Length && Unsaveable(pool.frames[f]) {
      var id := UnsaveableIs(pool, views, open, f);
    }
    if id :| views(id).Some? && !Encodable(views(id).value) {
      var f := UnsaveableAt(pool, views, open, id);
    }
  }

  lemma {:induction false} UnsaveableAt(pool: BufferPool, views: Views, open: seq<Guard>, id: PageId) returns (f: nat)
    requires Agrees(pool, views, open) && views(id).Some? && !Encodable(views(id).value)
    ensures f < pool.frames.Length && Unsaveable(pool.frames[f])
  {
    hide DiskOk, Shared, Counted, OnDisk, Encodable, Typed, Returns, Held, Blank, Faded, Mapped;
    assert Sees(pool, views, id);
    ReadableReturns(pool.disk, pool.crc, id);
    assert id in pool.table;
    f := pool.table[id];
    assert FrameOk(pool.frames[..][f], id, pool.disk, pool.crc);
  }

  lemma {:induction false} MappedView(frames: seq<Frame>, table: PageTable, free: seq<nat>, disk: Disk, crc: Crc,
                                      guards: multiset<nat>, writing: set<nat>, v: nat)
    requires Inv(frames, table, free, disk, crc, guards, writing, None) && v < |frames| && Mapped(table, v)
    ensures frames[v].page.Some? && View(frames, table, disk, crc, frames[v].page.value.id) == frames[v].page
  {
    hide DiskOk, Shared, Counted, Typed, Encodable, Faded, Mapped, OnDisk;
    MappedUnder(frames, table, disk, crc, v);
  }

  // -------------------------------------------------------------------------- one request

  /** The pool shows the page under `id`; or that page was written to disk when it left the cache, and the reader
      refuses it. */
  ghost predicate Seen(views: Views, frames: seq<Frame>, table: PageTable, disk: Disk, crc: Crc, id: PageId) {
    || View(frames, table, disk, crc, id) == views(id)
    || (&& id !in table && id in disk && View(frames, table, disk, crc, id) == None
        && views(id).Some? && Encodable(views(id).value) && !Returns(views(id).value))
  }

  ghost predicate Sees(pool: BufferPool, views: Views, id: PageId)
    reads pool, pool.frames
  {
    Seen(views, pool.frames[..], pool.table, pool.disk, pool.crc, id)
  }

  /** The pool shows the map, but for lost pages, and its books are those of the client's guards. */
  ghost predicate Agrees(pool: BufferPool, views: Views, open: seq<Guard>)
    reads pool, pool.frames, pool.clock
  {
    && pool.Valid() && Held(pool.table, pool.guards, pool.writing, open)
    && (forall id :: Sees(pool, views, id))
  }

  lemma {:induction false} SeenNow(pool: BufferPool, views: Views)
    requires forall id :: Sees(pool, views, id)
    ensures forall id :: Seen(views, pool.frames[..], pool.table, pool.disk, pool.crc, id)
  {
    hide Seen;
    forall id
      ensures Seen(views, pool.frames[..], pool.table, pool.disk, pool.crc, id)
    {
      assert Sees(pool, views, id);
    }
  }

  /** A cached page is the one on the map; another is what the disk has, or it is lost. */
  lemma {:induction false} SeenMeans(pool: BufferPool, views: Views, id: PageId)
    requires pool.Valid() && Sees(pool, views, id)
    ensures id in pool.table ==> views(id).Some? && pool.See(id) == views(id)
    ensures id !in pool.table ==>
      var onDisk := OnDisk(pool.disk, pool.crc, id);
      onDisk == views(id) || (onDisk == None && id in pool.disk && views(id).Some? && !Returns(views(id).value))
  {
    hide Inv, View, OnDisk, Encodable, Returns;
    if id in pool.table {
      CachedView(pool, id);
    } else {
      UncachedView(pool, id);
    }
  }

  lemma {:induction false} NoneLeft(frames: seq<Frame>, table: PageTable, disk: Disk, disk': Disk)
    requires forall id :: id in disk ==> id in disk'
    ensures Saved(frames, table, disk, table, disk')
  {
  }

  /** What was known of a view still is after frames were claimed. */
  lemma {:induction false} StillSees(pool: BufferPool, views: Views, frames: seq<Frame>, table: PageTable, disk: Disk,
                                     id: PageId)
    requires pool.Valid() && Saved(frames, table, disk, pool.table, pool.disk)
    requires Seen(views, frames, table, disk, pool.crc, id)
    requires var was := View(frames, table, disk, pool.crc, id);
      pool.See(id) == if id in table && id !in pool.table then Faded(was) else was
    ensures Sees(pool, views, id)
  {
    hide Inv, View, OnDisk, Encodable, Typed, Returns;
    if id in pool.table {
      CachedView(pool, id);
    } else if id in table {
      ViewCached(frames, table, pool.disk, pool.crc, id);
      ViewCached(frames, table, disk, pool.crc, id);
    }
  }

  lemma {:induction false} HeldPush(table: PageTable, guards: multiset<nat>, writing: set<nat>, open: seq<Guard>,
                                    table': PageTable, g: Guard)
    requires Held(table, guards, writing, open) && MappingsKept(table, table', guards)
    requires g.id in table' && table'[g.id] == g.frame
    ensures Held(table', guards + multiset{g.frame}, if g.wr then writing + {g.frame} else writing, open + [g])
  {
    var open' := open + [g];
    assert FramesOf(open') == FramesOf(open) + [g.frame];
    forall i | 0 <= i < |open'|
      ensures open'[i].id in table' && table'[open'[i].id] == open'[i].frame
    {
      if i < |open| {
        FrameCounted(open, i);
      }
    }
    hide FramesOf;
    var writing' := if g.wr then writing + {g.frame} else writing;
    forall f
      ensures f in writing' <==> exists i :: 0 <= i < |open'| && open'[i].wr && open'[i].frame == f
    {
      if i :| 0 <= i < |open| && open[i].wr && open[i].frame == f {
        assert open'[i].wr && open'[i].frame == f;
      }
      assert open'[|open|] == g;
    }
  }

  lemma {:induction false} HeldDrop(table: PageTable, guards: multiset<nat>, writing: set<nat>, open: seq<Guard>,
                                    h: nat)
    requires Held(table, guards, writing, open) && h < |open| && forall f :: f in writing ==> guards[f] == 1
    ensures open[h].frame in guards
    ensures Held(table, guards - multiset{open[h].frame}, writing - {open[h].frame}, open[..h] + open[h + 1..])
  {
    var v, open' := open[h].frame, open[..h] + open[h + 1..];
    FrameCounted(open, h);
    FramesDrop(open, h);
    hide FramesOf;
    assert forall i :: 0 <= i < |open'| ==> open'[i] == open[if i < h then i else i + 1];
    forall f | f in writing - {v}
      ensures exists i :: 0 <= i < |open'| && open'[i].wr && open'[i].frame == f
    {
      var i :| 0 <= i < |open| && open[i].wr && open[i].frame == f;
      var j := if i < h then i else i - 1;
      assert open'[j].wr && open'[j].frame == f;
    }
    forall i | 0 <= i < |open'| && open'[i].wr
      ensures open'[i].frame in writing - {v}
    {
      FrameCounted(open', i);
    }
  }

  lemma {:induction false} FramesDrop(open: seq<Guard>, h: nat)
    requires h < |open|
    ensures multiset(FramesOf(open)) == multiset(FramesOf(open[..h] + open[h + 1..])) + multiset{open[h].frame}
  {
    var all := FramesOf(open);
    assert all == all[..h] + [all[h]] + all[h + 1..];
    assert FramesOf(open[..h] + open[h + 1..]) == all[..h] + all[h + 1..];
  }

  /** A request that neither creates nor fetches changes the guards at most by dropping one. */
  lemma {:induction false} WritersAlone(pool: BufferPool)
    requires pool.Valid()
    ensures forall f :: f in pool.writing ==> pool.guards[f] == 1
    ensures Shared(pool.frames.Length, pool.table, pool.free, None)
  {
    hide DiskOk, Contained, Shared, Mapped;
  }

  method ServeCreate(pool: BufferPool, req: Request, open: seq<Guard>, ghost views: Views)
    returns (ans: Answer, open': seq<Guard>)
    requires req.Create? && Agrees(pool, views, open) && ClientOk(req)
    modifies pool, pool.frames, pool.clock
    ensures Allowed(pool.frames.Length, views, open, req, ans) && NowOpen(open, req, ans, open')
    ensures Agrees(pool, After(views, req, ans), open')
  {
    hide Inv, View, OnDisk, Typed, Encodable, Returns, Faded, Held, Stuck, Exhausted, OpenIds, MappingsKept, PagesKept;
    hide Saved, Blocked, Seen;
    StuckIsBlocked(pool, views, open);
    FullIsExhausted(pool.frames[..], pool.table, pool.free, pool.disk, pool.crc, pool.guards, pool.writing, open);
    WritersAlone(pool);
    PinnedIsHeld(pool.frames.Length, pool.table, pool.free, pool.guards, pool.writing, open, req.page.id);
    SeenMeans(pool, views, req.page.id);
    if req.page.id in pool.table {
      CachedIsHeldIfFull(pool, open, req.page.id);
    }
    ghost var table, guards, writing := pool.table, pool.guards, pool.writing;
    ghost var frames, disk := pool.frames[..], pool.disk;
    SeenNow(pool, views);
    var made := pool.NewPage(req.page);
    forall id | made.Err? || id != req.page.id
      ensures Sees(pool, views, id)
    {
      StillSees(pool, views, frames, table, disk, id);
    }
    open' := open;
    if made.Err? {
      HeldKept(table, guards, writing, open, pool.table);
      ans := Failed(made.error);
    } else {
      var g := Guard(made.value, req.page.id, true);
      HeldPush(table, guards, writing, open, pool.table, g);
      open' := open + [g];
      ans := Opened;
      SeesAfter(pool, views, req, ans);
    }
  }

  /** A page that was written is seen, and the others are seen as before. */
  lemma {:induction false} SeesAfter(pool: BufferPool, views: Views, req: Request, ans: Answer)
    requires (req.Create? && ans.Opened?) || (req.Write? && ans.Done?)
    requires pool.See(req.page.id) == Some(req.page) && forall id :: id != req.page.id ==> Sees(pool, views, id)
    ensures forall id :: Sees(pool, After(views, req, ans), id)
  {
    hide View, Encodable, Returns;
    var views' := After(views, req, ans);
    forall id
      ensures Sees(pool, views', id)
    {
      assert views'(id) == if id == req.page.id then Some(req.page) else views(id);
      assert id != req.page.id ==> Sees(pool, views, id);
    }
  }

  /** A page found unreadable is not there. */
  lemma {:induction false} SeesNone(pool: BufferPool, views: Views, req: Request, ans: Answer)
    requires req.Fetch? && ans.Failed? && ans.error.Unreadable? && pool.See(req.id) == None
    requires forall id :: Sees(pool, views, id)
    ensures forall id :: Sees(pool, After(views, req, ans), id)
  {
    hide View, Encodable, Returns;
    var views' := After(views, req, ans);
    forall id
      ensures Sees(pool, views', id)
    {
      assert views'(id) == if id == req.id then None else views(id);
      assert Sees(pool, views, id);
    }
  }

  lemma {:induction false} HeldKept(table: PageTable, guards: multiset<nat>, writing: set<nat>, open: seq<Guard>,
                                    table': PageTable)
    requires Held(table, guards, writing, open) && MappingsKept(table, table', guards)
    ensures Held(table', guards, writing, open)
  {
    forall i | 0 <= i < |open|
      ensures open[i].id in table' && table'[open[i].id] == open[i].frame
    {
      FrameCounted(open, i);
    }
  }

  /** When every frame is pinned, only held pages are cached. */
  lemma {:induction false} CachedIsHeldIfFull(pool: BufferPool, open: seq<Guard>, id: PageId)
    requires pool.Valid() && Held(pool.table, pool.guards, pool.writing, open) && id in pool.table
    ensures Exhausted(pool.frames[..], pool.free) ==> id in OpenIds(open)
  {
    hide DiskOk, Contained, Mapped, Held, OpenIds;
    PinnedIsHeld(pool.frames.Length, pool.table, pool.free, pool.guards, pool.writing, open, id);
    assert pool.table[id] < pool.frames.Length;
    assert pool.frames[..][pool.table[id]].pins == pool.guards[pool.table[id]];
  }

  lemma {:induction false} CachedView(pool: BufferPool, id: PageId)
    requires pool.Valid() && id in pool.table
    ensures pool.See(id) != None
  {
    hide OnDisk, Typed, Encodable, Faded, DiskOk, Shared, Counted, Blank;
    assert FrameOk(pool.frames[..][pool.table[id]], id, pool.disk, pool.crc);
  }

  lemma {:induction false} UncachedView(pool: BufferPool, id: PageId)
    requires id !in pool.table
    ensures pool.See(id) == OnDisk(pool.disk, pool.crc, id)
  {
    hide OnDisk;
  }

  method ServeFetch(pool: BufferPool, req: Request, open: seq<Guard>, ghost views: Views)
    returns (ans: Answer, open': seq<Guard>)
    requires req.Fetch? && !Impossible(open, req) && Agrees(pool, views, open)
    modifies pool, pool.frames, pool.clock
    ensures Allowed(pool.frames.Length, views, open, req, ans) && NowOpen(open, req, ans, open')
    ensures Agrees(pool, After(views, req, ans), open')
  {
    hide Inv, View, OnDisk, Typed, Encodable, Returns, Faded, Held, Stuck, Exhausted, OpenIds, MappingsKept, PagesKept;
    hide Saved, Blocked, Seen;
    StuckIsBlocked(pool, views, open);
    FullIsExhausted(pool.frames[..], pool.table, pool.free, pool.disk, pool.crc, pool.guards, pool.writing, open);
    WritersAlone(pool);
    PinnedIsHeld(pool.frames.Length, pool.table, pool.free, pool.guards, pool.writing, open, req.id);
    NoneOpen(open, req.id);
    SeenMeans(pool, views, req.id);
    if req.id in pool.table {
      CachedIsHeldIfFull(pool, open, req.id);
    } else {
      UncachedView(pool, req.id);
      OnDiskIn(pool.disk, pool.crc, req.id);
    }
    ghost var table, guards, writing := pool.table, pool.guards, pool.writing;
    ghost var frames, disk := pool.frames[..], pool.disk;
    SeenNow(pool, views);
    var got := pool.Checkout(req.id, req.wr);
    forall id
      ensures Sees(pool, views, id)
    {
      StillSees(pool, views, frames, table, disk, id);
    }
    open' := open;
    if got.Err? {
      HeldKept(table, guards, writing, open, pool.table);
      ans := Failed(got.error);
      if got.error.Unreadable? {
        SeesNone(pool, views, req, ans);
      }
    } else {
      var g := Guard(got.value, req.id, req.wr);
      HeldPush(table, guards, writing, open, pool.table, g);
      open' := open + [g];
      ans := Opened;
    }
  }

  lemma {:induction false} NoneOpen(open: seq<Guard>, id: PageId)
    ensures id in OpenIds(open) <==> exists i :: 0 <= i < |open| && open[i].id == id
  {
  }

  /** What is known of the guard at position `g`. */
  lemma {:induction false} GuardAt(pool: BufferPool, views: Views, open: seq<Guard>, g: nat)
    requires Agrees(pool, views, open) && g < |open|
    ensures var v := open[g].frame;
      && v < pool.frames.Length && v in pool.guards && (open[g].wr ==> v in pool.writing)
      && pool.frames[v].page.Some? && pool.frames[v].page.value.id == open[g].id
      && pool.frames[v].page == views(open[g].id)
  {
    hide OnDisk, Typed, Encodable, Returns, Faded, DiskOk, Shared, Blank, FramesOf, Mapped;
    FrameCounted(open, g);
    assert FrameOk(pool.frames[..][pool.table[open[g].id]], open[g].id, pool.disk, pool.crc);
    assert Sees(pool, views, open[g].id);
  }

  method ServeThrough(pool: BufferPool, req: Request, open: seq<Guard>, ghost views: Views)
    returns (ans: Answer, open': seq<Guard>)
    requires (req.Read? || req.Write? || req.Drop?) && !Impossible(open, req) && Agrees(pool, views, open)
    requires ClientOk(req)
    modifies pool, pool.frames, pool.clock
    ensures Allowed(pool.frames.Length, views, open, req, ans) && NowOpen(open, req, ans, open')
    ensures Agrees(pool, After(views, req, ans), open')
  {
    hide Inv, View, OnDisk, Typed, Encodable, Returns, Held, OpenIds, Seen, Saved, Faded;
    GuardAt(pool, views, open, req.guard);
    WritersAlone(pool);
    var v := open[req.guard].frame;
    open' := open;
    ghost var frames, table, disk := pool.frames[..], pool.table, pool.disk;
    SeenNow(pool, views);
    NoneLeft(frames, table, disk, disk);
    if req.Read? {
      ans := Got(pool.frames[v].page.value);
    } else if req.Write? {
      pool.Write(v, req.page);
      ans := Done;
      forall id | id != req.page.id
        ensures Sees(pool, views, id)
      {
        StillSees(pool, views, frames, table, disk, id);
      }
      SeesAfter(pool, views, req, ans);
    } else {
      HeldDrop(pool.table, pool.guards, pool.writing, open, req.guard);
      pool.Drop(v);
      forall id
        ensures Sees(pool, views, id)
      {
        StillSees(pool, views, frames, table, disk, id);
      }
      open' := open[..req.guard] + open[req.guard + 1..];
      ans := Done;
    }
  }

  method ServeFlush(pool: BufferPool, open: seq<Guard>, ghost views: Views) returns (ans: Answer)
    requires !Impossible(open, Flush) && Agrees(pool, views, open)
    modifies pool, pool.frames, pool.clock
    ensures Allowed(pool.frames.Length, views, open, Flush, ans) && (ans == Done || ans.Failed?)
    ensures Agrees(pool, views, open)
  {
    hide Inv, View, OnDisk, Typed, Encodable, Returns, Faded, OpenIds, Unsaveable, FramesOf, Saveable, Seen, Saved;
    SaveableIs(pool, views, open);
    assert pool.writing == {};
    ghost var frames, table, disk := pool.frames[..], pool.table, pool.disk;
    SeenNow(pool, views);
    var flushed := pool.FlushAll();
    NoneLeft(frames, table, disk, pool.disk);
    forall id
      ensures Sees(pool, views, id)
    {
      StillSees(pool, views, frames, table, disk, id);
    }
    ans := match flushed case Ok(_) => Done case Err(e) => Failed(e);
  }

  /** One request: the map's answer, and the map's next state. */
  method Serve(pool: BufferPool, req: Request, open: seq<Guard>, ghost views: Views)
    returns (ans: Answer, open': seq<Guard>)
    requires Agrees(pool, views, open) && ClientOk(req)
    modifies pool, pool.frames, pool.clock
    ensures Allowed(pool.frames.Length, views, open, req, ans) && NowOpen(open, req, ans, open')
    ensures Agrees(pool, After(views, req, ans), open')
  {
    hide Agrees, OpenIds, ClientOk;
    open' := open;
    if Impossible(open, req) {
      return Refused, open;
    }
    match req {
      case Create(_) =>
        ans, open' := ServeCreate(pool, req, open, views);
      case Fetch(_, _) =>
        ans, open' := ServeFetch(pool, req, open, views);
      case Flush =>
        ans := ServeFlush(pool, open, views);
      case _ =>
        ans, open' := ServeThrough(pool, req, open, views);
    }
  }

  // ----------------------------------------------------------------------------- a run

  /** The map after a run. */
  ghost function AfterAll(views: Views, reqs: seq<Request>, anss: seq<Answer>): Views
    requires |reqs| == |anss|
  {
    if reqs == [] then views
    else
      var n := |reqs| - 1;
      After(AfterAll(views, reqs[..n], anss[..n]), reqs[n], anss[n])
  }

  /** A run of requests, with the guards open before each of them and after the last. */
  ghost predicate Explained(size: nat, views: Views, reqs: seq<Request>, anss: seq<Answer>, opens: seq<seq<Guard>>,
                            k: nat)
    requires k <= |reqs| && k <= |anss| && k < |opens|
  {
    forall i :: 0 <= i < k ==>
      && Allowed(size, AfterAll(views, reqs[..i], anss[..i]), opens[i], reqs[i], anss[i])
      && NowOpen(opens[i], reqs[i], anss[i], opens[i + 1])
  }

  /** A whole run on a pool of any size over any disk: every answer is the map's, and at the end the pool
      shows the map and the client holds the guards it opened and did not drop. */
  method Run(pool: BufferPool, reqs: seq<Request>, open: seq<Guard>, ghost views: Views)
    returns (anss: seq<Answer>, open': seq<Guard>, ghost opens: seq<seq<Guard>>)
    requires Agrees(pool, views, open) && forall i :: 0 <= i < |reqs| ==> ClientOk(reqs[i])
    modifies pool, pool.frames, pool.clock
    ensures |anss| == |reqs| && |opens| == |reqs| + 1 && opens[0] == open && opens[|reqs|] == open'
    ensures Explained(pool.frames.Length, views, reqs, anss, opens, |reqs|)
    ensures Agrees(pool, AfterAll(views, reqs, anss), open')
  {
    hide Agrees, Allowed, NowOpen, ClientOk;
    anss, open', opens := [], open, [open];
    ghost var now := views;
    for k := 0 to |reqs|
      invariant |anss| == k && |opens| == k + 1 && opens[0] == open && opens[k] == open'
      invariant now == AfterAll(views, reqs[..k], anss) && Agrees(pool, now, open')
      invariant Explained(pool.frames.Length, views, reqs, anss, opens, k)
    {
      var ans;
      ghost var before, was, held := open', anss, opens;
      ans, open' := Serve(pool, reqs[k], open', now);
      AllStep(views, reqs, anss, ans, k);
      anss, opens := anss + [ans], opens + [open'];
      now := After(now, reqs[k], ans);
      ExplainedStep(pool.frames.Length, views, reqs, was, held, ans, open', k);
    }
    assert reqs[..|reqs|] == reqs;
  }

  lemma {:induction false} ExplainedStep(size: nat, views: Views, reqs: seq<Request>, anss: seq<Answer>,
                                         opens: seq<seq<Guard>>,
                                         ans: Answer, open: seq<Guard>, k: nat)
    requires |anss| == k < |reqs| && |opens| == k + 1 && Explained(size, views, reqs, anss, opens, k)
    requires Allowed(size, AfterAll(views, reqs[..k], anss), opens[k], reqs[k], ans)
    requires NowOpen(opens[k], reqs[k], ans, open)
    ensures Explained(size, views, reqs, anss + [ans], opens + [open], k + 1)
  {
    hide Allowed, NowOpen, AfterAll;
    var anss', opens' := anss + [ans], opens + [open];
    forall i | 0 <= i < k + 1
      ensures Allowed(size, AfterAll(views, reqs[..i], anss'[..i]), opens'[i], reqs[i], anss'[i])
      ensures NowOpen(opens'[i], reqs[i], anss'[i], opens'[i + 1])
    {
      assert anss'[..i] == anss[..i];
      if i == k {
        assert anss[..i] == anss;
      }
    }
  }

  lemma {:induction false} AllStep(views: Views, reqs: seq<Request>, anss: seq<Answer>, ans: Answer, k: nat)
    requires |anss| == k < |reqs|
    ensures AfterAll(views, reqs[..k + 1], anss + [ans]) == After(AfterAll(views, reqs[..k], anss), reqs[k], ans)
  {
    hide After;
    assert reqs[..k + 1][..k] == reqs[..k] && (anss + [ans])[..k] == anss;
  }

  /** A run on a newly opened pool, from the disk alone. */
  method Session(disk: Disk, size: nat, crc: Crc, reqs: seq<Request>)
    returns (pool: BufferPool, anss: seq<Answer>, open: seq<Guard>, ghost views: Views, ghost opens: seq<seq<Guard>>)
    requires size > 0 && DiskOk(disk, crc) && forall i :: 0 <= i < |reqs| ==> ClientOk(reqs[i])
    ensures fresh(pool) && fresh(pool.frames) && fresh(pool.clock) && pool.frames.Length == size
    ensures forall id :: views(id) == OnDisk(disk, crc, id)
    ensures |anss| == |reqs| && |opens| == |reqs| + 1 && opens[0] == [] && opens[|reqs|] == open
    ensures Explained(size, views, reqs, anss, opens, |reqs|) && Agrees(pool, AfterAll(views, reqs, anss), open)
  {
    hide Inv, View, OnDisk, DiskOk, ClientOk, Explained, Encodable, AfterAll;
    pool := new BufferPool(disk, size, crc);
    views := id => OnDisk(disk, crc, id);
    NoGuards(pool.table);
    anss, open, opens := Run(pool, reqs, [], views);
  }

  lemma {:induction false} NoGuards(table: PageTable)
    ensures Held(table, multiset{}, {}, [])
  {
    assert FramesOf([]) == [];
  }

  /** What a run leaves under `id` is the last page written under it, unless it was found unreadable since; or what
      was there before. */
  lemma {:induction false} LastWriteWins(views: Views, reqs: seq<Request>, anss: seq<Answer>, id: PageId)
    returns (last: Option<nat>)
    requires |reqs| == |anss|
    ensures last.Some? ==>
      && last.value < |reqs| && Touches(reqs[last.value], anss[last.value], id)
      && (forall j :: last.value < j < |reqs| ==> !Touches(reqs[j], anss[j], id))
      && AfterAll(views, reqs, anss)(id) ==
         if Writes(reqs[last.value], anss[last.value], id) then Some(reqs[last.value].page) else None
    ensures last.None? ==>
      (forall i :: 0 <= i < |reqs| ==> !Touches(reqs[i], anss[i], id)) && AfterAll(views, reqs, anss)(id) == views(id)
  {
    hide After;
    last := None;
    if reqs != [] {
      var n := |reqs| - 1;
      WriteShows(AfterAll(views, reqs[..n], anss[..n]), reqs[n], anss[n], id);
      if Touches(reqs[n], anss[n], id) {
        last := Some(n);
      } else {
        last := LastWriteWins(views, reqs[..n], anss[..n], id);
      }
    }
  }

  lemma {:induction false} WriteShows(views: Views, req: Request, ans: Answer, id: PageId)
    ensures After(views, req, ans)(id) ==
      if Writes(req, ans, id) then Some(req.page) else if Touches(req, ans, id) then None else views(id)
  {
  }

  ghost predicate Writes(req: Request, ans: Answer, id: PageId) {
    ((req.Create? && ans.Opened?) || (req.Write? && ans.Done?)) && req.page.id == id
  }

  /** This request wrote the page or found it unreadable. */
  ghost predicate Touches(req: Request, ans: Answer, id: PageId) {
    Writes(req, ans, id) || (req.Fetch? && ans.Failed? && ans.error.Unreadable? && req.id == id)
  }
}

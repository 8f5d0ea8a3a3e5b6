/** The buffer pool: `src/bpm/manager.rs` and the guards of `src/bpm/guards.rs`. Steps happen one at a
    time; `guards` counts the live guards of each frame and `writing` holds the frames whose guard is a
    write guard. */
module Pools {
  import opened Common
  import opened Schemas
  import opened Pages
  import opened PageCodec
  import opened Eviction

  type Disk = map<PageId, seq<Byte>>

  type PageTable = map<PageId, nat>

  // ------------------------------------------------------------------------- the disk

  /** The page the disk holds under `id`. */
  function OnDisk(disk: Disk, crc: Crc, id: PageId): Option<Page> {
    if id !in disk || |disk[id]| != PAGE_SIZE then None
    else
      match Parse(disk[id], crc)
      case Ok(p) => Some(p)
      case Err(_) => None
  }

  /** Every page on disk is whole and, if readable, carries its own id. */
  ghost predicate DiskOk(disk: Disk, crc: Crc) {
    forall id :: id in disk ==>
        |disk[id]| == PAGE_SIZE && (OnDisk(disk, crc, id).Some? ==> OnDisk(disk, crc, id).value.id == id)
  }

  /** What is left of a page once it is on disk only: all of it, unless the reader refuses it. */
  function Faded(p: Option<Page>): Option<Page> {
    if p.Some? && !Returns(p.value) then None else p
  }

  /** These bytes are the page, written. */
  ghost predicate Image(raw: seq<Byte>, crc: Crc, p: Page) {
    |raw| == PAGE_SIZE && Parse(raw, crc) == if Returns(p) then Ok(p) else Err(BadMeta)
  }

  // ------------------------------------------------------------------------ the frames

  /** What the pool shows its clients under `id`: the cached page, or else the one on disk. */
  function View(frames: seq<Frame>, table: PageTable, disk: Disk, crc: Crc, id: PageId): Option<Page> {
    if id in table then (if table[id] < |frames| then frames[table[id]].page else None)
    else OnDisk(disk, crc, id)
  }

  /** A mapped frame holds the page of its key; if it is clean, the disk holds the same page, as far as it can
      be read back. */
  ghost predicate FrameOk(f: Frame, id: PageId, disk: Disk, crc: Crc) {
    && f.page.Some? && f.page.value.id == id && Typed(f.page.value)
    && (!f.dirty ==> Encodable(f.page.value) && id in disk && OnDisk(disk, crc, id) == Faded(f.page))
  }

  ghost predicate Mapped(table: PageTable, f: nat) {
    exists id :: id in table && table[id] == f
  }

  /** Frames are shared out between the page table, the free list and the `hole`, each in one place. */
  ghost predicate Shared(n: nat, table: PageTable, free: seq<nat>, hole: Option<nat>) {
    && (forall id :: id in table ==> table[id] < n && table[id] !in free && hole != Some(table[id]))
    && (forall id, id' :: id in table && id' in table && id != id' ==> table[id] != table[id'])
    && (forall i :: 0 <= i < |free| ==> free[i] < n && hole != Some(free[i]))
    && (forall i, j :: 0 <= i < j < |free| ==> free[i] != free[j])
    && (hole.Some? ==> hole.value < n)
    && (forall f :: 0 <= f < n ==> Mapped(table, f) || f in free || hole == Some(f))
  }

  /** Pins count live guards; a write guard is alone; only mapped frames are pinned. */
  ghost predicate Counted(frames: seq<Frame>, table: PageTable, guards: multiset<nat>, writing: set<nat>) {
    && (forall f :: 0 <= f < |frames| ==> frames[f].pins == guards[f])
    && (forall f :: f in guards ==> f < |frames| && Mapped(table, f))
    && (forall f :: f in writing ==> guards[f] == 1)
  }

  ghost predicate Contained(frames: seq<Frame>, table: PageTable, disk: Disk, crc: Crc) {
    forall id :: id in table ==> table[id] < |frames| && FrameOk(frames[table[id]], id, disk, crc)
  }

  /** Free frames hold nothing that a flush could write. */
  ghost predicate Blank(frames: seq<Frame>, free: seq<nat>) {
    forall i :: 0 <= i < |free| ==> free[i] < |frames| && frames[free[i]].page.None? && !frames[free[i]].dirty
  }

  /** The invariant of the pool, with frame `hole` claimed but not mapped yet. */
  ghost predicate Inv(frames: seq<Frame>, table: PageTable, free: seq<nat>, disk: Disk, crc: Crc,
                      guards: multiset<nat>, writing: set<nat>, hole: Option<nat>) {
    && |frames| > 0
    && DiskOk(disk, crc)
    && Shared(|frames|, table, free, hole)
    && Contained(frames, table, disk, crc)
    && Counted(frames, table, guards, writing)
    && Blank(frames, free)
  }

  ghost predicate SameViews(frames: seq<Frame>, table: PageTable, disk: Disk, frames': seq<Frame>, table': PageTable,
                            disk': Disk, crc: Crc) {
    forall id :: View(frames', table', disk', crc, id) == View(frames, table, disk, crc, id)
  }

  /** No view changes, except that a page which left the cache is as the disk has it. */
  ghost predicate EvictedViews(frames: seq<Frame>, table: PageTable, disk: Disk, frames': seq<Frame>,
                               table': PageTable, disk': Disk, crc: Crc) {
    forall id :: View(frames', table', disk', crc, id) ==
      if id in table && id !in table' then Faded(View(frames, table, disk, crc, id))
      else View(frames, table, disk, crc, id)
  }

  /** Every page that left the cache is on disk, and the disk forgets none. */
  ghost predicate Saved(frames: seq<Frame>, table: PageTable, disk: Disk, table': PageTable, disk': Disk) {
    && (forall id :: id in disk ==> id in disk')
    && (forall id :: id in table && id !in table' ==>
        && id in disk' && table[id] < |frames| && frames[table[id]].page.Some?
        && Encodable(frames[table[id]].page.value))
  }

  /** Frames under a guard hold the page they held. */
  ghost predicate PagesKept(frames: seq<Frame>, frames': seq<Frame>, guards: multiset<nat>) {
    |frames'| == |frames| && forall f :: 0 <= f < |frames| && guards[f] > 0 ==> frames'[f].page == frames[f].page
  }

  /** Pages under a guard stay mapped to their frame. */
  ghost predicate MappingsKept(table: PageTable, table': PageTable, guards: multiset<nat>) {
    forall id :: id in table && guards[table[id]] > 0 ==> id in table' && table'[id] == table[id]
  }

  // ------------------------------------------------------------------- when frames run out

  /** No frame is free and all are pinned. */
  ghost predicate Exhausted(frames: seq<Frame>, free: seq<nat>) {
    free == [] && forall f :: 0 <= f < |frames| ==> Pinned(frames[f])
  }

  /** A page that would have to be written and cannot. */
  ghost predicate Unsaveable(f: Frame) {
    f.dirty && f.page.Some? && !Encodable(f.page.value)
  }

  /** No frame is free and the one to evict cannot be written. */
  ghost predicate Stuck(frames: seq<Frame>, free: seq<nat>, hand: nat) {
    free == [] && exists v :: 0 <= v < |frames| && IsVictim(frames, hand, v) && Unsaveable(frames[v])
  }

  /** Whether the pool is stuck depends on its victim alone. */
  lemma {:induction false} StuckIs(frames: seq<Frame>, free: seq<nat>, hand: nat, v: nat)
    requires free == [] && v < |frames| && IsVictim(frames, hand, v)
    ensures Stuck(frames, free, hand) <==> Unsaveable(frames[v])
    ensures !Exhausted(frames, free)
  {
    hide At, Unsaveable;
    if x :| 0 <= x < |frames| && IsVictim(frames, hand, x) && Unsaveable(frames[x]) {
      VictimUnique(frames, hand, v, x);
    }
  }

  lemma {:induction false} ExhaustedIsNotStuck(frames: seq<Frame>, free: seq<nat>, hand: nat)
    requires Exhausted(frames, free)
    ensures !Stuck(frames, free, hand)
  {
    hide At, Unsaveable;
    if x :| 0 <= x < |frames| && IsVictim(frames, hand, x) && Unsaveable(frames[x]) {
      StuckIs(frames, free, hand, x);
    }
  }

  // -------------------------------------------------------------------- effects of a step

  /** Clearing reference bits changes nothing that matters. */
  lemma {:induction false} BitsDoNotMatter(frames: seq<Frame>, frames': seq<Frame>, table: PageTable, free: seq<nat>,
                                           disk: Disk, crc: Crc,
                                           guards: multiset<nat>, writing: set<nat>, hole: Option<nat>)
    requires Inv(frames, table, free, disk, crc, guards, writing, hole) && SameButBits(frames, frames')
    ensures Inv(frames', table, free, disk, crc, guards, writing, hole)
    ensures SameViews(frames, table, disk, frames', table, disk, crc)
  {
    hide DiskOk, Shared, OnDisk, Mapped, Typed, Encodable, Faded;
  }

  /** Writing a page to disk under its id changes what the disk holds there and nowhere else. */
  lemma {:induction false} DiskWrite(disk: Disk, crc: Crc, p: Page, raw: seq<Byte>)
    requires DiskOk(disk, crc) && Image(raw, crc, p)
    ensures DiskOk(disk[p.id := raw], crc) && OnDisk(disk[p.id := raw], crc, p.id) == Faded(Some(p))
    ensures forall id :: id != p.id ==> OnDisk(disk[p.id := raw], crc, id) == OnDisk(disk, crc, id)
  {
    hide Parse, Returns;
  }

  /** Writing a mapped page to disk keeps the invariant and every view; the page may be called clean. */
  lemma {:induction false} FlushFrame(frames: seq<Frame>, table: PageTable, free: seq<nat>, disk: Disk, crc: Crc,
                                      guards: multiset<nat>, writing: set<nat>,
                                      v: nat, raw: seq<Byte>, dirty': bool)
    requires Inv(frames, table, free, disk, crc, guards, writing, None) && v < |frames| && Mapped(table, v)
    requires frames[v].page.Some?
    requires Image(raw, crc, frames[v].page.value) && Encodable(frames[v].page.value)
    ensures var p := frames[v].page.value; var frames', disk' := frames[v := frames[v].(dirty := dirty')],
        disk[p.id := raw];
      && Inv(frames', table, free, disk', crc, guards, writing, None)
      && SameViews(frames, table, disk, frames', table, disk', crc)
  {
    hide DiskOk, OnDisk, Image, Typed, Encodable, Returns;
    var p := frames[v].page.value;
    var frames', disk' := frames[v := frames[v].(dirty := dirty')], disk[p.id := raw];
    MappedUnder(frames, table, disk, crc, v);
    DiskWrite(disk, crc, p, raw);
    forall id | id in table
      ensures FrameOk(frames'[table[id]], id, disk', crc)
    {
      assert FrameOk(frames[table[id]], id, disk, crc);
    }
    assert Counted(frames', table, guards, writing) by { hide Mapped; }
  }

  /** A mapped frame is mapped under the id of its page. */
  lemma {:induction false} MappedUnder(frames: seq<Frame>, table: PageTable, disk: Disk, crc: Crc, v: nat)
    requires Contained(frames, table, disk, crc) && v < |frames| && Mapped(table, v)
    ensures frames[v].page.Some? && Typed(frames[v].page.value)
    ensures frames[v].page.value.id in table && table[frames[v].page.value.id] == v
    ensures FrameOk(frames[v], frames[v].page.value.id, disk, crc)
  {
    hide Typed, Encodable, Faded, OnDisk;
    var id :| id in table && table[id] == v;
    assert FrameOk(frames[table[id]], id, disk, crc);
  }

  /** Unmapping an unpinned frame whose page is on disk keeps every view, as far as that page can be read back: no
      update is lost. */
  lemma {:induction false} Unmap(frames: seq<Frame>, table: PageTable, disk: Disk, crc: Crc, guards: multiset<nat>,
                                 writing: set<nat>, v: nat)
    requires Inv(frames, table, [], disk, crc, guards, writing, None) && v < |frames| && frames[v].pins == 0
    ensures Mapped(table, v) && frames[v].page.Some?
    ensures var p := frames[v].page.value;
      OnDisk(disk, crc, p.id) == Faded(Some(p)) ==>
      && Inv(frames, table - {p.id}, [], disk, crc, guards, writing, Some(v))
      && EvictedViews(frames, table, disk, frames, table - {p.id}, disk, crc)
    ensures MappingsKept(table, table - {frames[v].page.value.id}, guards) && guards[v] == 0
  {
    hide DiskOk, OnDisk, Typed, Encodable, Faded, FrameOk, Shared, Counted, Contained, Mapped, MappingsKept;
    AllMapped(|frames|, table, v);
    MappedUnder(frames, table, disk, crc, v);
    var p := frames[v].page.value;
    UnmapShared(|frames|, table, p.id);
    UnmapCounted(frames, table, guards, writing, p.id);
    UnmapContained(frames, table, disk, crc, p.id);
    UnmapKept(frames, table, guards, writing, p.id);
  }

  lemma {:induction false} AllMapped(n: nat, table: PageTable, v: nat)
    requires Shared(n, table, [], None) && v < n
    ensures Mapped(table, v)
  {
    hide Mapped;
  }

  lemma {:induction false} UnmapMapped(table: PageTable, id: PageId, f: nat)
    requires id in table && forall x, y :: x in table && y in table && x != y ==> table[x] != table[y]
    ensures Mapped(table - {id}, f) <==> Mapped(table, f) && f != table[id]
  {
    var table' := table - {id};
    if x :| x in table && table[x] == f {
      assert f != table[id] ==> x in table' && table'[x] == f;
    }
  }

  lemma {:induction false} UnmapShared(n: nat, table: PageTable, id: PageId)
    requires Shared(n, table, [], None) && id in table
    ensures Shared(n, table - {id}, [], Some(table[id]))
  {
    hide Mapped;
    forall f | 0 <= f < n
      ensures Mapped(table - {id}, f) || f == table[id]
    {
      UnmapMapped(table, id, f);
    }
  }

  lemma {:induction false} UnmapCounted(frames: seq<Frame>, table: PageTable, guards: multiset<nat>, writing: set<nat>,
                                        id: PageId)
    requires Counted(frames, table, guards, writing) && Shared(|frames|, table, [], None)
    requires id in table && table[id] < |frames| && frames[table[id]].pins == 0
    ensures Counted(frames, table - {id}, guards, writing)
  {
    hide Mapped;
    forall f | f in guards
      ensures Mapped(table - {id}, f)
    {
      UnmapMapped(table, id, f);
    }
  }

  lemma {:induction false} UnmapContained(frames: seq<Frame>, table: PageTable, disk: Disk, crc: Crc, id: PageId)
    requires Contained(frames, table, disk, crc) && id in table && table[id] < |frames|
    ensures Contained(frames, table - {id}, disk, crc)
    ensures OnDisk(disk, crc, id) == Faded(frames[table[id]].page) ==>
      EvictedViews(frames, table, disk, frames, table - {id}, disk, crc)
  {
    hide OnDisk, FrameOk;
  }

  lemma {:induction false} UnmapKept(frames: seq<Frame>, table: PageTable, guards: multiset<nat>, writing: set<nat>,
                                     id: PageId)
    requires Counted(frames, table, guards, writing) && id in table && table[id] < |frames|
    requires frames[table[id]].pins == 0
    ensures MappingsKept(table, table - {id}, guards) && guards[table[id]] == 0
  {
    hide Mapped;
  }

  /** Mapping a claimed frame to a page that was not cached: the view of that page becomes it. */
  lemma {:induction false} Install(frames: seq<Frame>, table: PageTable, free: seq<nat>, disk: Disk, crc: Crc,
                                   guards: multiset<nat>, writing: set<nat>,
                                   v: nat, p: Page, dirty: bool, wr: bool)
    requires Inv(frames, table, free, disk, crc, guards, writing, Some(v)) && p.id !in table && Typed(p)
    requires !dirty ==> Encodable(p) && p.id in disk && OnDisk(disk, crc, p.id) == Faded(Some(p))
    ensures v < |frames|
    ensures var frames', table' := frames[v := Frame(Some(p), 1, dirty, true)], table[p.id := v];
      && Inv(frames', table', free, disk, crc, guards + multiset{v}, if wr then writing + {v} else writing, None)
      && View(frames', table', disk, crc, p.id) == Some(p)
      && (forall id :: id != p.id ==> View(frames', table', disk, crc, id) == View(frames, table, disk, crc, id))
      && guards[v] == 0
  {
    hide DiskOk, OnDisk, Typed, Encodable, Faded, Shared, Contained, Counted;
    MapShared(|frames|, table, free, v, p.id);
    MapContained(frames, table, free, disk, crc, v, p, Frame(Some(p), 1, dirty, true));
    MapCounted(frames, table, free, guards, writing, v, p.id, Frame(Some(p), 1, dirty, true), wr);
    HoleNotFree(|frames|, table, free, v);
  }

  lemma {:induction false} HoleNotFree(n: nat, table: PageTable, free: seq<nat>, v: nat)
    requires Shared(n, table, free, Some(v))
    ensures forall i :: 0 <= i < |free| ==> free[i] != v
  {
  }

  lemma {:induction false} MapMapped(table: PageTable, id: PageId, v: nat, f: nat)
    requires id !in table
    ensures Mapped(table[id := v], f) <==> Mapped(table, f) || f == v
  {
    var table' := table[id := v];
    if x :| x in table && table[x] == f {
      assert x in table' && table'[x] == f;
    }
    if f == v {
      assert id in table' && table'[id] == f;
    }
  }

  lemma {:induction false} MapShared(n: nat, table: PageTable, free: seq<nat>, v: nat, id: PageId)
    requires Shared(n, table, free, Some(v)) && id !in table
    ensures Shared(n, table[id := v], free, None) && v < n
  {
    forall f | 0 <= f < n
      ensures Mapped(table[id := v], f) || f in free
    {
      MapMapped(table, id, v, f);
    }
    hide Mapped;
  }

  lemma {:induction false} MapContained(frames: seq<Frame>, table: PageTable, free: seq<nat>, disk: Disk, crc: Crc,
                                        v: nat, p: Page, f: Frame)
    requires Contained(frames, table, disk, crc) && Shared(|frames|, table, free, Some(v)) && v < |frames|
    requires p.id !in table && FrameOk(f, p.id, disk, crc)
    ensures var frames', table' := frames[v := f], table[p.id := v];
      && Contained(frames', table', disk, crc)
      && (forall id :: id != p.id ==> View(frames', table', disk, crc, id) == View(frames, table, disk, crc, id))
  {
    hide OnDisk, FrameOk, Mapped;
  }

  lemma {:induction false} MapCounted(frames: seq<Frame>, table: PageTable, free: seq<nat>, guards: multiset<nat>,
                                      writing: set<nat>, v: nat, id: PageId, f: Frame, wr: bool)
    requires Counted(frames, table, guards, writing) && Shared(|frames|, table, free, Some(v)) && v < |frames|
    requires id !in table && f.pins == 1
    ensures Counted(frames[v := f], table[id := v], guards + multiset{v}, if wr then writing + {v} else writing)
    ensures guards[v] == 0
  {
    assert !Mapped(table, v);
    assert v !in guards;
    forall x | x in guards + multiset{v}
      ensures x < |frames| && Mapped(table[id := v], x)
    {
      MapMapped(table, id, v, x);
      assert x in guards || x == v;
    }
    hide Mapped, Shared;
  }

  /** One more guard on a cached page. */
  lemma {:induction false} Pin(frames: seq<Frame>, table: PageTable, free: seq<nat>, disk: Disk, crc: Crc,
                               guards: multiset<nat>, writing: set<nat>, id: PageId, wr: bool)
    requires Inv(frames, table, free, disk, crc, guards, writing, None) && id in table && table[id] !in writing
    requires (wr ==> guards[table[id]] == 0)
    ensures table[id] < |frames| && frames[table[id]].page.Some? && frames[table[id]].page.value.id == id
    ensures var v := table[id]; var frames' := frames[v := frames[v].(pins := frames[v].pins + 1, referenced := true)];
      && Inv(frames', table, free, disk, crc, guards + multiset{v}, if wr then writing + {v} else writing, None)
      && SameViews(frames, table, disk, frames', table, disk, crc)
  {
    hide DiskOk, OnDisk, Typed, Encodable, Faded;
    var v := table[id];
    var frames' := frames[v := frames[v].(pins := frames[v].pins + 1, referenced := true)];
    assert Mapped(table, v);
    assert FrameOk(frames[table[id]], id, disk, crc);
    hide Mapped;
    forall x | x in guards + multiset{v}
      ensures x < |frames'| && Mapped(table, x)
    {
      assert x in guards || x == v;
    }
  }

  /** Dropping a guard. */
  lemma {:induction false} Unpin(frames: seq<Frame>, table: PageTable, free: seq<nat>, disk: Disk, crc: Crc,
                                 guards: multiset<nat>, writing: set<nat>, v: nat)
    requires Inv(frames, table, free, disk, crc, guards, writing, None) && v in guards
    ensures v < |frames| && frames[v].pins > 0
    ensures var frames' := frames[v := frames[v].(pins := frames[v].pins - 1)];
      && Inv(frames', table, free, disk, crc, guards - multiset{v}, writing - {v}, None)
      && SameViews(frames, table, disk, frames', table, disk, crc)
  {
    hide DiskOk, OnDisk, Typed, Encodable, Faded, Mapped;
    var frames' := frames[v := frames[v].(pins := frames[v].pins - 1)];
    forall id | id in table
      ensures FrameOk(frames'[table[id]], id, disk, crc)
    {
      assert FrameOk(frames[table[id]], id, disk, crc);
    }
    assert forall x :: x in guards - multiset{v} ==> x in guards;
  }

  /** Writing through a guard: the view of that page becomes what was written, and no other changes. */
  lemma {:induction false} WriteFrame(frames: seq<Frame>, table: PageTable, free: seq<nat>, disk: Disk, crc: Crc,
                                      guards: multiset<nat>, writing: set<nat>, v: nat, p: Page)
    requires Inv(frames, table, free, disk, crc, guards, writing, None) && v in writing && Typed(p)
    ensures v < |frames| && frames[v].page.Some?
    ensures var frames' := frames[v := frames[v].(page := Some(p), dirty := true)];
      frames[v].page.value.id == p.id ==>
      && Inv(frames', table, free, disk, crc, guards, writing, None)
      && View(frames', table, disk, crc, p.id) == Some(p)
      && (forall id :: id != p.id ==> View(frames', table, disk, crc, id) == View(frames, table, disk, crc, id))
  {
    hide DiskOk, OnDisk, Typed, Encodable, Faded;
    assert v in guards;
    MappedUnder(frames, table, disk, crc, v);
    hide Mapped;
    var frames' := frames[v := frames[v].(page := Some(p), dirty := true)];
    if frames[v].page.value.id == p.id {
      forall id | id in table
        ensures FrameOk(frames'[table[id]], id, disk, crc)
      {
        assert FrameOk(frames[table[id]], id, disk, crc);
      }
    }
  }
}

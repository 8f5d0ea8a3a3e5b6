/** The operations of the buffer pool (`src/bpm/manager.rs`, `src/bpm/guards.rs`). What a client sees of
    a page changes only when it creates the page or writes through a guard on it; the one exception is a meta
    page that the reader refuses, which is gone once it is evicted. */
module BufferPools {
  import opened Common
  import opened Schemas
  import opened Pages
  import opened PageCodec
  import opened CodecMethods
  import Layout
  import opened Eviction
  import opened Pools

  datatype BpmError = AlreadyExists | NoFreeFrames | NotOnDisk | Unreadable(cause: DecodeError) |
      Unwritable(why: EncodeError) | DiskPanic

  class BufferPool {
    const crc: Crc
    const frames: array<Frame>
    const clock: ClockEvictor
    var table: PageTable
    var free: seq<nat>
    var disk: Disk

    ghost var guards: multiset<nat>
    ghost var writing: set<nat>

    ghost predicate Holds(hole: Option<nat>)
      reads this, frames, clock
    {
      frames.Length > 0 && clock.hand < frames.Length && Inv(frames[..], table, free, disk, crc, guards, writing, hole)
    }

    ghost predicate Valid()
      reads this, frames, clock
    {
      Holds(None)
    }

    /** What the pool shows under `id`. */
    ghost function See(id: PageId): Option<Page>
      reads this, frames
    {
      View(frames[..], table, disk, crc, id)
    }

    constructor (disk: Disk, size: nat, crc: Crc)
      requires size > 0 && DiskOk(disk, crc)
      ensures Valid() && guards == multiset{} && writing == {} && fresh(frames) && fresh(clock)
      ensures frames.Length == size && this.crc == crc
      ensures forall id :: See(id) == OnDisk(disk, crc, id)
    {
      this.crc := crc;
      this.disk := disk;
      frames := new Frame[size](_ => Frame(None, 0, false, false));
      clock := new ClockEvictor();
      table := map[];
      free := seq(size, i => i);
      guards, writing := multiset{}, {};
      new;
      hide Inv, OnDisk;
      EmptyPool(frames[..], free, disk, crc);
    }

    /** `claim_frame`: a free frame, or the frame of an evicted page, written to disk first if it is
        dirty. No view changes but that of the evicted page, if it cannot be read back. */
    method ClaimFrame() returns (res: Result<nat, BpmError>)
      requires Valid()
      modifies this`table, this`free, this`disk, frames, clock
      ensures res.Ok? ==> Holds(Some(res.value)) && guards[res.value] == 0
      ensures res.Err? ==> Valid() && (res.error == NoFreeFrames || res.error.Unwritable?)
      ensures res == Err(NoFreeFrames) <==> old(Exhausted(frames[..], free))
      ensures res.Err? && res.error.Unwritable? <==> old(Stuck(frames[..], free, clock.hand))
      ensures forall id :: See(id) == if id in old(table) && id !in table then Faded(old(See(id))) else old(See(id))
      ensures res.Err? ==> table == old(table)
      ensures forall id :: id in table ==> id in old(table)
      ensures Saved(old(frames[..]), old(table), old(disk), table, disk)
      ensures SameButBits(old(frames[..]), frames[..]) && MappingsKept(old(table), table, guards)
    {
      hide Inv, View, OnDisk, IsVictim, Encodable;
      if free != [] {
        PopFree(frames[..], table, free, disk, crc, guards, writing);
        res := Ok(free[|free| - 1]);
        free := free[..|free| - 1];
        return;
      }
      ghost var before, hand := frames[..], clock.hand;
      var victim := clock.FindVictim(frames);
      BitsDoNotMatter(before, frames[..], table, free, disk, crc, guards, writing, None);
      if victim.None? {
        ExhaustedIsNotStuck(before, free, hand);
        return Err(NoFreeFrames);
      }
      res := Evict(victim.value, before, hand);
    }

    /** Takes the victim out of the page table, writing its page first if it is dirty. */
    method Evict(v: nat, ghost before: seq<Frame>, ghost hand: nat) returns (res: Result<nat, BpmError>)
      requires Valid() && free == [] && v < frames.Length && !Pinned(frames[v])
      requires SameButBits(before, frames[..]) && IsVictim(before, hand, v)
      modifies this`table, this`disk
      ensures res.Ok? ==> res.value == v && Holds(Some(v)) && guards[v] == 0
      ensures res.Err? ==> Valid() && res.error.Unwritable?
      ensures res.Err? <==> Stuck(before, free, hand)
      ensures !Exhausted(before, free)
      ensures forall id :: See(id) == if id in old(table) && id !in table then Faded(old(See(id))) else old(See(id))
      ensures res.Err? ==> table == old(table)
      ensures forall id :: id in table ==> id in old(table)
      ensures Saved(old(frames[..]), old(table), old(disk), table, disk)
      ensures MappingsKept(old(table), table, guards)
    {
      hide Inv, View, OnDisk, IsVictim, Encodable, Stuck, Exhausted, MappingsKept, Faded;
      StuckIs(before, free, hand, v);
      assert before[v].dirty == frames[v].dirty && before[v].page == frames[v].page;
      hide SameButBits;
      var written := WriteBack(v);
      if written.Err? {
        MappingsSame(table, guards);
        return Err(written.error);
      }
      Unmap(frames[..], table, disk, crc, guards, writing, v);
      table := table - {frames[v].page.value.id};
      res := Ok(v);
    }

    /** Writes the page of a victim to disk if it is dirty. No view changes. */
    method WriteBack(v: nat) returns (res: Result<(), BpmError>)
      requires Valid() && free == [] && v < frames.Length && !Pinned(frames[v])
      modifies this`disk
      ensures Valid() && frames[v].page.Some? && frames[v].page.value.id in table
      ensures table[frames[v].page.value.id] == v
      ensures res.Err? <==> Unsaveable(frames[v])
      ensures res.Err? ==> res.error.Unwritable?
      ensures forall id :: See(id) == old(See(id))
      ensures forall id :: id in old(disk) ==> id in disk
      ensures res.Ok? ==>
        var p := frames[v].page.value;
        Encodable(p) && p.id in disk && OnDisk(disk, crc, p.id) == Faded(Some(p))
    {
      hide Inv, View, OnDisk, Encodable, MappingsKept, Faded, Typed, Parse;
      hide Layout.PageIs, Layout.Packed, Layout.Proper, Reported;
      Unmap(frames[..], table, disk, crc, guards, writing, v);
      MappedTyped(frames[..], table, free, disk, crc, guards, writing, v);
      var p := frames[v].page.value;
      if frames[v].dirty {
        var raw := AsRawPage(p, crc);
        if raw.Err? {
          return Err(Unwritable(raw.error));
        }
        FlushFrame(frames[..], table, free, disk, crc, guards, writing, v, raw.value, true);
        assert frames[..][v := frames[v].(dirty := true)] == frames[..];
        DiskHas(disk, crc, p, raw.value);
        disk := disk[p.id := raw.value];
      }
      res := Ok(());
    }

    /** Claims a frame and puts a page into it that is not cached, under a new guard. */
    method Cache(page: Page, dirty: bool, ghost wr: bool) returns (res: Result<nat, BpmError>)
      requires Valid() && Typed(page) && page.id !in table
      requires !dirty ==>
        Encodable(page) && Returns(page) && page.id in disk && OnDisk(disk, crc, page.id) == Some(page)
      modifies this, frames, clock
      ensures Valid()
      ensures res == Err(NoFreeFrames) <==> old(Exhausted(frames[..], free))
      ensures res.Err? && res.error.Unwritable? <==> old(Stuck(frames[..], free, clock.hand))
      ensures res.Err? ==> res.error == NoFreeFrames || res.error.Unwritable?
      ensures res.Ok? ==>
        && See(page.id) == Some(page)
        && (forall id :: id != page.id ==>
            See(id) == if id in old(table) && id !in table then Faded(old(See(id))) else old(See(id)))
        && res.value < frames.Length && frames[res.value].referenced && frames[res.value].page == Some(page)
        && page.id in table && table[page.id] == res.value
        && guards == old(guards) + multiset{res.value} && res.value !in old(writing)
        && writing == (if wr then old(writing) + {res.value} else old(writing))
      ensures res.Err? ==> (forall id :: See(id) == old(See(id))) && guards == old(guards) && writing == old(writing)
      ensures res.Err? ==> table == old(table)
      ensures PagesKept(old(frames[..]), frames[..], old(guards)) && MappingsKept(old(table), table, old(guards))
      ensures Saved(old(frames[..]), old(table), old(disk), table, disk)
    {
      hide Inv, View, OnDisk, Typed, Encodable, Returns, Stuck, Exhausted, MappingsKept;
      ViewUncached(frames[..], table, disk, crc, page.id);
      var claimed := ClaimFrame();
      if claimed.Err? {
        return Err(claimed.error);
      }
      var v := claimed.value;
      ViewUncached(frames[..], table, disk, crc, page.id);
      assert page.id !in old(table) && See(page.id) == old(See(page.id));
      MappingsMore(old(table), table, guards, page.id, v);
      Fill(v, page, dirty, wr);
      res := Ok(v);
    }

    /** Puts a page that is not cached into a claimed frame, under a new guard. */
    method Fill(v: nat, page: Page, dirty: bool, ghost wr: bool)
      requires Holds(Some(v)) && Typed(page) && page.id !in table
      requires !dirty ==> Encodable(page) && page.id in disk && OnDisk(disk, crc, page.id) == Faded(Some(page))
      modifies this`table, this`guards, this`writing, frames
      ensures Valid() && v < frames.Length && old(guards[v]) == 0 && v !in old(writing)
      ensures See(page.id) == Some(page) && forall id :: id != page.id ==> See(id) == old(See(id))
      ensures frames[..] == old(frames[..])[v := Frame(Some(page), 1, dirty, true)]
      ensures table == old(table)[page.id := v] && guards == old(guards) + multiset{v}
      ensures writing == if wr then old(writing) + {v} else old(writing)
    {
      hide Inv, View, OnDisk, Typed, Encodable, Returns;
      ghost var now := frames[..];
      Install(now, table, free, disk, crc, guards, writing, v, page, dirty, wr);
      NotWriting(now, table, free, disk, crc, guards, writing, v);
      frames[v] := Frame(Some(page), 1, dirty, true);
      assert frames[..] == now[v := Frame(Some(page), 1, dirty, true)];
      table := table[page.id := v];
      guards := guards + multiset{v};
      if wr {
        writing := writing + {v};
      }
    }

    /** The page on disk under `id`, decoded. */
    method ReadPage(id: PageId) returns (res: Result<Page, BpmError>)
      requires Valid()
      ensures res.Ok? <==> OnDisk(disk, crc, id).Some?
      ensures res.Ok? ==> OnDisk(disk, crc, id) == Some(res.value) && res.value.id == id && Typed(res.value)
      ensures res.Ok? ==> Encodable(res.value) && Returns(res.value)
      ensures res == Err(NotOnDisk) <==> id !in disk
      ensures res.Err? && res.error.Unreadable? <==> id in disk && OnDisk(disk, crc, id).None?
      ensures res.Err? ==> res.error == NotOnDisk || res.error.Unreadable?
    {
      hide Inv, OnDisk, Typed, Faded, Parse, Layout.PageIs, Layout.Proper, Layout.Num4;
      OnDiskIn(disk, crc, id);
      if id !in disk {
        return Err(NotOnDisk);
      }
      DiskWhole(frames[..], table, free, disk, crc, guards, writing, id);
      var read := Deserialize(disk[id], crc);
      if read.Err? {
        return Err(Unreadable(read.error));
      }
      res := Ok(read.value);
    }

    /** `new_page`: caches a page under a write guard, marked dirty. */
    method NewPage(page: Page) returns (res: Result<nat, BpmError>)
      requires Valid() && Typed(page)
      modifies this, frames, clock
      ensures Valid()
      ensures res == Err(AlreadyExists) <==> page.id in old(table)
      ensures res == Err(NoFreeFrames) <==> page.id !in old(table) && old(Exhausted(frames[..], free))
      ensures res.Err? && res.error.Unwritable? <==> page.id !in old(table) && old(Stuck(frames[..], free, clock.hand))
      ensures res.Err? ==> res.error == AlreadyExists || res.error == NoFreeFrames || res.error.Unwritable?
      ensures PagesKept(old(frames[..]), frames[..], old(guards)) && MappingsKept(old(table), table, old(guards))
      ensures Saved(old(frames[..]), old(table), old(disk), table, disk)
      ensures res.Ok? ==>
        && See(page.id) == Some(page)
        && (forall id :: id != page.id ==>
            See(id) == if id in old(table) && id !in table then Faded(old(See(id))) else old(See(id)))
        && res.value < frames.Length && frames[res.value].referenced && frames[res.value].page == Some(page)
        && page.id in table && table[page.id] == res.value
        && guards == old(guards) + multiset{res.value} && writing == old(writing) + {res.value}
        && res.value !in old(writing)
      ensures res.Err? ==> (forall id :: See(id) == old(See(id))) && guards == old(guards) && writing == old(writing)
      ensures res.Err? ==> table == old(table)
    {
      hide Inv, View, OnDisk, Typed, Faded, Stuck, Exhausted, MappingsKept;
      if page.id in table {
        MappingsSame(table, guards);
        return Err(AlreadyExists);
      }
      res := Cache(page, true, true);
    }

    /** `load_page`, and the pin that follows: reads the page from disk before a frame is claimed. */
    method LoadPage(id: PageId, ghost wr: bool) returns (res: Result<nat, BpmError>)
      requires Valid() && id !in table
      modifies this, frames, clock
      ensures Valid()
      ensures forall x :: See(x) == if x in old(table) && x !in table then Faded(old(See(x))) else old(See(x))
      ensures id !in table ==> table == old(table)
      ensures res.Ok? ==>
        && res.value < frames.Length && frames[res.value].referenced && frames[res.value].page == See(id)
        && See(id).Some? && See(id).value.id == id
        && id in table && table[id] == res.value
        && guards == old(guards) + multiset{res.value} && res.value !in old(writing)
        && writing == (if wr then old(writing) + {res.value} else old(writing))
      ensures res.Err? ==> guards == old(guards) && writing == old(writing)
      ensures res == Err(NotOnDisk) <==> id !in old(disk)
      ensures res.Err? && res.error.Unreadable? <==> id in old(disk) && old(OnDisk(disk, crc, id)).None?
      ensures res == Err(NoFreeFrames) <==> old(OnDisk(disk, crc, id)).Some? && old(Exhausted(frames[..], free))
      ensures res.Err? && res.error.Unwritable? <==>
        old(OnDisk(disk, crc, id)).Some? && old(Stuck(frames[..], free, clock.hand))
      ensures res != Err(AlreadyExists) && res != Err(DiskPanic)
      ensures PagesKept(old(frames[..]), frames[..], old(guards)) && MappingsKept(old(table), table, old(guards))
      ensures Saved(old(frames[..]), old(table), old(disk), table, disk)
    {
      hide Inv, View, OnDisk, Typed, Faded, Parse, Stuck, Exhausted, MappingsKept;
      ViewUncached(frames[..], table, disk, crc, id);
      var read := ReadPage(id);
      if read.Err? {
        MappingsSame(table, guards);
        return Err(read.error);
      }
      res := Cache(read.value, false, wr);
    }

    /** `checkout_page`, for a read or a write guard: finds or loads the page and pins its frame. A guard
        never gets another page than the one asked for. */
    method Checkout(id: PageId, ghost wr: bool) returns (res: Result<nat, BpmError>)
      requires Valid()
      requires id in table ==> table[id] !in writing && (wr ==> guards[table[id]] == 0)
      modifies this, frames, clock
      ensures Valid()
      ensures forall x :: See(x) == if x in old(table) && x !in table then Faded(old(See(x))) else old(See(x))
      ensures id !in table ==> table == old(table)
      ensures res.Ok? ==>
        && res.value < frames.Length && frames[res.value].referenced && frames[res.value].page == See(id)
        && See(id).Some? && See(id).value.id == id
        && id in table && table[id] == res.value
        && guards == old(guards) + multiset{res.value} && res.value !in old(writing)
        && writing == (if wr then old(writing) + {res.value} else old(writing))
      ensures res.Err? ==> guards == old(guards) && writing == old(writing) && id !in old(table)
      ensures res == Err(NotOnDisk) <==> id !in old(table) && id !in old(disk)
      ensures res.Err? && res.error.Unreadable? <==>
        id !in old(table) && id in old(disk) && old(OnDisk(disk, crc, id)).None?
      ensures res == Err(NoFreeFrames) <==>
        id !in old(table) && old(OnDisk(disk, crc, id)).Some? && old(Exhausted(frames[..], free))
      ensures res.Err? && res.error.Unwritable? <==>
        id !in old(table) && old(OnDisk(disk, crc, id)).Some? && old(Stuck(frames[..], free, clock.hand))
      ensures res != Err(AlreadyExists) && res != Err(DiskPanic)
      ensures PagesKept(old(frames[..]), frames[..], old(guards)) && MappingsKept(old(table), table, old(guards))
      ensures Saved(old(frames[..]), old(table), old(disk), table, disk)
    {
      hide Inv, View, OnDisk, Typed, Faded, Stuck, Exhausted;
      if id !in table {
        res := LoadPage(id, wr);
        return;
      }
      var v := table[id];
      ghost var now := frames[..];
      Pin(frames[..], table, free, disk, crc, guards, writing, id, wr);
      frames[v] := frames[v].(pins := frames[v].pins + 1, referenced := true);
      assert frames[..] == now[v := now[v].(pins := now[v].pins + 1, referenced := true)];
      guards := guards + multiset{v};
      if wr {
        writing := writing + {v};
      }
      ViewCached(frames[..], table, disk, crc, id);
      res := Ok(v);
    }

    /** A write through a write guard (`DerefMut`), which marks the frame dirty. */
    method Write(v: nat, page: Page)
      requires Valid() && v in writing && v < frames.Length && frames[v].page.Some?
      requires frames[v].page.value.id == page.id && Typed(page)
      modifies frames
      ensures Valid()
      ensures See(page.id) == Some(page) && forall id :: id != page.id ==> See(id) == old(See(id))
      ensures frames[..] == old(frames[..])[v := old(frames[v]).(page := Some(page), dirty := true)]
    {
      hide Inv, View, OnDisk, Typed, Faded;
      ghost var now := frames[..];
      WriteFrame(frames[..], table, free, disk, crc, guards, writing, v, page);
      frames[v] := frames[v].(dirty := true);
      frames[v] := frames[v].(page := Some(page));
      assert frames[..] == now[v := now[v].(page := Some(page), dirty := true)];
    }

    /** Dropping a guard: the latch goes first, then the pin. */
    method Drop(v: nat)
      requires Valid() && v in guards
      modifies frames, this`guards, this`writing
      ensures Valid()
      ensures guards == old(guards) - multiset{v} && writing == old(writing) - {v}
      ensures forall id :: See(id) == old(See(id))
      ensures v < frames.Length && old(frames[v].pins) > 0
      ensures frames[..] == old(frames[..])[v := old(frames[v]).(pins := old(frames[v].pins) - 1)]
    {
      hide Inv, View, OnDisk;
      ghost var now := frames[..];
      Unpin(frames[..], table, free, disk, crc, guards, writing, v);
      writing := writing - {v};
      frames[v] := frames[v].(pins := frames[v].pins - 1);
      assert frames[..] == now[v := now[v].(pins := now[v].pins - 1)];
      guards := guards - multiset{v};
    }

    /** Writes one dirty frame to disk and marks it clean. */
    method FlushFrameAt(i: nat) returns (res: Result<(), BpmError>)
      requires Valid() && i < frames.Length && frames[i].dirty
      modifies frames, this`disk
      ensures Valid()
      ensures forall id :: See(id) == old(See(id))
      ensures res.Ok? ==> frames[..] == old(frames[..])[i := old(frames[i]).(dirty := false)]
      ensures res.Err? ==> frames[..] == old(frames[..]) && res.error.Unwritable?
      ensures res.Ok? <==> !old(Unsaveable(frames[i]))
      ensures forall id :: id in old(disk) ==> id in disk
    {
      hide Inv, View, OnDisk, Typed, Faded, Parse, Encodable, Layout.PageIs, Layout.Packed, Layout.Proper, Reported;
      DirtyIsMapped(frames[..], table, free, disk, crc, guards, writing, i);
      MappedTyped(frames[..], table, free, disk, crc, guards, writing, i);
      var p := frames[i].page.value;
      var raw := AsRawPage(p, crc);
      if raw.Err? {
        return Err(Unwritable(raw.error));
      }
      assert Image(raw.value, crc, p);
      FlushFrame(frames[..], table, free, disk, crc, guards, writing, i, raw.value, false);
      disk := disk[p.id := raw.value];
      frames[i] := frames[i].(dirty := false);
      assert frames[..] == old(frames[..])[i := old(frames[i]).(dirty := false)];
      res := Ok(());
    }

    /** `flush_all`: when it succeeds, the disk holds everything the pool shows, as far as it can be read back. */
    method FlushAll() returns (res: Result<(), BpmError>)
      requires Valid() && writing == {}
      modifies frames, this`disk
      ensures Valid()
      ensures forall id :: See(id) == old(See(id))
      ensures res.Ok? ==> forall id :: OnDisk(disk, crc, id) == Faded(See(id))
      ensures res.Ok? <==> forall f :: 0 <= f < frames.Length ==> !old(Unsaveable(frames[f]))
      ensures res.Err? ==> res.error.Unwritable?
      ensures forall f :: 0 <= f < frames.Length ==> frames[f] == old(frames[f]).(dirty := frames[f].dirty)
      ensures forall id :: id in old(disk) ==> id in disk
    {
      hide Inv, View, OnDisk, Typed, Faded, Encodable;
      for i := 0 to frames.Length
        invariant Valid()
        invariant forall id :: See(id) == old(See(id))
        invariant forall f :: 0 <= f < i ==> !frames[f].dirty && !old(Unsaveable(frames[f]))
        invariant forall f :: i <= f < frames.Length ==> frames[f] == old(frames[f])
        invariant forall f :: 0 <= f < frames.Length ==> frames[f] == old(frames[f]).(dirty := frames[f].dirty)
        invariant forall id :: id in old(disk) ==> id in disk
      {
        if frames[i].dirty {
          ghost var now := frames[..];
          var flushed := FlushFrameAt(i);
          assert forall f :: 0 <= f < frames.Length ==>
            frames[f] == if f == i && flushed.Ok? then now[i].(dirty := false) else now[f] by {
            assert forall f :: 0 <= f < frames.Length ==> frames[f] == frames[..][f];
          }
          if flushed.Err? {
            return Err(flushed.error);
          }
        }
      }
      AllFlushed(frames[..], table, free, disk, crc, guards, writing);
      res := Ok(());
    }

    /** `swap_file`: with no guard alive, replaces the whole disk by these pages and forgets the cache.
        Afterwards the pool shows these pages and no others. A page that cannot be written makes the disk layer
        panic. */
    method SwapFile(pages: seq<Page>) returns (res: Result<(), BpmError>)
      requires Valid() && guards == multiset{} && writing == {}
      requires forall i :: 0 <= i < |pages| ==> Typed(pages[i])
      requires forall i, j :: 0 <= i < j < |pages| ==> pages[i].id != pages[j].id
      modifies this, frames
      ensures Valid() && guards == multiset{} && writing == {}
      ensures res.Ok? ==> forall i :: 0 <= i < |pages| ==> See(pages[i].id) == Faded(Some(pages[i]))
      ensures res.Ok? ==> forall id :: See(id).Some? ==> exists i :: 0 <= i < |pages| && pages[i].id == id
      ensures res.Err? ==> forall id :: See(id) == old(See(id))
      ensures res.Err? && res.error.Unwritable? <==> exists f :: 0 <= f < frames.Length && old(Unsaveable(frames[f]))
      ensures res == Err(DiskPanic) <==>
        && (forall f :: 0 <= f < frames.Length ==> !old(Unsaveable(frames[f])))
        && (exists i :: 0 <= i < |pages| && !Encodable(pages[i]))
      ensures res.Err? ==> res.error.Unwritable? || res.error == DiskPanic
    {
      hide Inv, View, OnDisk, Typed, Faded, DiskOk, Parse, Unsaveable, Encodable;
      var flushed := FlushAll();
      if flushed.Err? {
        return Err(flushed.error);
      }
      var image := DiskImage(pages, crc);
      if image.None? {
        return Err(DiskPanic);
      }
      NonePinned(frames[..], table, free, disk, crc, guards, writing);
      disk := image.value;
      for f := 0 to frames.Length
        invariant forall j :: 0 <= j < f ==> frames[j] == Frame(None, 0, false, false)
        invariant forall j :: f <= j < frames.Length ==> frames[j].pins == 0
        modifies frames
      {
        frames[f] := frames[f].(page := None, dirty := false, referenced := false);
      }
      table := map[];
      free := seq(frames.Length, i => i);
      EmptyPool(frames[..], free, disk, crc);
      forall id
        ensures See(id) == OnDisk(disk, crc, id)
        ensures See(id).Some? ==> id in disk
      {
        ViewUncached(frames[..], table, disk, crc, id);
        OnDiskIn(disk, crc, id);
      }
      res := Ok(());
    }
  }

  /** The disk that holds exactly these pages. */
  method DiskImage(pages: seq<Page>, crc: Crc) returns (res: Option<Disk>)
    requires forall i :: 0 <= i < |pages| ==> Typed(pages[i])
    requires forall i, j :: 0 <= i < j < |pages| ==> pages[i].id != pages[j].id
    ensures res.Some? <==> forall i :: 0 <= i < |pages| ==> Encodable(pages[i])
    ensures res.Some? ==>
      && DiskOk(res.value, crc)
      && (forall i :: 0 <= i < |pages| ==> OnDisk(res.value, crc, pages[i].id) == Faded(Some(pages[i])))
      && (forall id :: id in res.value ==> exists i :: 0 <= i < |pages| && pages[i].id == id)
  {
    hide OnDisk, Typed, Faded, DiskOk, Parse, Encodable, Layout.PageIs, Layout.Packed, Layout.Proper, Reported;
    var disk: Disk := map[];
    EmptyDisk(crc);
    for i := 0 to |pages|
      invariant DiskOk(disk, crc)
      invariant forall j :: 0 <= j < i ==>
        Encodable(pages[j]) && OnDisk(disk, crc, pages[j].id) == Faded(Some(pages[j]))
      invariant forall id :: id in disk ==> exists j :: 0 <= j < i && pages[j].id == id
    {
      var raw := AsRawPage(pages[i], crc);
      if raw.Err? {
        return None;
      }
      assert Image(raw.value, crc, pages[i]);
      DiskWrite(disk, crc, pages[i], raw.value);
      disk := disk[pages[i].id := raw.value];
    }
    res := Some(disk);
  }

  // ------------------------------------------------------------------------ small facts

  lemma {:induction false} PopFree(frames: seq<Frame>, table: PageTable, free: seq<nat>, disk: Disk, crc: Crc,
                                   guards: multiset<nat>, writing: set<nat>)
    requires Inv(frames, table, free, disk, crc, guards, writing, None) && free != []
    ensures Inv(frames, table, free[..|free| - 1], disk, crc, guards, writing, Some(free[|free| - 1]))
    ensures guards[free[|free| - 1]] == 0
    ensures frames[free[|free| - 1]].pins == 0
  {
    hide DiskOk, Contained;
    var v, free' := free[|free| - 1], free[..|free| - 1];
    assert !Mapped(table, v);
    assert v !in guards;
    hide Mapped;
    assert free == free' + [v];
  }

  lemma {:induction false} MappedTyped(frames: seq<Frame>, table: PageTable, free: seq<nat>, disk: Disk, crc: Crc,
                                          guards: multiset<nat>, writing: set<nat>, v: nat)
    requires Inv(frames, table, free, disk, crc, guards, writing, None) && v < |frames| && Mapped(table, v)
    ensures frames[v].page.Some? && Typed(frames[v].page.value)
    ensures frames[v].page.value.id in table && table[frames[v].page.value.id] == v
    ensures !frames[v].dirty ==>
      && Encodable(frames[v].page.value) && frames[v].page.value.id in disk
      && OnDisk(disk, crc, frames[v].page.value.id) == Faded(frames[v].page)
  {
    hide DiskOk, Shared, Counted, Typed, Faded, Mapped, OnDisk;
    MappedUnder(frames, table, disk, crc, v);
  }

  /** Only mapped frames are dirty. */
  lemma {:induction false} DirtyIsMapped(frames: seq<Frame>, table: PageTable, free: seq<nat>, disk: Disk, crc: Crc,
                                         guards: multiset<nat>, writing: set<nat>, v: nat)
    requires Inv(frames, table, free, disk, crc, guards, writing, None) && v < |frames| && frames[v].dirty
    ensures Mapped(table, v)
  {
    hide DiskOk, Contained, Counted;
  }

  lemma {:induction false} DiskHas(disk: Disk, crc: Crc, p: Page, raw: seq<Byte>)
    requires Image(raw, crc, p)
    ensures OnDisk(disk[p.id := raw], crc, p.id) == Faded(Some(p))
  {
    hide Parse, Returns;
  }

  lemma {:induction false} DiskWhole(frames: seq<Frame>, table: PageTable, free: seq<nat>, disk: Disk, crc: Crc,
                                     guards: multiset<nat>, writing: set<nat>, id: PageId)
    requires Inv(frames, table, free, disk, crc, guards, writing, None) && id in disk
    ensures |disk[id]| == PAGE_SIZE && (Parse(disk[id], crc).Ok? ==> Parse(disk[id], crc).value.id == id)
    ensures OnDisk(disk, crc, id) == (match Parse(disk[id], crc) case Ok(p) => Some(p) case Err(_) => None)
  {
    hide Parse, Shared, Contained, Counted;
  }

  lemma {:induction false} ViewCached(frames: seq<Frame>, table: PageTable, disk: Disk, crc: Crc, id: PageId)
    requires id in table && table[id] < |frames|
    ensures View(frames, table, disk, crc, id) == frames[table[id]].page
  {
    hide OnDisk;
  }

  lemma {:induction false} ViewUncached(frames: seq<Frame>, table: PageTable, disk: Disk, crc: Crc, id: PageId)
    requires id !in table
    ensures View(frames, table, disk, crc, id) == OnDisk(disk, crc, id)
  {
    hide OnDisk;
  }

  lemma {:induction false} NotWriting(frames: seq<Frame>, table: PageTable, free: seq<nat>, disk: Disk, crc: Crc,
                                      guards: multiset<nat>, writing: set<nat>, v: nat)
    requires Inv(frames, table, free, disk, crc, guards, writing, Some(v)) && guards[v] == 0
    ensures v !in writing
  {
    hide DiskOk, Shared, Contained;
  }

  /** With no dirty frame left, the disk holds what the pool shows, as far as it can be read back. */
  lemma {:induction false} AllFlushed(frames: seq<Frame>, table: PageTable, free: seq<nat>, disk: Disk, crc: Crc,
                                      guards: multiset<nat>, writing: set<nat>)
    requires Inv(frames, table, free, disk, crc, guards, writing, None)
    requires forall f :: 0 <= f < |frames| ==> !frames[f].dirty
    ensures forall id :: OnDisk(disk, crc, id) == Faded(View(frames, table, disk, crc, id))
  {
    hide DiskOk, Shared, Counted, Typed, Encodable, OnDisk;
    forall id
      ensures OnDisk(disk, crc, id) == Faded(View(frames, table, disk, crc, id))
    {
      if id in table {
        assert FrameOk(frames[table[id]], id, disk, crc);
      } else {
        ReadableReturns(disk, crc, id);
      }
    }
  }

  /** What can be read from disk can be read back. */
  lemma {:induction false} ReadableReturns(disk: Disk, crc: Crc, id: PageId)
    ensures OnDisk(disk, crc, id).Some? ==>
      var p := OnDisk(disk, crc, id).value; Encodable(p) && Typed(p) && Returns(p)
    ensures Faded(OnDisk(disk, crc, id)) == OnDisk(disk, crc, id)
  {
    hide Parse, Encodable, Typed, Returns;
    if OnDisk(disk, crc, id).Some? {
      AcceptedIsCanonical(disk[id], crc);
    }
  }

  lemma {:induction false} EmptyPool(frames: seq<Frame>, free: seq<nat>, disk: Disk, crc: Crc)
    requires |frames| == |free| > 0 && DiskOk(disk, crc)
    requires (forall f :: 0 <= f < |frames| ==> frames[f] == Frame(None, 0, false, false))
    requires forall i :: 0 <= i < |free| ==> free[i] == i
    ensures Inv(frames, map[], free, disk, crc, multiset{}, {}, None)
  {
    hide DiskOk, OnDisk, Mapped;
    forall f | 0 <= f < |frames|
      ensures f in free
    {
      assert free[f] == f;
    }
  }

  lemma {:induction false} EmptyDisk(crc: Crc)
    ensures DiskOk(map[], crc)
  {
  }

  lemma {:induction false} OnDiskIn(disk: Disk, crc: Crc, id: PageId)
    ensures OnDisk(disk, crc, id).Some? ==> id in disk
  {
    hide Parse;
  }

  lemma {:induction false} NonePinned(frames: seq<Frame>, table: PageTable, free: seq<nat>, disk: Disk, crc: Crc,
                                      guards: multiset<nat>, writing: set<nat>)
    requires Inv(frames, table, free, disk, crc, guards, writing, None) && guards == multiset{}
    ensures forall f :: 0 <= f < |frames| ==> frames[f].pins == 0
  {
    hide DiskOk, Shared, Contained, Mapped;
  }

  lemma {:induction false} MappingsSame(table: PageTable, guards: multiset<nat>)
    ensures MappingsKept(table, table, guards)
  {
  }

  lemma {:induction false} MappingsMore(table: PageTable, table': PageTable, guards: multiset<nat>, id: PageId, v: nat)
    requires MappingsKept(table, table', guards) && id !in table
    ensures MappingsKept(table, table'[id := v], guards)
  {
  }
}

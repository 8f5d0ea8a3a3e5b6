/** The requests that a table makes to the buffer pool, as a list, and what they do to a page store and a set of
    latched pages. */
module Steps {
  import opened Common
  import opened Pages
  import opened Stores
  import opened PageCodec

  /** `fetch_write`; a read guard dropped at once; a write through a guard; `new_page`; guards dropped. */
  datatype Step =
    | Latch(id: PageId)
    | Look(id: PageId)
    | Write(page: Page)
    | Make(page: Page)
    | Unlatch(ids: seq<PageId>)
    | UnlatchAll

  datatype State = State(pages: Store, held: set<PageId>)

  /** No request waits for a latch its own thread holds, every page that is handed over can be written, and none gets
      an LSN. */
  predicate Possible(s: State, st: Step) {
    match st
    case Latch(id) => id in s.pages && id !in s.held
    case Look(id) => id in s.pages && id !in s.held
    case Write(p) => p.id in s.pages && p.id in s.held && Encodable(p) && (p.lsn == s.pages[p.id].lsn || p.lsn == 0)
    case Make(p) => p.id !in s.pages && p.id !in s.held && Encodable(p) && p.lsn == 0
    case Unlatch(_) => true
    case UnlatchAll => true
  }

  function Next(s: State, st: Step): State {
    match st
    case Latch(id) => s.(held := s.held + {id})
    case Look(_) => s
    case Write(p) => s.(pages := s.pages[p.id := p])
    case Make(p) => State(s.pages[p.id := p], s.held + {p.id})
    case Unlatch(ids) => s.(held := s.held - (set x | x in ids))
    case UnlatchAll => s.(held := {})
  }

  /** The state after all these requests, if each is possible when its turn comes. */
  function Replay(s: State, steps: seq<Step>): Option<State> {
    if steps == [] then Some(s)
    else
      match Replay(s, steps[..|steps| - 1])
      case None => None
      case Some(s') =>
        var st := steps[|steps| - 1];
        if Possible(s', st) then Some(Next(s', st)) else None
  }

  /** One more request. */
  lemma {:induction false} ReplayMore(s: State, steps: seq<Step>, st: Step)
    requires Replay(s, steps).Some? && Possible(Replay(s, steps).value, st)
    ensures Replay(s, steps + [st]) == Some(Next(Replay(s, steps).value, st))
  {
    hide Possible, Next;
    assert (steps + [st])[..|steps|] == steps;
  }

  /** The requests so far were possible too. */
  lemma {:induction false} ReplayPart(s: State, steps: seq<Step>, k: nat)
    requires Replay(s, steps).Some? && k < |steps|
    ensures Replay(s, steps[..k]).Some? && Possible(Replay(s, steps[..k]).value, steps[k])
    ensures Replay(s, steps[..k + 1]) == Some(Next(Replay(s, steps[..k]).value, steps[k]))
    decreases |steps| - k
  {
    hide Possible, Next;
    var n := |steps| - 1;
    if k < n {
      ReplayPart(s, steps[..n], k);
      assert steps[..n][..k] == steps[..k] && steps[..n][..k + 1] == steps[..k + 1];
    } else {
      assert steps[..k + 1] == steps;
    }
  }
}

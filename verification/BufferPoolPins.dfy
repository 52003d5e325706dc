/**
 Pins and dirty flags over whole runs of the buffer pool: a page has as many pins as it was
 given out more often than given back, and its frame is dirty exactly if it was created or
 given back as dirty since the page came in.
 */
module BufferPoolPins {
  import opened BufferPoolModel
  import opened Wrappers

  // ----- What the calls answer -----

  // The page in the frame that the step hands to the client.
  ghost function GivenOut(s: Pool, e: Event): Option<int> {
    match e
    case Fetch(id) =>
      if Resident(s, id) then Some(s.frames[s.table[id]].pageId)
      else if Choice(s) != None then Some(id)
      else None
    case New => if Choice(s) != None then Some(s.nextId) else None
    case _ => None
  }

  // The page in the frame of an unpin that returns true.
  ghost function GivenBack(s: Pool, e: Event): Option<int> {
    match e
    case Unpin(id, _, _) =>
      if Resident(s, id) && s.frames[s.table[id]].pins > 0 then Some(s.frames[s.table[id]].pageId) else None
    case _ => None
  }

  ghost function Change(s: Pool, e: Event, id: int): int {
    (if GivenOut(s, e) == Some(id) then 1 else 0) - (if GivenBack(s, e) == Some(id) then 1 else 0)
  }

  // How much more often a run gives out the page than it takes it back.
  ghost function Balance(s: Pool, es: seq<Event>, id: int): int
    requires Inv(s) && IsRun(s, es)
    decreases |es|
  {
    if es == [] then 0
    else StepKeeps(s, es[0]); Change(s, es[0], id) + Balance(Step(s, es[0]), es[1..], id)
  }

  // ----- Pins -----

  ghost predicate HasFrame(s: Pool, id: int) {
    id in s.live && Resident(s, id)
  }

  ghost function Pins(s: Pool, id: int): nat {
    if HasFrame(s, id) then s.frames[s.table[id]].pins else 0
  }

  // The frame in use that holds the page.
  lemma FrameOf(s: Pool, id: int, f: nat)
    requires Inv(s) && f < |s.frames| && f !in s.free
    ensures HasFrame(s, id) && s.table[id] == f <==> s.frames[f].pageId == id
  {
    assert FrameOk(s, f);
    if HasFrame(s, id) { assert PageOk(s, id); }
  }

  lemma HitPins(s: Pool, x: int, id: int)
    requires Inv(s) && Resident(s, x) && FetchOk(s, x)
    ensures Pins(Fetched(s, x), id) == Pins(s, id) + Change(s, Fetch(x), id)
  {
    FrameOf(s, id, s.table[x]);
  }

  // Taking a frame takes one without pins.
  lemma TakenPins(s: Pool, id: int)
    requires Inv(s) && Choice(s) != None
    ensures Choice(s).value < |s.frames|
    ensures HasFrame(Taken(s), id) <==> HasFrame(s, id) && s.table[id] != Choice(s).value
    ensures Pins(Taken(s), id) == Pins(s, id)
  {
    ChoiceIff(s);
    var f := Choice(s).value;
    assert FrameOk(s, f);
    if s.free == [] {
      FrameOf(s, id, f);
    } else if HasFrame(s, id) {
      assert PageOk(s, id);
    }
  }

  lemma InstalledPins(s: Pool, f: nat, x: int, dirty: bool, data: Data, id: int)
    requires f < |s.frames| == |s.writers| && x !in s.table
    requires HasFrame(s, id) ==> s.table[id] != f
    ensures Pins(Installed(s, f, x, dirty, data), id) == if id == x then 1 else Pins(s, id)
  {
  }

  lemma MissPins(s: Pool, x: int, id: int)
    requires Inv(s) && !Resident(s, x) && FetchOk(s, x)
    ensures Pins(Fetched(s, x), id) == Pins(s, id) + Change(s, Fetch(x), id)
  {
    if Choice(s) != None {
      TakenPins(s, id);
      OtherOnDisk(s, x);
      var f := Choice(s).value;
      InstalledPins(Taken(s), f, x, false, ReadPage(Taken(s).disk, x, s.frames[f].data), id);
    }
  }

  lemma NewPins(s: Pool, id: int)
    requires Inv(s)
    ensures Pins(Created(s), id) == Pins(s, id) + Change(s, New, id)
  {
    NextId(s);
    if Choice(s) != None {
      var s1 := s.(nextId := s.nextId + 1);
      TakenPins(s1, id);
      OtherOnDisk(s1, s.nextId);
      assert Taken(s1) == Taken(s).(nextId := s.nextId + 1);
      InstalledPins(Taken(s1), Choice(s).value, s.nextId, true, Zeros(), id);
    }
  }

  lemma UnpinPins(s: Pool, x: int, dirty: bool, wrote: bool, id: int)
    requires Inv(s)
    ensures Pins(Unpinned(s, x, dirty, wrote), id) == Pins(s, id) + Change(s, Unpin(x, dirty, wrote), id)
  {
    if Resident(s, x) && s.frames[s.table[x]].pins > 0 {
      assert FrameOk(s, s.table[x]);
      FrameOf(s, id, s.table[x]);
    }
  }

  lemma DeletePins(s: Pool, x: int, id: int)
    requires Inv(s) && DeleteOk(s, x)
    ensures Pins(Deleted(s, x), id) == Pins(s, id)
  {
    if Resident(s, x) && s.frames[s.table[x]].pins == 0 {
      assert PageOk(s, x);
      FrameOf(s, id, s.table[x]);
    }
  }

  lemma StepPins(s: Pool, e: Event, id: int)
    requires Inv(s) && Allowed(s, e)
    ensures Pins(Step(s, e), id) == Pins(s, id) + Change(s, e, id)
  {
    match e
    case Fetch(x) => if Resident(s, x) { HitPins(s, x, id); } else { MissPins(s, x, id); }
    case Unpin(x, dirty, wrote) => UnpinPins(s, x, dirty, wrote, id);
    case Flush(x) =>
    case New => NewPins(s, id);
    case Delete(x) => DeletePins(s, x, id);
    case WriteData(f, data, first) =>
  }

  lemma {:induction false} RunPins(s: Pool, es: seq<Event>, id: int)
    requires Inv(s) && IsRun(s, es)
    ensures Pins(After(s, es), id) == Pins(s, id) + Balance(s, es, id)
    decreases |es|
  {
    if es != [] {
      StepKeeps(s, es[0]);
      StepPins(s, es[0], id);
      RunPins(Step(s, es[0]), es[1..], id);
    }
  }

  /** In every run of a new pool, the pins of a page are what it was given out more often
      than given back; a page with a frame that was given back as often as given out is in
      the replacer, and one that was not is kept out of it. */
  lemma PinsCounted(size: nat, es: seq<Event>, id: int)
    requires IsRun(Start(size), es)
    ensures var s := After(Start(size), es);
      && Pins(s, id) == Balance(Start(size), es, id)
      && (HasFrame(s, id) ==> (s.table[id] in s.lru <==> Balance(Start(size), es, id) == 0))
  {
    var s := After(Start(size), es);
    RunPins(Start(size), es, id);
    if HasFrame(s, id) {
      assert PageOk(s, id);
      assert FrameOk(s, s.table[id]);
    }
  }

  // ----- Dirty frames -----

  // The step brings the page into a frame.
  ghost predicate ComesIn(s: Pool, e: Event, id: int) {
    Choice(s) != None && ((e == Fetch(id) && !Resident(s, id)) || (e == New && id == s.nextId))
  }

  // Whether the page is dirty after the step, given whether it was.
  ghost function DirtyNext(s: Pool, e: Event, id: int, was: bool): bool {
    if ComesIn(s, e, id) then e == New
    else was || (GivenBack(s, e) == Some(id) && e.dirty)
  }

  ghost function DirtySince(s: Pool, es: seq<Event>, id: int, was: bool): bool
    requires Inv(s) && IsRun(s, es)
    decreases |es|
  {
    if es == [] then was
    else StepKeeps(s, es[0]); DirtySince(Step(s, es[0]), es[1..], id, DirtyNext(s, es[0], id, was))
  }

  ghost predicate DirtyIs(s: Pool, id: int, dirty: bool) {
    HasFrame(s, id) ==> s.frames[s.table[id]].dirty == dirty
  }

  lemma InstalledDirty(s: Pool, f: nat, x: int, dirty: bool, data: Data, id: int, was: bool)
    requires f < |s.frames| == |s.writers| && x !in s.table && DirtyIs(s, id, was)
    requires HasFrame(s, id) ==> s.table[id] != f
    ensures DirtyIs(Installed(s, f, x, dirty, data), id, if id == x then dirty else was)
  {
  }

  lemma FetchDirty(s: Pool, x: int, id: int, was: bool)
    requires Inv(s) && FetchOk(s, x) && DirtyIs(s, id, was)
    ensures DirtyIs(Fetched(s, x), id, DirtyNext(s, Fetch(x), id, was))
  {
    if !Resident(s, x) && Choice(s) != None {
      TakenPins(s, id);
      OtherOnDisk(s, x);
      var f := Choice(s).value;
      InstalledDirty(Taken(s), f, x, false, ReadPage(Taken(s).disk, x, s.frames[f].data), id, was);
    }
  }

  lemma NewDirty(s: Pool, id: int, was: bool)
    requires Inv(s) && DirtyIs(s, id, was)
    ensures DirtyIs(Created(s), id, DirtyNext(s, New, id, was))
  {
    NextId(s);
    if Choice(s) != None {
      var s1 := s.(nextId := s.nextId + 1);
      TakenPins(s1, id);
      OtherOnDisk(s1, s.nextId);
      assert Taken(s1) == Taken(s).(nextId := s.nextId + 1);
      InstalledDirty(Taken(s1), Choice(s).value, s.nextId, true, Zeros(), id, was);
    }
  }

  lemma UnpinDirty(s: Pool, x: int, dirty: bool, wrote: bool, id: int, was: bool)
    requires Inv(s) && DirtyIs(s, id, was)
    ensures DirtyIs(Unpinned(s, x, dirty, wrote), id, DirtyNext(s, Unpin(x, dirty, wrote), id, was))
  {
    if Resident(s, x) && s.frames[s.table[x]].pins > 0 {
      assert FrameOk(s, s.table[x]);
      FrameOf(s, id, s.table[x]);
    }
  }

  lemma DeleteDirty(s: Pool, x: int, id: int, was: bool)
    requires Inv(s) && DeleteOk(s, x) && DirtyIs(s, id, was)
    ensures DirtyIs(Deleted(s, x), id, was)
  {
    if Resident(s, x) && s.frames[s.table[x]].pins == 0 {
      assert PageOk(s, x);
      FrameOf(s, id, s.table[x]);
    }
  }

  lemma StepDirty(s: Pool, e: Event, id: int, was: bool)
    requires Inv(s) && Allowed(s, e) && DirtyIs(s, id, was)
    ensures DirtyIs(Step(s, e), id, DirtyNext(s, e, id, was))
  {
    match e
    case Fetch(x) => FetchDirty(s, x, id, was);
    case Unpin(x, dirty, wrote) => UnpinDirty(s, x, dirty, wrote, id, was);
    case Flush(x) =>
    case New => NewDirty(s, id, was);
    case Delete(x) => DeleteDirty(s, x, id, was);
    case WriteData(f, data, first) =>
  }

  lemma {:induction false} RunDirty(s: Pool, es: seq<Event>, id: int, was: bool)
    requires Inv(s) && IsRun(s, es) && DirtyIs(s, id, was)
    ensures DirtyIs(After(s, es), id, DirtySince(s, es, id, was))
    decreases |es|
  {
    if es != [] {
      StepKeeps(s, es[0]);
      StepDirty(s, es[0], id, was);
      RunDirty(Step(s, es[0]), es[1..], id, DirtyNext(s, es[0], id, was));
    }
  }

  /** In every run of a new pool, the frame of a page is dirty exactly if the page was
      created or given back as dirty since it came in. */
  lemma DirtyTold(size: nat, es: seq<Event>, id: int)
    requires IsRun(Start(size), es) && HasFrame(After(Start(size), es), id)
    ensures var s := After(Start(size), es); s.frames[s.table[id]].dirty == DirtySince(Start(size), es, id, false)
  {
    RunDirty(Start(size), es, id, false);
  }

  // ----- Page ids -----

  function News(es: seq<Event>): nat {
    if es == [] then 0 else (if es[0] == New then 1 else 0) + News(es[1..])
  }

  lemma StepNextId(s: Pool, e: Event)
    requires Inv(s) && Allowed(s, e)
    ensures Step(s, e).nextId == s.nextId + if e == New then 1 else 0
  {
  }

  /** In every run, page ids are handed out in order, one for each call of NewPage, also
      for one that finds no frame. */
  lemma {:induction false} IdsInOrder(s: Pool, es: seq<Event>)
    requires Inv(s) && IsRun(s, es)
    ensures After(s, es).nextId == s.nextId + News(es)
    decreases |es|
  {
    if es != [] {
      StepKeeps(s, es[0]);
      StepNextId(s, es[0]);
      IdsInOrder(Step(s, es[0]), es[1..]);
    }
  }

  // ----- Which frame is taken -----

  /** A page loses its frame only when it is deleted, or when another page needs a frame,
      none is free, and its own is the last of the replacer's list. */
  lemma EvictedLast(s: Pool, e: Event, id: int)
    requires Inv(s) && Allowed(s, e) && HasFrame(s, id) && !HasFrame(Step(s, e), id)
    ensures e != Delete(id) ==>
      && s.free == [] && s.lru != [] && s.table[id] == s.lru[|s.lru| - 1]
      && GivenOut(s, e).Some? && GivenOut(s, e).value != id && !HasFrame(s, GivenOut(s, e).value)
  {
    match e
    case Fetch(x) =>
      if !Resident(s, x) && Choice(s) != None {
        TakenPins(s, id);
        OtherOnDisk(s, x);
        TakenLast(s, id);
      }
    case New =>
      NextId(s);
      if Choice(s) != None {
        TakenPins(s, id);
        TakenLast(s, id);
      }
    case Unpin(_, _, _) =>
    case Flush(_) =>
    case Delete(x) =>
    case WriteData(_, _, _) =>
  }

  lemma TakenLast(s: Pool, id: int)
    requires Inv(s) && Choice(s) != None && HasFrame(s, id) && s.table[id] == Choice(s).value
    ensures s.free == [] && s.lru != [] && s.table[id] == s.lru[|s.lru| - 1]
  {
    assert PageOk(s, id);
  }

  // The frames that a step adds to the free list, and how many it takes from it.
  ghost function FreedBy(s: Pool, e: Event): seq<nat> {
    match e
    case Delete(id) => if Resident(s, id) && s.frames[s.table[id]].pins == 0 then [s.table[id]] else []
    case _ => []
  }

  ghost function TakenBy(s: Pool, e: Event): nat {
    if s.free != [] && GivenOut(s, e).Some? && !HasFrame(s, GivenOut(s, e).value) then 1 else 0
  }

  lemma FreeStep(s: Pool, e: Event)
    requires Inv(s) && Allowed(s, e)
    ensures TakenBy(s, e) <= |s.free| && Step(s, e).free == (s.free + FreedBy(s, e))[TakenBy(s, e)..]
  {
    match e
    case Fetch(x) =>
      if Resident(s, x) {
        var f := s.table[x];
        FrameOf(s, s.frames[f].pageId, f);
      } else {
        assert HasFrame(s, x) ==> Resident(s, x);
      }
    case New => NextId(s);
    case Unpin(_, _, _) =>
    case Flush(_) =>
    case Delete(x) =>
    case WriteData(_, _, _) =>
  }

  ghost function Freeds(s: Pool, es: seq<Event>): seq<nat>
    requires Inv(s) && IsRun(s, es)
    decreases |es|
  {
    if es == [] then [] else StepKeeps(s, es[0]); FreedBy(s, es[0]) + Freeds(Step(s, es[0]), es[1..])
  }

  ghost function Takes(s: Pool, es: seq<Event>): nat
    requires Inv(s) && IsRun(s, es)
    decreases |es|
  {
    if es == [] then 0 else StepKeeps(s, es[0]); TakenBy(s, es[0]) + Takes(Step(s, es[0]), es[1..])
  }

  /** In every run the free frames wait in a queue: those there were, then those freed by
      deletes, without as many from the front as were taken. */
  lemma {:induction false} FreeQueue(s: Pool, es: seq<Event>)
    requires Inv(s) && IsRun(s, es)
    ensures Takes(s, es) <= |s.free + Freeds(s, es)|
    ensures After(s, es).free == (s.free + Freeds(s, es))[Takes(s, es)..]
    decreases |es|
  {
    if es != [] {
      var s', a, b := Step(s, es[0]), FreedBy(s, es[0]), TakenBy(s, es[0]);
      StepKeeps(s, es[0]);
      FreeStep(s, es[0]);
      FreeQueue(s', es[1..]);
      QueueStep(s.free, a, b, Freeds(s', es[1..]), Takes(s', es[1..]));
    }
  }

  lemma QueueStep(free: seq<nat>, a: seq<nat>, b: nat, rest: seq<nat>, c: nat)
    requires b <= |free| && c <= |(free + a)[b..] + rest|
    ensures b + c <= |free + (a + rest)| && ((free + a)[b..] + rest)[c..] == (free + (a + rest))[b + c..]
  {
    assert (free + a)[b..] + rest == (free + (a + rest))[b..];
  }
}

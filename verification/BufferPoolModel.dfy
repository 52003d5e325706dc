/**
 The buffer pool as a state: frames, page table, free list, the replacer's list and the
 disk.  The steps of a client that does no harm with ids of deleted pages keep the
 bookkeeping right and never change what another page holds.
 */
module BufferPoolModel {
  import opened Bytes
  import opened Sequences
  import opened Wrappers

  const INVALID_PAGE_ID := -1

  type Data = seq<byte>

  datatype Frame = Frame(pageId: int, pins: nat, dirty: bool, data: Data)

  // `lru` has the frame unpinned last in front.  `live` are the pages created and not
  // deleted; `writers[f]` counts the pins of frame `f` whose holder has written to it.
  datatype Pool = Pool(frames: seq<Frame>, table: map<int, nat>, free: seq<nat>, lru: seq<nat>,
                       disk: map<int, Data>, nextId: int, live: set<int>, writers: seq<nat>)

  // ----- What every reachable pool satisfies -----

  /** A frame is free, or unpinned and in the replacer, or pinned; one that is not free
      holds a live page and the page table says so.  Unless it is dirty or being written,
      it equals the disk. */
  ghost predicate FrameOk(s: Pool, f: nat)
    requires f < |s.frames| == |s.writers|
  {
    var fr := s.frames[f];
    && s.writers[f] <= fr.pins
    && (f in s.free ==> fr.pins == 0 && f !in s.lru && fr.pageId == INVALID_PAGE_ID)
    && (f in s.lru ==> fr.pins == 0)
    && (f !in s.free && f !in s.lru ==> fr.pins > 0)
    && (f !in s.free ==>
          && fr.pageId in s.live && fr.pageId in s.table && s.table[fr.pageId] == f
          && (fr.dirty || s.writers[f] > 0 || (fr.pageId in s.disk && s.disk[fr.pageId] == fr.data)))
  }

  // The page table is right about live pages; what it says about others does not matter.
  ghost predicate PageOk(s: Pool, id: int) {
    && 0 <= id < s.nextId
    && (id in s.table ==> s.table[id] < |s.frames| && s.table[id] !in s.free && s.frames[s.table[id]].pageId == id)
    && (id !in s.table ==> id in s.disk)
  }

  ghost predicate Inv(s: Pool) {
    && |s.frames| == |s.writers|
    && Distinct(s.free) && Distinct(s.lru)
    && (forall i :: 0 <= i < |s.free| ==> s.free[i] < |s.frames|)
    && (forall i :: 0 <= i < |s.lru| ==> s.lru[i] < |s.frames|)
    && (forall f {:trigger FrameOk(s, f)} :: 0 <= f < |s.frames| ==> FrameOk(s, f))
    && (forall id {:trigger PageOk(s, id)} :: id in s.live ==> PageOk(s, id))
    && (forall id :: id in s.table ==> 0 <= id < s.nextId && s.table[id] < |s.frames|)
    && (forall id :: id in s.disk ==> 0 <= id < s.nextId)
    && s.nextId >= 0
  }

  // What a page holds: its frame if it has one, else the disk.
  ghost function Content(s: Pool, id: int): Option<Data> {
    if id in s.table && s.table[id] < |s.frames| then Some(s.frames[s.table[id]].data)
    else if id in s.disk then Some(s.disk[id])
    else None
  }

  // ----- Taking a frame -----

  // The frame that is given up for another page: the first free one, else the last of
  // the replacer's list.
  function Choice(s: Pool): Option<nat> {
    if s.free != [] then Some(s.free[0])
    else if s.lru != [] then Some(s.lru[|s.lru| - 1])
    else None
  }

  // Takes that frame out, writing it back if it is dirty.
  function Taken(s: Pool): Pool
    requires forall i :: 0 <= i < |s.lru| ==> s.lru[i] < |s.frames|
  {
    if s.free != [] then s.(free := s.free[1..])
    else if s.lru != [] then
      var f := s.lru[|s.lru| - 1];
      var fr := s.frames[f];
      s.(lru := s.lru[..|s.lru| - 1], table := s.table - {fr.pageId},
         disk := if fr.dirty then s.disk[fr.pageId := fr.data] else s.disk)
    else s
  }

  // Puts a page in a frame, pinned once.
  function Installed(s: Pool, f: nat, id: int, dirty: bool, data: Data): Pool
    requires f < |s.frames| == |s.writers|
  {
    s.(frames := s.frames[f := Frame(id, 1, dirty, data)], table := s.table[id := f],
       live := s.live + {id}, writers := s.writers[f := 0])
  }

  // Without a choice every frame is pinned, and the other way round.
  lemma ChoiceIff(s: Pool)
    requires Inv(s)
    ensures Choice(s) == None <==> forall f :: 0 <= f < |s.frames| ==> s.frames[f].pins > 0
    ensures Choice(s).Some? ==> Choice(s).value < |s.frames|
  {
    forall f | 0 <= f < |s.frames|
      ensures Choice(s) == None ==> s.frames[f].pins > 0
    {
      assert FrameOk(s, f);
    }
    if s.free != [] {
      assert FrameOk(s, s.free[0]);
    } else if s.lru != [] {
      assert FrameOk(s, s.lru[|s.lru| - 1]);
    }
  }

  // Between taking a frame and filling it: everything but that frame is right, and no
  // page lost its content.
  ghost predicate InvBut(s: Pool, f: nat) {
    && |s.frames| == |s.writers| && f < |s.frames|
    && Distinct(s.free) && Distinct(s.lru) && f !in s.free && f !in s.lru
    && (forall i :: 0 <= i < |s.free| ==> s.free[i] < |s.frames|)
    && (forall i :: 0 <= i < |s.lru| ==> s.lru[i] < |s.frames|)
    && (forall g {:trigger FrameOk(s, g)} :: 0 <= g < |s.frames| && g != f ==> FrameOk(s, g))
    && (forall id {:trigger PageOk(s, id)} :: id in s.live ==> PageOk(s, id) && (id in s.table ==> s.table[id] != f))
    && (forall id :: id in s.table ==> 0 <= id < s.nextId && s.table[id] < |s.frames|)
    && (forall id :: id in s.disk ==> 0 <= id < s.nextId)
    && s.nextId >= 0
  }

  lemma TakeFree(s: Pool)
    requires Inv(s) && s.free != []
    ensures InvBut(Taken(s), s.free[0])
    ensures forall id :: Content(Taken(s), id) == Content(s, id)
  {
    var f, s' := s.free[0], Taken(s);
    assert FrameOk(s, f);
    assert forall x :: x in s'.free <==> x in s.free && x != f;
    forall g | 0 <= g < |s.frames| && g != f
      ensures FrameOk(s', g)
    {
      assert FrameOk(s, g);
    }
    forall id | id in s.live
      ensures PageOk(s', id) && (id in s'.table ==> s'.table[id] != f)
    {
      assert PageOk(s, id);
    }
  }

  lemma TakeVictim(s: Pool)
    requires Inv(s) && s.free == [] && s.lru != []
    ensures InvBut(Taken(s), s.lru[|s.lru| - 1])
    ensures forall id :: id in s.live ==> Content(Taken(s), id) == Content(s, id)
  {
    var f, s' := s.lru[|s.lru| - 1], Taken(s);
    assert FrameOk(s, f) && PageOk(s, s.frames[f].pageId);
    assert forall x :: x in s'.lru <==> x in s.lru && x != f;
    forall g | 0 <= g < |s.frames| && g != f
      ensures FrameOk(s', g)
    {
      assert FrameOk(s, g);
    }
    forall id | id in s.live
      ensures PageOk(s', id) && (id in s'.table ==> s'.table[id] != f)
      ensures Content(s', id) == Content(s, id)
    {
      assert PageOk(s, id);
    }
  }

  lemma Take(s: Pool)
    requires Inv(s) && Choice(s) != None
    ensures InvBut(Taken(s), Choice(s).value)
    ensures forall id :: id in s.live ==> Content(Taken(s), id) == Content(s, id)
    ensures Taken(s).live == s.live && Taken(s).nextId == s.nextId && Taken(s).frames == s.frames
    ensures forall id :: id in s.live && id !in s.table ==> id !in Taken(s).table && id in s.disk && id in Taken(s).disk && Taken(s).disk[id] == s.disk[id]
  {
    if s.free != [] { TakeFree(s); } else { TakeVictim(s); }
    forall id | id in s.live && id !in s.table
      ensures id !in Taken(s).table && id in s.disk && id in Taken(s).disk && Taken(s).disk[id] == s.disk[id]
    {
      assert PageOk(s, id);
      if s.free == [] { assert FrameOk(s, Choice(s).value); }
    }
  }

  lemma Install(s: Pool, f: nat, id: int, dirty: bool, data: Data)
    requires InvBut(s, f) && 0 <= id < s.nextId && id !in s.table
    requires dirty || (id in s.disk && s.disk[id] == data)
    ensures Inv(Installed(s, f, id, dirty, data))
    ensures Content(Installed(s, f, id, dirty, data), id) == Some(data)
    ensures forall x :: x in s.live && x != id ==> Content(Installed(s, f, id, dirty, data), x) == Content(s, x)
  {
    var s' := Installed(s, f, id, dirty, data);
    forall g | 0 <= g < |s.frames|
      ensures FrameOk(s', g)
    {
      assert g != f ==> FrameOk(s, g);
    }
    forall x | x in s'.live
      ensures PageOk(s', x)
      ensures x != id ==> Content(s', x) == Content(s, x)
    {
      assert x in s.live ==> PageOk(s, x);
    }
  }

  // ----- Steps -----

  function Zeros(): Data {
    seq(512, _ => 0)
  }

  datatype Event =
    | Fetch(id: int)
    | Unpin(id: int, dirty: bool, wrote: bool)
    | Flush(id: int)
    | New
    | Delete(id: int)
    | WriteData(frame: nat, data: Data, first: bool)

  /** A fetch is harmless when the table has no entry for the page or an entry for a frame
      in use; a page that is not resident must be one that was created and is on disk,
      unless there is no frame for it. */
  ghost predicate FetchOk(s: Pool, id: int) {
    if Resident(s, id) then s.table[id] !in s.free
    else Choice(s) == None || (0 <= id < s.nextId && id in s.disk)
  }

  /** A flush is harmless when the table has no entry for the page or an entry for a frame
      in use: a free frame has no page, and the write goes in front of the file. */
  ghost predicate FlushOk(s: Pool, id: int) {
    Resident(s, id) ==> s.table[id] !in s.free
  }

  /** A delete is harmless when the page is live, has no entry in the table, or its entry
      names a pinned frame. */
  ghost predicate DeleteOk(s: Pool, id: int) {
    id in s.live || !Resident(s, id) || s.frames[s.table[id]].pins > 0
  }

  // `wrote` says rightly whether the pin that is given back was used for writing.
  ghost predicate Counted(s: Pool, id: int, wrote: bool) {
    Resident(s, id) && s.frames[s.table[id]].pins > 0 ==>
      if wrote then s.writers[s.table[id]] > 0 else s.writers[s.table[id]] < s.frames[s.table[id]].pins
  }

  /** An unpin is harmless when it says that the frame is dirty, when its pin was not used
      for writing or was not given back, or when the write is not lost: the frame is dirty
      already, has another writer, or equals the disk. */
  ghost predicate UnpinOk(s: Pool, id: int, dirty: bool, wrote: bool) {
    Resident(s, id) && s.frames[s.table[id]].pins > 0 && wrote && !dirty ==>
      var f := s.table[id];
      var fr := s.frames[f];
      fr.dirty || s.writers[f] > 1 || (fr.pageId in s.disk && s.disk[fr.pageId] == fr.data)
  }

  /** The client writes to frames it has pinned, does not hide that it has written to one,
      and does no harm with an id it has deleted. */
  ghost predicate Allowed(s: Pool, e: Event) {
    match e
    case Fetch(id) => FetchOk(s, id)
    case Unpin(id, dirty, wrote) =>
      Counted(s, id, wrote) && UnpinOk(s, id, dirty, wrote)
    case Flush(id) => FlushOk(s, id)
    case New => true
    case Delete(id) => DeleteOk(s, id)
    case WriteData(f, data, first) =>
      && f < |s.frames| == |s.writers|
      && s.frames[f].pins > 0
      && if first then s.writers[f] < s.frames[f].pins else s.writers[f] > 0
  }

  // The frame the table names for a page.
  ghost predicate Resident(s: Pool, id: int) {
    id in s.table && s.table[id] < |s.frames| == |s.writers|
  }

  // One pin more: a frame that had none leaves the replacer.
  ghost function Raised(s: Pool, f: nat): Pool
    requires f < |s.frames|
  {
    s.(frames := s.frames[f := s.frames[f].(pins := s.frames[f].pins + 1)],
       lru := if s.frames[f].pins == 0 then Without(s.lru, f) else s.lru)
  }

  // One pin less: a frame that had one goes to the replacer.
  ghost function Lowered(s: Pool, f: nat, dirty: bool, wrote: bool): Pool
    requires f < |s.frames| == |s.writers| && s.frames[f].pins > 0
  {
    var fr := s.frames[f];
    s.(frames := s.frames[f := fr.(pins := fr.pins - 1, dirty := fr.dirty || dirty)],
       lru := if fr.pins == 1 then [f] + s.lru else s.lru,
       writers := if wrote && s.writers[f] > 0 then s.writers[f := s.writers[f] - 1] else s.writers)
  }

  // The frame goes to the free list; the table entry of its page stays behind.
  ghost function Freed(s: Pool, f: nat, id: int): Pool
    requires f < |s.frames|
  {
    s.(frames := s.frames[f := s.frames[f].(dirty := false, pageId := INVALID_PAGE_ID)],
       free := s.free + [f], lru := Without(s.lru, f), live := s.live - {id})
  }

  // A page that was never written leaves the buffer as it was.
  function ReadPage(disk: map<int, Data>, id: int, buffer: Data): Data {
    if id in disk then disk[id] else buffer
  }

  ghost function Fetched(s: Pool, id: int): Pool
    requires Inv(s)
  {
    if Resident(s, id) then
      Raised(s, s.table[id])
    else if Choice(s) == None || Choice(s).value >= |s.frames| then s
    else
      var f := Choice(s).value;
      Installed(Taken(s), f, id, false, ReadPage(Taken(s).disk, id, s.frames[f].data))
  }

  ghost function Unpinned(s: Pool, id: int, dirty: bool, wrote: bool): Pool {
    if !Resident(s, id) || s.frames[s.table[id]].pins == 0 then s
    else Lowered(s, s.table[id], dirty, wrote)
  }

  ghost function Flushed(s: Pool, id: int): Pool {
    if Resident(s, id) then s.(disk := s.disk[s.frames[s.table[id]].pageId := s.frames[s.table[id]].data]) else s
  }

  ghost function Created(s: Pool): Pool
    requires Inv(s)
  {
    if Choice(s) == None || Choice(s).value >= |s.frames| then s.(nextId := s.nextId + 1)
    else Installed(Taken(s).(nextId := s.nextId + 1), Choice(s).value, s.nextId, true, Zeros())
  }

  ghost function Deleted(s: Pool, id: int): Pool {
    if !Resident(s, id) then s.(live := s.live - {id})
    else if s.frames[s.table[id]].pins > 0 then s
    else Freed(s, s.table[id], id)
  }

  ghost function Written(s: Pool, f: nat, data: Data, first: bool): Pool
    requires f < |s.frames| == |s.writers|
  {
    s.(frames := s.frames[f := s.frames[f].(data := data)],
       writers := if first then s.writers[f := s.writers[f] + 1] else s.writers)
  }

  ghost function Step(s: Pool, e: Event): Pool
    requires Inv(s) && Allowed(s, e)
  {
    match e
    case Fetch(id) => Fetched(s, id)
    case Unpin(id, dirty, wrote) => Unpinned(s, id, dirty, wrote)
    case Flush(id) => Flushed(s, id)
    case New => Created(s)
    case Delete(id) => Deleted(s, id)
    case WriteData(f, data, first) => Written(s, f, data, first)
  }

  // Only a page that is written to, deleted or created may change.
  ghost predicate Kept(s: Pool, s': Pool, e: Event) {
    forall id :: id in s.live ==>
      if e.WriteData? && e.frame < |s.frames| && s.frames[e.frame].pageId == id then Content(s', id) == Some(e.data)
      else if e.Delete? && e.id == id then true
      else id in s'.live && Content(s', id) == Content(s, id)
  }

  lemma FetchKeeps(s: Pool, id: int)
    requires Inv(s) && FetchOk(s, id)
    ensures Inv(Fetched(s, id)) && Kept(s, Fetched(s, id), Fetch(id))
    ensures Resident(Fetched(s, id), id) <==> Resident(s, id) || exists f :: 0 <= f < |s.frames| && s.frames[f].pins == 0
  {
    if Resident(s, id) {
      HitKeeps(s, id);
    } else {
      ChoiceIff(s);
      if Choice(s) != None {
        Take(s);
        OtherOnDisk(s, id);
        Install(Taken(s), Choice(s).value, id, false, Taken(s).disk[id]);
      }
    }
  }

  // Taking a frame does not touch what the disk has of a page without one.
  lemma OtherOnDisk(s: Pool, id: int)
    requires Inv(s) && !Resident(s, id) && Choice(s) != None
    ensures id !in Taken(s).table
    ensures id in Taken(s).disk <==> id in s.disk
    ensures id in s.disk ==> Taken(s).disk[id] == s.disk[id]
  {
    if s.free == [] { assert FrameOk(s, Choice(s).value); }
  }

  lemma HitKeeps(s: Pool, id: int)
    requires Inv(s) && Resident(s, id) && s.table[id] !in s.free
    ensures Inv(Fetched(s, id)) && Kept(s, Fetched(s, id), Fetch(id))
  {
    var s', f := Fetched(s, id), s.table[id];
    WithoutDistinct(s.lru, f);
    WithoutMembers(s.lru, f);
    assert FrameOk(s, f);
    assert forall i :: 0 <= i < |s'.lru| ==> s'.lru[i] in s.lru;
    forall g | 0 <= g < |s.frames|
      ensures FrameOk(s', g)
    {
      assert FrameOk(s, g);
    }
    forall x | x in s.live
      ensures PageOk(s', x) && Content(s', x) == Content(s, x)
    {
      assert PageOk(s, x);
    }
  }

  lemma UnpinKeeps(s: Pool, id: int, dirty: bool, wrote: bool)
    requires Inv(s) && Allowed(s, Unpin(id, dirty, wrote))
    ensures Inv(Unpinned(s, id, dirty, wrote)) && Kept(s, Unpinned(s, id, dirty, wrote), Unpin(id, dirty, wrote))
  {
    var s' := Unpinned(s, id, dirty, wrote);
    if Resident(s, id) && s.frames[s.table[id]].pins > 0 {
      var f := s.table[id];
      assert FrameOk(s, f);
      forall g | 0 <= g < |s.frames|
        ensures FrameOk(s', g)
      {
        assert FrameOk(s, g);
      }
      forall x | x in s.live
        ensures PageOk(s', x) && Content(s', x) == Content(s, x)
      {
        assert PageOk(s, x);
      }
    }
  }

  lemma FlushKeeps(s: Pool, id: int)
    requires Inv(s) && FlushOk(s, id)
    ensures Inv(Flushed(s, id)) && Kept(s, Flushed(s, id), Flush(id))
    ensures Resident(s, id) && id in s.live ==> id in Flushed(s, id).disk && Content(s, id) == Some(Flushed(s, id).disk[id])
  {
    var s' := Flushed(s, id);
    if Resident(s, id) {
      assert FrameOk(s, s.table[id]);
      assert PageOk(s, s.frames[s.table[id]].pageId);
      assert id in s.live ==> PageOk(s, id);
      forall g | 0 <= g < |s.frames|
        ensures FrameOk(s', g)
      {
        assert FrameOk(s, g);
      }
      forall x | x in s.live
        ensures PageOk(s', x) && Content(s', x) == Content(s, x)
      {
        assert PageOk(s, x);
      }
    }
  }

  // Taking the id does not need a frame.
  lemma NextId(s: Pool)
    requires Inv(s)
    ensures Inv(s.(nextId := s.nextId + 1))
    ensures s.nextId !in s.live && s.nextId !in s.table
    ensures forall id :: Content(s.(nextId := s.nextId + 1), id) == Content(s, id)
  {
    var s' := s.(nextId := s.nextId + 1);
    forall g | 0 <= g < |s.frames|
      ensures FrameOk(s', g)
    {
      assert FrameOk(s, g);
    }
    forall x | x in s.live
      ensures x != s.nextId && PageOk(s', x)
    {
      assert PageOk(s, x);
    }
  }

  lemma NewKeeps(s: Pool)
    requires Inv(s)
    ensures Inv(Created(s)) && Kept(s, Created(s), New)
    ensures s.nextId !in s.live
    ensures s.nextId in Created(s).live <==> exists f :: 0 <= f < |s.frames| && s.frames[f].pins == 0
    ensures s.nextId in Created(s).live ==> Content(Created(s), s.nextId) == Some(Zeros())
  {
    NextId(s);
    ChoiceIff(s);
    if Choice(s) != None {
      var s1 := s.(nextId := s.nextId + 1);
      Take(s1);
      assert Taken(s1) == Taken(s).(nextId := s.nextId + 1);
      assert s.nextId !in Taken(s1).table;
      Install(Taken(s1), Choice(s).value, s.nextId, true, Zeros());
    }
  }

  lemma DeleteKeeps(s: Pool, id: int)
    requires Inv(s) && DeleteOk(s, id)
    ensures Inv(Deleted(s, id)) && Kept(s, Deleted(s, id), Delete(id))
    ensures id in Deleted(s, id).live <==> id in s.live && Resident(s, id) && s.frames[s.table[id]].pins > 0
  {
    var s' := Deleted(s, id);
    if Resident(s, id) && s.frames[s.table[id]].pins == 0 {
      assert PageOk(s, id);
      var f := s.table[id];
      assert FrameOk(s, f);
      WithoutDistinct(s.lru, f);
      WithoutMembers(s.lru, f);
      assert forall i :: 0 <= i < |s'.lru| ==> s'.lru[i] in s.lru;
    }
    forall g | 0 <= g < |s.frames|
      ensures FrameOk(s', g)
    {
      assert FrameOk(s, g);
    }
    forall x | x in s.live
      ensures x in s'.live ==> PageOk(s', x)
      ensures x != id ==> Content(s', x) == Content(s, x)
    {
      assert PageOk(s, x);
    }
  }

  lemma WriteKeeps(s: Pool, f: nat, data: Data, first: bool)
    requires Inv(s) && Allowed(s, WriteData(f, data, first))
    ensures Inv(Written(s, f, data, first)) && Kept(s, Written(s, f, data, first), WriteData(f, data, first))
  {
    var s' := Written(s, f, data, first);
    assert FrameOk(s, f);
    forall g | 0 <= g < |s.frames|
      ensures FrameOk(s', g)
    {
      assert FrameOk(s, g);
    }
    forall x | x in s.live
      ensures PageOk(s', x)
      ensures if s.frames[f].pageId == x then Content(s', x) == Some(data) else Content(s', x) == Content(s, x)
    {
      assert PageOk(s, x);
    }
  }

  /** Every step keeps the pool right and touches no other page. */
  lemma StepKeeps(s: Pool, e: Event)
    requires Inv(s) && Allowed(s, e)
    ensures Inv(Step(s, e)) && Kept(s, Step(s, e), e)
  {
    match e
    case Fetch(id) => FetchKeeps(s, id);
    case Unpin(id, dirty, wrote) => UnpinKeeps(s, id, dirty, wrote);
    case Flush(id) => FlushKeeps(s, id);
    case New => NewKeeps(s);
    case Delete(id) => DeleteKeeps(s, id);
    case WriteData(f, data, first) => WriteKeeps(s, f, data, first);
  }

  // ----- Ids that were deleted -----

  /** The frame that the table names for an id has that page exactly when the page is live. */
  lemma EntryRightIff(s: Pool, id: int)
    requires Inv(s) && Resident(s, id)
    ensures s.frames[s.table[id]].pageId == id <==> id in s.live
  {
    assert FrameOk(s, s.table[id]);
    assert id in s.live ==> PageOk(s, id);
  }

  /** For every id, a fetch keeps the pool right exactly when it is harmless. */
  lemma FetchKeepsIff(s: Pool, id: int)
    requires Inv(s)
    ensures Inv(Fetched(s, id)) <==> FetchOk(s, id)
  {
    var s' := Fetched(s, id);
    if FetchOk(s, id) {
      FetchKeeps(s, id);
    } else if Resident(s, id) {
      assert FrameOk(s, s.table[id]);
      assert !FrameOk(s', s.table[id]);
    } else {
      ChoiceIff(s);
      Take(s);
      OtherOnDisk(s, id);
      assert id in s'.table;
      assert id !in s.disk ==> !FrameOk(s', Choice(s).value);
    }
  }

  /** For every id, a flush keeps the pool right exactly when it is harmless. */
  lemma FlushKeepsIff(s: Pool, id: int)
    requires Inv(s)
    ensures Inv(Flushed(s, id)) <==> FlushOk(s, id)
  {
    if FlushOk(s, id) {
      FlushKeeps(s, id);
    } else {
      assert FrameOk(s, s.table[id]);
      assert INVALID_PAGE_ID in Flushed(s, id).disk;
    }
  }

  /** For every id, an unpin keeps the pool right exactly when it is harmless. */
  lemma UnpinKeepsIff(s: Pool, id: int, dirty: bool, wrote: bool)
    requires Inv(s) && Counted(s, id, wrote)
    ensures Inv(Unpinned(s, id, dirty, wrote)) <==> UnpinOk(s, id, dirty, wrote)
  {
    if UnpinOk(s, id, dirty, wrote) {
      UnpinKeeps(s, id, dirty, wrote);
    } else {
      assert FrameOk(s, s.table[id]);
      assert !FrameOk(Unpinned(s, id, dirty, wrote), s.table[id]);
    }
  }

  /** For every id, a delete keeps the pool right exactly when it is harmless. */
  lemma DeleteKeepsIff(s: Pool, id: int)
    requires Inv(s)
    ensures Inv(Deleted(s, id)) <==> DeleteOk(s, id)
  {
    if DeleteOk(s, id) {
      DeleteKeeps(s, id);
    } else {
      var s', f := Deleted(s, id), s.table[id];
      assert FrameOk(s, f);
      if f in s.free {
        var i :| 0 <= i < |s.free| && s.free[i] == f;
        assert s'.free[i] == s'.free[|s.free|];
      } else {
        assert s'.free[|s.free|] == f;
        assert !PageOk(s', s.frames[f].pageId);
      }
    }
  }

  // ----- Runs -----

  ghost predicate IsRun(s: Pool, es: seq<Event>)
    requires Inv(s)
    decreases |es|
  {
    es != [] ==> Allowed(s, es[0]) && (StepKeeps(s, es[0]); IsRun(Step(s, es[0]), es[1..]))
  }

  ghost function After(s: Pool, es: seq<Event>): (s': Pool)
    requires Inv(s) && IsRun(s, es)
    ensures Inv(s')
    decreases |es|
  {
    if es == [] then s else StepKeeps(s, es[0]); After(Step(s, es[0]), es[1..])
  }

  // What the client last put into page `id`, given what it held at the start.
  ghost function LastWritten(s: Pool, es: seq<Event>, id: int, held: Option<Data>): Option<Data>
    requires Inv(s) && IsRun(s, es)
    decreases |es|
  {
    if es == [] then held
    else
      var e := es[0];
      StepKeeps(s, e);
      LastWritten(Step(s, e), es[1..], id,
        if e.WriteData? && e.frame < |s.frames| && s.frames[e.frame].pageId == id then Some(e.data) else held)
  }

  ghost predicate Deletes(es: seq<Event>, id: int) {
    exists i :: 0 <= i < |es| && es[i] == Delete(id)
  }

  /** Over any run, through fetches, evictions and flushes, a page holds what was last
      written to it. */
  lemma {:induction false} CacheTransparent(s: Pool, es: seq<Event>, id: int)
    requires Inv(s) && IsRun(s, es) && id in s.live && !Deletes(es, id)
    ensures id in After(s, es).live
    ensures Content(After(s, es), id) == LastWritten(s, es, id, Content(s, id))
    decreases |es|
  {
    if es != [] {
      var s' := Step(s, es[0]);
      StepKeeps(s, es[0]);
      assert es[0] != Delete(id);
      assert !Deletes(es[1..], id) by {
        assert forall i :: 0 <= i < |es[1..]| ==> es[1..][i] == es[i + 1];
      }
      LiveStays(s, es[0], id);
      CacheTransparent(s', es[1..], id);
    }
  }

  lemma LiveStays(s: Pool, e: Event, id: int)
    requires Inv(s) && Allowed(s, e) && id in s.live && e != Delete(id)
    ensures id in Step(s, e).live
  {
  }

  // A new pool: all frames are free.
  function FreePool(size: nat): Pool {
    Pool(seq(size, _ => Frame(INVALID_PAGE_ID, 0, false, [])), map[], seq(size, i => i), [], map[], 0, {}, seq(size, _ => 0))
  }

  lemma FreePoolOk(size: nat)
    ensures Inv(FreePool(size))
  {
    var s := FreePool(size);
    forall f | 0 <= f < size
      ensures FrameOk(s, f)
    {
      assert s.free[f] == f;
    }
  }

  ghost function Start(size: nat): (s: Pool)
    ensures Inv(s)
  {
    FreePoolOk(size);
    FreePool(size)
  }

  /** In every run of a new pool, the table is one-to-one on live pages, and onto the
      frames that are not free. */
  lemma TableIsBijection(size: nat, es: seq<Event>)
    requires IsRun(Start(size), es)
    ensures var s := After(Start(size), es);
      && (forall a, b :: a in s.live && b in s.live && a in s.table && b in s.table && s.table[a] == s.table[b] ==> a == b)
      && (forall f :: 0 <= f < |s.frames| ==>
            (f !in s.free <==> exists id :: id in s.live && id in s.table && s.table[id] == f))
  {
    var s := After(Start(size), es);
    forall a | a in s.live && a in s.table
      ensures s.table[a] < |s.frames| && s.frames[s.table[a]].pageId == a && s.table[a] !in s.free
    {
      assert PageOk(s, a);
    }
    forall f | 0 <= f < |s.frames|
      ensures f !in s.free <==> exists id :: id in s.live && id in s.table && s.table[id] == f
    {
      assert FrameOk(s, f);
      if f !in s.free {
        var id := s.frames[f].pageId;
        assert id in s.live && id in s.table && s.table[id] == f;
      }
    }
  }

  /** In every run of a new pool, a frame is free, in the replacer or pinned, and only one
      of these; and one in use that is neither pinned nor dirty equals the disk. */
  lemma FramesAccounted(size: nat, es: seq<Event>, f: nat)
    requires IsRun(Start(size), es) && f < |After(Start(size), es).frames|
    ensures var s := After(Start(size), es);
      var free, spare, pinned := f in s.free, f in s.lru, s.frames[f].pins > 0;
      && (free || spare || pinned) && !(free && spare) && !(free && pinned) && !(spare && pinned)
      && (spare && !s.frames[f].dirty ==> s.frames[f].pageId in s.disk && s.disk[s.frames[f].pageId] == s.frames[f].data)
  {
    assert FrameOk(After(Start(size), es), f);
  }

  // One frame, with the unpinned page 0.
  function OnePage(a: Data): Pool {
    Pool([Frame(0, 0, true, a)], map[0 := 0], [], [0], map[], 1, {0}, [0])
  }

  // The page deleted, and page 1 created in its frame: the table still knows page 0.
  function Reused(): Pool {
    Pool([Frame(1, 1, true, Zeros())], map[0 := 0, 1 := 0], [], [], map[], 2, {1}, [0])
  }

  lemma OnePageOk(a: Data)
    ensures Inv(OnePage(a)) && Allowed(OnePage(a), Delete(0))
    ensures Deleted(OnePage(a), 0) == Pool([Frame(INVALID_PAGE_ID, 0, false, a)], map[0 := 0], [0], [], map[], 1, {}, [0])
  {
    var s := OnePage(a);
    assert FrameOk(s, 0) && PageOk(s, 0);
    assert [0][1..] == [];
  }

  // Page 0 presented again: before the frame is reused a fetch or a flush breaks the pool,
  // and after that it finds page 1.
  lemma StaleEntry(a: Data)
    ensures Inv(OnePage(a)) && Inv(Deleted(OnePage(a), 0)) && !Inv(Fetched(Deleted(OnePage(a), 0), 0))
    ensures !Inv(Flushed(Deleted(OnePage(a), 0), 0))
    ensures Created(Deleted(OnePage(a), 0)) == Reused()
    ensures 0 !in Reused().live && Inv(Reused()) && Fetched(Reused(), 0).frames == [Frame(1, 2, true, Zeros())]
  {
    OnePageOk(a);
    DeleteKeeps(OnePage(a), 0);
    var s := Deleted(OnePage(a), 0);
    FetchKeepsIff(s, 0);
    FlushKeepsIff(s, 0);
    assert s.free[0] == 0;
    NewKeeps(s);
  }
}

/**
 The buffer pool manager, changing its frames, page table, free list and replacer in
 place.  Each operation is proved to be a step of the model.
 */
module BufferPools {
  import opened Bytes
  import opened Sequences
  import opened BufferPoolModel
  import opened Wrappers
  import Lru = LruReplacers

  class BufferPoolManager {
    const frames: array<Frame>
    const replacer: Lru.LRUReplacer<nat>
    var table: map<int, nat>
    var free: seq<nat>
    var disk: map<int, Data>
    var nextId: int
    ghost var live: set<int>
    ghost var writers: seq<nat>

    ghost function S(): Pool
      reads this, frames, replacer
    {
      Pool(frames[..], table, free, replacer.order, disk, nextId, live, writers)
    }

    ghost predicate Valid()
      reads this, frames, replacer
    {
      replacer.Valid() && Inv(S())
    }

    // No frame of the replacer was unpinned longer ago.
    ghost predicate Oldest(f: nat)
      reads replacer
    {
      f in replacer.stamp && forall g :: g in replacer.order && g in replacer.stamp ==> replacer.stamp[f] <= replacer.stamp[g]
    }

    constructor (size: nat)
      ensures Valid() && fresh(frames) && fresh(replacer) && frames.Length == size
      ensures S() == FreePool(size)
    {
      frames := new Frame[size](_ => Frame(INVALID_PAGE_ID, 0, false, []));
      replacer := new Lru.LRUReplacer();
      table, free, disk, nextId := map[], seq(size, i => i), map[], 0;
      live, writers := {}, seq(size, _ => 0);
      new;
      forall f | 0 <= f < size
        ensures FrameOk(S(), f)
      {
        assert free[f] == f;
      }
      assert frames[..] == FreePool(size).frames;
    }

    // The frame to use for another page, from the free list first, written back if dirty.
    method TakeFrame() returns (r: Option<nat>)
      requires Valid()
      modifies this`table, this`free, this`disk, replacer
      ensures replacer.Valid() && S() == Taken(old(S())) && r == Choice(old(S()))
      ensures old(free) == [] && r.Some? ==> old(Oldest(r.value))
    {
      if free != [] {
        r, free := Some(free[0]), free[1..];
      } else {
        r := Evict();
      }
    }

    // The page that was unpinned longest ago leaves, written back if it is dirty.
    method Evict() returns (r: Option<nat>)
      requires replacer.Valid() && forall i :: 0 <= i < |replacer.order| ==> replacer.order[i] < frames.Length
      requires free == []
      modifies this`table, this`disk, replacer
      ensures replacer.Valid() && S() == Taken(old(S())) && r == Choice(old(S()))
      ensures r.Some? ==> old(Oldest(r.value))
    {
      ghost var s := S();
      var v := replacer.Victim();
      if v.None? { return None; }
      var f := v.value;
      assert f == s.lru[|s.lru| - 1] && frames[f] == s.frames[f];
      table := table - {frames[f].pageId};
      if frames[f].dirty {
        disk := disk[frames[f].pageId := frames[f].data];
      }
      assert S() == s.(lru := s.lru[..|s.lru| - 1], table := table, disk := disk);
      r := Some(f);
    }

    method FetchPage(id: int) returns (r: Option<nat>)
      requires Valid()
      modifies this, frames, replacer
      ensures replacer.Valid() && S() == Fetched(old(S()), id)
      ensures Valid() <==> FetchOk(old(S()), id)
      ensures r == None <==> id !in old(table) && forall f :: 0 <= f < frames.Length ==> old(frames[f]).pins > 0
      ensures r.Some? ==> id in table && r.value == table[id] < frames.Length
      ensures r.Some? ==> (frames[r.value].pageId == id <==> id in old(live) || id !in old(table))
      ensures r.Some? && id in old(live) ==> Some(frames[r.value].data) == Content(old(S()), id)
    {
      ghost var s := S();
      FetchKeepsIff(s, id);
      if id in table {
        EntryRightIff(s, id);
        r := Some(table[id]);
        Pin(table[id]);
      } else {
        ChoiceIff(s);
        if Choice(s) != None { Take(s); }
        assert id in live ==> PageOk(s, id);
        r := TakeFrame();
        if r.None? { return; }
        Fill(r.value, id, false, ReadPage(disk, id, frames[r.value].data));
      }
    }

    method Pin(f: nat)
      requires replacer.Valid() && f < frames.Length
      modifies frames, replacer
      ensures replacer.Valid() && S() == Raised(old(S()), f)
    {
      ghost var s := S();
      if frames[f].pins == 0 {
        var _ := replacer.Erase(f);
      }
      ghost var lru := replacer.order;
      frames[f] := frames[f].(pins := frames[f].pins + 1);
      assert frames[..] == s.frames[f := s.frames[f].(pins := s.frames[f].pins + 1)];
      assert S() == s.(frames := frames[..], lru := lru);
    }

    method Lower(f: nat, dirty: bool, ghost wrote: bool)
      requires replacer.Valid() && f < frames.Length == |writers| && frames[f].pins > 0 && f !in replacer.order
      modifies frames, replacer, this`writers
      ensures replacer.Valid() && S() == Lowered(old(S()), f, dirty, wrote)
    {
      if dirty {
        frames[f] := frames[f].(dirty := true);
      }
      frames[f] := frames[f].(pins := frames[f].pins - 1);
      if frames[f].pins == 0 {
        WithoutAbsent(replacer.order, f);
        replacer.Insert(f);
      }
      if wrote && writers[f] > 0 { writers := writers[f := writers[f] - 1]; }
    }

    // Resets the frame before it removes the page id it then reads: nothing is removed.
    method Release(f: nat, ghost id: int)
      requires replacer.Valid() && f < frames.Length && INVALID_PAGE_ID !in table
      modifies frames, replacer, this`table, this`free, this`live
      ensures replacer.Valid() && S() == Freed(old(S()), f, id)
    {
      ghost var s := S();
      frames[f] := frames[f].(dirty := false);
      frames[f] := frames[f].(pageId := INVALID_PAGE_ID);
      table := table - {frames[f].pageId};
      free := free + [f];
      assert frames[..] == s.frames[f := s.frames[f].(dirty := false, pageId := INVALID_PAGE_ID)];
      assert table == s.table;
      var _ := replacer.Erase(f);
      live := live - {id};
      assert S() == s.(frames := frames[..], free := free, lru := replacer.order, live := live);
    }

    method Fill(f: nat, id: int, dirty: bool, data: Data)
      requires f < frames.Length == |writers|
      modifies frames, this`table, this`live, this`writers
      ensures S() == Installed(old(S()), f, id, dirty, data)
    {
      frames[f] := Frame(id, 1, dirty, data);
      table := table[id := f];
      live, writers := live + {id}, writers[f := 0];
    }

    method UnpinPage(id: int, dirty: bool, ghost wrote: bool) returns (ok: bool)
      requires Valid() && Counted(S(), id, wrote)
      modifies this, frames, replacer
      ensures replacer.Valid() && S() == Unpinned(old(S()), id, dirty, wrote)
      ensures Valid() <==> UnpinOk(old(S()), id, dirty, wrote)
      ensures ok == (id in old(table) && old(table)[id] < frames.Length && old(frames[table[id]]).pins > 0)
    {
      ghost var s := S();
      UnpinKeepsIff(s, id, dirty, wrote);
      if id in table && frames[table[id]].pins > 0 {
        assert FrameOk(s, table[id]);
        Lower(table[id], dirty, wrote);
        return true;
      }
      return false;
    }

    method FlushPage(id: int) returns (ok: bool)
      requires Valid()
      modifies this`disk
      ensures S() == Flushed(old(S()), id)
      ensures Valid() <==> FlushOk(old(S()), id)
      ensures ok == (id in table) && (ok && id in live ==> id in disk && Some(disk[id]) == Content(old(S()), id))
    {
      ghost var s := S();
      FlushKeepsIff(s, id);
      if id in table {
        assert FrameOk(s, table[id]);
        assert id in live ==> PageOk(s, id);
        disk := disk[frames[table[id]].pageId := frames[table[id]].data];
        return true;
      }
      return false;
    }

    method DeletePage(id: int) returns (ok: bool)
      requires Valid()
      modifies this, frames, replacer
      ensures replacer.Valid() && S() == Deleted(old(S()), id)
      ensures Valid() <==> DeleteOk(old(S()), id)
      ensures ok == !(id in old(table) && old(table)[id] < frames.Length && old(frames[table[id]]).pins > 0)
      ensures ok ==> id !in live
    {
      DeleteKeepsIff(S(), id);
      if id in table && frames[table[id]].pins == 0 {
        Release(table[id], id);
        return true;
      } else if id !in table {
        live := live - {id};
        return true;
      }
      return false;
    }

    method NewPage() returns (id: int, r: Option<nat>)
      requires Valid()
      modifies this, frames, replacer
      ensures Valid() && S() == Created(old(S()))
      ensures id == old(nextId) && id !in old(live)
      ensures r == None <==> forall f :: 0 <= f < frames.Length ==> old(frames[f]).pins > 0
      ensures r.Some? ==> id in live && id in table && r.value == table[id] < frames.Length && frames[r.value].data == Zeros()
    {
      ghost var s := S();
      NewKeeps(s);
      ChoiceIff(s);
      id := nextId;
      r := TakeFrame();
      nextId := nextId + 1;
      assert S() == Taken(s).(nextId := s.nextId + 1);
      if r.None? { return; }
      Fill(r.value, id, true, Zeros());
    }

    // What a client does with the frame of a page it has pinned.
    method PutData(f: nat, data: Data, ghost first: bool)
      requires Valid() && Allowed(S(), WriteData(f, data, first))
      modifies frames, this`writers
      ensures Valid() && S() == Written(old(S()), f, data, first)
    {
      WriteKeeps(S(), f, data, first);
      frames[f] := frames[f].(data := data);
      if first { writers := writers[f := writers[f] + 1]; }
    }
  }
}

/** The demand-paged machine as the program runs it: a flat byte array that holds tables and data,
    pointers into it, and loops. Each method is proved against its specification function. */
module PagingMachine {
  import opened Grid
  import opened PageBits
  import opened PagingState
  import opened PagingEvict
  import opened PagingFrames
  import opened PagingOps
  import opened PagingCommands
  import PagingRuns

  /** A page_t*: null, into the hardware table, or at an address of main memory. */
  datatype Ptr = Null | ProcEntry(pid: int) | Cell(address: int)

  function PtrTo(s: State, p: int, n: int): Ptr
    requires s.Named(p, n)
  {
    if n == TABLE then ProcEntry(p) else Cell(At(s.pageSize, s.proc[p].frame, n))
  }

  /** Distinct resident tables are in distinct frames. */
  ghost predicate TablesApart(s: State) {
    forall p, q | 0 <= p < |s.proc| && 0 <= q < |s.proc| && s.proc[p].valid && s.proc[q].valid &&
                  s.proc[p].frame == s.proc[q].frame :: p == q
  }

  lemma InvTablesApart(s: State)
    requires s.Inv()
    ensures TablesApart(s)
  {
    assert forall p | 0 <= p < |s.proc| && s.proc[p].valid :: s.TableOk(p) && s.Live(p, TABLE);
  }

  /** A table's frame is not the frame of what it maps. */
  lemma FramesApart(s: State, p: int, n: int)
    requires s.Inv() && s.Live(p, n)
    ensures n != TABLE ==> s.Entry(p, n).frame != s.proc[p].frame
  {
    assert s.Live(p, TABLE);
  }

  /** An entry that has just been marked invalid still has its pointer, and its frame's contents. */
  lemma Unmapped(s: State, p: int, n: int)
    requires s.Inv() && s.Live(p, n)
    ensures var t := s.SetEntry(p, n, s.Entry(p, n).(valid := false));
      && s.Entry(p, n).procc == p
      && t.Named(p, n) && PtrTo(t, p, n) == PtrTo(s, p, n)
      && TablesApart(t) && (n != TABLE ==> t.proc[p].valid)
      && t.mem[s.Entry(p, n).frame] == s.mem[s.Entry(p, n).frame]
  {
    InvTablesApart(s);
    FramesApart(s, p, n);
    assert s.TableOk(p);
    if n != TABLE { assert s.EntryOk(s.Entry(p, n), p, n); }
  }

  /** After passing over pid's table, the next frame is not pid's table. */
  lemma NextOwner(s: State, pid: int)
    requires s.Inv() && Full(s) && Owner(s, s.robin) == (pid, TABLE)
    ensures var u := s.(robin := Next(s));
      u.Inv() && Full(u) && u.Allocated(u.robin) && Owner(u, u.robin) != (pid, TABLE)
  {
    OnlyRobin(s, Next(s));
    var u := s.(robin := Next(s));
    assert s.Entry(pid, TABLE).frame == s.robin;
  }

  lemma KeepsRobin(s: State, p: int, n: int)
    requires s.Inv() && s.Live(p, n)
    ensures EvictWhole(s, p, n).robin == s.robin
  {
    EvictWholeSpec(s, p, n);
  }

  /** Writing to a frame that nothing uses keeps the invariant. */
  lemma FillInv(s: State, f: int, data: seq<Page>)
    requires s.Inv() && 0 <= f < |s.mem| && !s.Allocated(f) && |data| == s.pageSize
    ensures s.(mem := s.mem[f := data]).Inv()
  {
    var t := s.(mem := s.mem[f := data]);
    assert forall p | 0 <= p < |s.proc| && s.proc[p].valid :: s.TableOk(p) && s.Live(p, TABLE);
    assert forall p, n :: t.Live(p, n) == s.Live(p, n);
    assert forall p, n | s.Live(p, n) :: t.Entry(p, n) == s.Entry(p, n);
    forall p | 0 <= p < |t.proc| && t.proc[p].valid ensures t.TableOk(p) { assert s.TableOk(p); }
  }

  lemma ValidMeansLive(s: State, p: int, n: int)
    requires s.Inv() && s.Live(p, TABLE) && 0 <= n < s.pageSize
    ensures s.Named(p, n) && (s.Entry(p, n).valid <==> s.Live(p, n))
  {
    assert s.TableOk(p) && s.EntryOk(s.mem[s.proc[p].frame][n], p, n);
  }

  lemma SetSame(s: State, p: int, n: int)
    requires s.Named(p, n)
    ensures s.SetEntry(p, n, s.Entry(p, n)) == s
  {
    if n == TABLE {
      assert s.proc[p := s.proc[p]] == s.proc;
    } else {
      var f := s.proc[p].frame;
      assert s.mem[f][n := s.mem[f][n]] == s.mem[f];
      assert s.mem[f := s.mem[f]] == s.mem;
    }
  }

  class Machine {
    const pageSize: nat
    const virtPages: nat
    const frames: nat
    const mainMemory: array<Page>
    const procTable: array<Page>
    const backingStore: array<Slot>
    var robin: nat
    /** The state that the fields represent. */
    ghost var model: State

    ghost predicate Valid()
      reads this, mainMemory, procTable, backingStore
    {
      && mainMemory != procTable
      && model.Shape()
      && model.pageSize == pageSize && model.virtPages == virtPages && |model.mem| == frames
      && mainMemory.Length == frames * pageSize
      && procTable[..] == model.proc && backingStore[..] == model.store && robin == model.robin
      && (forall f, j | 0 <= f < frames && 0 <= j < pageSize :: Contents(f, j) == model.mem[f][j])
    }

    function Contents(f: int, j: int): Page
      reads mainMemory
      requires 0 <= f < frames && 0 <= j < pageSize && mainMemory.Length == frames * pageSize
    {
      AtInRange(pageSize, frames, f, j);
      mainMemory[At(pageSize, f, j)]
    }

    constructor (pageSize: nat, virtPages: nat, frames: nat, processes: nat, slots: nat)
      requires 1 <= virtPages <= pageSize && 2 <= frames <= 16 && processes <= 4
      ensures Valid() && PagingRuns.Initial(model) && model.Inv()
      ensures this.pageSize == pageSize && this.virtPages == virtPages && this.frames == frames
      ensures procTable.Length == processes && backingStore.Length == slots
    {
      this.pageSize, this.virtPages, this.frames := pageSize, virtPages, frames;
      var zero := Page(false, false, 0, 0);
      mainMemory := new Page[frames * pageSize](_ => zero);
      procTable := new Page[processes](_ => zero);
      var unused := Slot(seq(pageSize, _ => zero), -1, 0, false);
      backingStore := new Slot[slots](_ => unused);
      robin := 0;
      new;
      model := State(pageSize, virtPages, seq(frames, _ => seq(pageSize, _ => zero)), procTable[..],
                     backingStore[..], 0, 0);
      forall f, j | 0 <= f < frames && 0 <= j < pageSize ensures Contents(f, j) == zero {
        AtInRange(pageSize, frames, f, j);
      }
      PagingRuns.InitialInv(model);
    }

    // ---------------------------------------------------------------- single cells

    method SetCell(f: int, j: int, e: Page)
      requires Valid() && 0 <= f < frames && 0 <= j < pageSize
      modifies mainMemory, this`model
      ensures Valid() && model == old(model).(mem := old(model.mem)[f := old(model.mem)[f][j := e]])
    {
      AtInRange(pageSize, frames, f, j);
      mainMemory[At(pageSize, f, j)] := e;
      model := model.(mem := model.mem[f := model.mem[f][j := e]]);
      forall g, k | 0 <= g < frames && 0 <= k < pageSize
        ensures Contents(g, k) == model.mem[g][k]
      {
        AtInRange(pageSize, frames, g, k);
        if At(pageSize, g, k) == At(pageSize, f, j) { AtInjective(pageSize, g, k, f, j); }
      }
    }

    method ReadCell(f: int, j: int) returns (e: Page)
      requires Valid() && 0 <= f < frames && 0 <= j < pageSize
      ensures e == model.mem[f][j]
    {
      AtInRange(pageSize, frames, f, j);
      assert Contents(f, j) == model.mem[f][j];
      e := mainMemory[f * pageSize + j];
    }

    method SetProc(p: int, e: Page)
      requires Valid() && 0 <= p < procTable.Length
      modifies procTable, this`model
      ensures Valid() && model == old(model).(proc := old(model.proc)[p := e])
    {
      procTable[p] := e;
      model := model.(proc := procTable[..]);
      assert forall f, j | 0 <= f < frames && 0 <= j < pageSize :: Contents(f, j) == old(Contents(f, j));
    }

    method SetSlot(i: int, t: Slot)
      requires Valid() && 0 <= i < backingStore.Length && |t.data| == pageSize
      modifies backingStore, this`model
      ensures Valid() && model == old(model).(store := old(model.store)[i := t])
    {
      backingStore[i] := t;
      model := model.(store := backingStore[..]);
    }

    method Advance()
      requires Valid()
      modifies this`robin, this`model
      ensures Valid() && model == old(model).(robin := Next(old(model)))
    {
      robin := robin + 1;
      if robin >= frames { robin := 0; }
      model := model.(robin := robin);
    }

    // ---------------------------------------------------------------- searches

    /** The address of the entry for frame in table frame f, if there is one. */
    method SearchTable(f: int, frame: int) returns (j: int)
      requires Valid() && 0 <= f < frames
      ensures -1 <= j < mainMemory.Length
      ensures j == -1 ==> forall n | 0 <= n < pageSize :: !(model.mem[f][n].valid && model.mem[f][n].frame == frame)
      ensures j >= 0 ==> exists n :: 0 <= n < pageSize && j == At(pageSize, f, n) &&
                                     model.mem[f][n].valid && model.mem[f][n].frame == frame
    {
      j := f * pageSize;
      while j < f * pageSize + pageSize
        invariant f * pageSize <= j <= f * pageSize + pageSize
        invariant forall n | 0 <= n < j - f * pageSize :: !(model.mem[f][n].valid && model.mem[f][n].frame == frame)
      {
        ghost var n := j - f * pageSize;
        AtInRange(pageSize, frames, f, n);
        assert Contents(f, n) == model.mem[f][n];
        if mainMemory[j].valid && mainMemory[j].frame == frame {
          assert j == At(pageSize, f, n);
          return;
        }
        j := j + 1;
      }
      j := -1;
    }

    method FrameAllocated(frame: int) returns (ptr: Ptr)
      requires Valid() && model.Inv() && 0 <= frame < frames
      ensures ptr == Null <==> !model.Allocated(frame)
      ensures ptr != Null ==> var k := Owner(model, frame); ptr == PtrTo(model, k.0, k.1)
    {
      for i := 0 to procTable.Length
        invariant forall p, n | model.Live(p, n) && p < i :: model.Entry(p, n).frame != frame
      {
        if procTable[i].valid {
          assert model.TableOk(i) && model.Live(i, TABLE);
          if procTable[i].frame == frame {
            OwnerIs(model, i, TABLE, frame);
            return ProcEntry(i);
          } else {
            var j := SearchTable(procTable[i].frame, frame);
            if j >= 0 {
              ghost var n :| 0 <= n < pageSize && j == At(pageSize, procTable[i].frame, n) &&
                model.mem[procTable[i].frame][n].valid && model.mem[procTable[i].frame][n].frame == frame;
              OwnerIs(model, i, n, frame);
              return Cell(j);
            }
          }
        }
      }
      return Null;
    }

    /** The page number of an entry; entry 0 of a table is not searched. */
    method GetPageNum(page: Ptr, ghost p: int, ghost n: int) returns (r: int)
      requires Valid() && model.Named(p, n) && page == PtrTo(model, p, n)
      requires TablesApart(model) && (n != TABLE ==> model.proc[p].valid)
      ensures r == Filed(n)
    {
      for i := 0 to procTable.Length
        invariant n == TABLE ==> i <= p
        invariant n > 0 ==> i <= p
      {
        if page == ProcEntry(i) {
          return TABLE;
        } else if procTable[i].valid {
          for j := 1 to pageSize
            invariant n > 0 && i == p ==> j <= n
          {
            if page == Cell(procTable[i].frame * pageSize + j) {
              assert At(pageSize, procTable[i].frame, j) == At(pageSize, procTable[p].frame, n);
              AtInjective(pageSize, procTable[i].frame, j, procTable[p].frame, n);
              return j;
            }
          }
        }
      }
      return DEAD;
    }

    method Get(page: Ptr, ghost p: int, ghost n: int) returns (e: Page)
      requires Valid() && model.Named(p, n) && page == PtrTo(model, p, n)
      ensures e == model.Entry(p, n)
    {
      match page {
        case ProcEntry(i) => e := procTable[i];
        case Cell(address) =>
          AtInRange(pageSize, frames, model.proc[p].frame, n);
          assert Contents(model.proc[p].frame, n) == model.mem[model.proc[p].frame][n];
          e := mainMemory[address];
      }
    }

    method Set(page: Ptr, e: Page, ghost p: int, ghost n: int)
      requires Valid() && model.Named(p, n) && page == PtrTo(model, p, n)
      modifies mainMemory, procTable, this`model
      ensures Valid() && model == old(model).SetEntry(p, n, e)
    {
      match page {
        case ProcEntry(i) => SetProc(i, e);
        case Cell(address) =>
          ghost var f := model.proc[p].frame;
          AtInRange(pageSize, frames, f, n);
          SplitAt(pageSize, f, n);
          SetCell(address / pageSize, address % pageSize, e);
      }
    }

    // ---------------------------------------------------------------- eviction

    /** Copy frame f of main memory into slot i. */
    method CopyOut(f: int, i: int)
      requires Valid() && 0 <= f < frames && 0 <= i < backingStore.Length
      modifies backingStore, this`model
      ensures Valid()
      ensures model == old(model).(store := old(model.store)[i := old(model.store)[i].(data := old(model.mem)[f])])
    {
      for j := 0 to pageSize
        invariant Valid()
        invariant model == old(model).(store := old(model.store)[i := model.store[i]])
        invariant model.store[i] == old(model.store)[i].(data := model.store[i].data)
        invariant model.store[i].data[..j] == model.mem[f][..j]
      {
        AtInRange(pageSize, frames, f, j);
        assert Contents(f, j) == model.mem[f][j];
        SetSlot(i, backingStore[i].(data := backingStore[i].data[j := mainMemory[f * pageSize + j]]));
      }
      assert model.store[i].data == model.mem[f];
    }

    /** Claim slot i for the entry e, which page points to, and copy its frame there. */
    method FileAway(i: int, e: Page, page: Ptr, ghost p: int, ghost n: int)
      requires Valid() && 0 <= i < backingStore.Length && e.frame < frames
      requires model.Named(p, n) && page == PtrTo(model, p, n)
      requires TablesApart(model) && (n != TABLE ==> model.proc[p].valid)
      modifies backingStore, this`model
      ensures Valid()
      ensures var slot := Slot(old(model.mem)[e.frame], e.procc, Filed(n), e.write);
        model == old(model).(store := old(model.store)[i := slot])
    {
      SetSlot(i, backingStore[i].(pid := e.procc));
      SetSlot(i, backingStore[i].(write := e.write));
      var num := GetPageNum(page, p, n);
      SetSlot(i, backingStore[i].(page := num));
      CopyOut(e.frame, i);
    }

    method FreeSpecificFrame(page: Ptr, ghost p: int, ghost n: int)
      requires Valid() && model.Inv() && Evictable(model, p, n) && page == PtrTo(model, p, n)
      modifies this`model, mainMemory, procTable, backingStore
      ensures Valid() && model == Evict(old(model), p, n)
    {
      ghost var s := model;
      Unmapped(s, p, n);
      var e := Get(page, p, n);
      Set(page, e.(valid := false), p, n);
      ghost var t := model;
      var i := 0;
      while i < backingStore.Length
        invariant Valid() && model == t && 0 <= i <= backingStore.Length
        invariant forall k | 0 <= k < i :: t.store[k].Used()
      {
        if backingStore[i].pid < 0 {
          FileAway(i, e, page, p, n);
          return;
        }
        i := i + 1;
      }
      model := model.(dropped := model.dropped + 1);
    }

    /** Evict all that the table in frame f, which is process p's, maps. */
    method UnloadTable(f: int, ghost p: int)
      requires Valid() && model.Inv() && model.Live(p, TABLE) && model.proc[p].frame == f
      modifies this`model, mainMemory, procTable, backingStore
      ensures Valid() && model == EvictPages(old(model), p, 0)
    {
      for i := 0 to pageSize
        invariant Valid() && model.Inv() && model.Live(p, TABLE) && model.proc[p].frame == f
        invariant EvictPages(model, p, i) == EvictPages(old(model), p, 0)
      {
        ValidMeansLive(model, p, i);
        var page := Cell(f * pageSize + i);
        var e := Get(page, p, i);
        if e.valid {
          EvictLive(model, p, i); EvictInv(model, p, i);
          FreeSpecificFrame(page, p, i);
        }
      }
    }

    /** Free the frame of key k, to whose entry page points; a table goes with all that it maps. */
    method EvictOwner(page: Ptr, ghost k: (int, int))
      requires Valid() && model.Inv() && model.Live(k.0, k.1) && page == PtrTo(model, k.0, k.1)
      modifies this`model, mainMemory, procTable, backingStore
      ensures Valid() && model == EvictWhole(old(model), k.0, k.1)
    {
      if page.ProcEntry? {
        EvictPagesSpec(model, k.0, 0);
        UnloadTable(procTable[page.pid].frame, k.0);
      }
      FreeSpecificFrame(page, k.0, k.1);
    }

    method FreeFrame(pid: int) returns (r: int)
      requires Valid() && model.Inv() && Full(model) && 0 <= pid < procTable.Length
      modifies this, mainMemory, procTable, backingStore
      ensures Valid() && (model, r) == PagingFrames.FreeFrame(old(model), pid)
      decreases if Owner(model, robin) == (pid, TABLE) then 1 else 0
    {
      var page := FrameAllocated(robin);
      ghost var k := Owner(model, robin);
      if page == ProcEntry(pid) {
        NextOwner(model, pid);
        Advance();
        r := FreeFrame(pid);
        return;
      }
      KeepsRobin(model, k.0, k.1);
      EvictOwner(page, k);
      r := robin;
      Advance();
    }

    method FindFreeFrame(pid: int) returns (r: int)
      requires Valid() && model.Inv() && 0 <= pid < procTable.Length
      modifies this, mainMemory, procTable, backingStore
      ensures Valid() && (model, r) == PagingFrames.FindFreeFrame(old(model), pid)
    {
      for i := 0 to frames
        invariant Valid() && model == old(model)
        invariant FirstFree(model, 0) == FirstFree(model, i)
      {
        var page := FrameAllocated(i);
        if page == Null { return i; }
      }
      r := FreeFrame(pid);
    }

    // ---------------------------------------------------------------- bringing things in

    /** Copy the data of slot i into frame f of main memory. */
    method CopyIn(i: int, f: int)
      requires Valid() && 0 <= f < frames && 0 <= i < backingStore.Length
      modifies mainMemory, this`model
      ensures Valid() && model == old(model).(mem := old(model.mem)[f := old(model.store)[i].data])
    {
      for j := 0 to pageSize
        invariant Valid() && |model.mem[f]| == pageSize
        invariant model == old(model).(mem := old(model.mem)[f := model.mem[f]])
        invariant model.mem[f][..j] == old(model.store)[i].data[..j]
      {
        SetCell(f, j, backingStore[i].data[j]);
      }
      assert model.mem[f] == old(model.store)[i].data;
    }

    /** Move slot i, which holds (pid, n), to a free frame. */
    method LoadSlot(i: int, frame: int, pid: int, n: int)
      requires Valid() && model.Inv() && 0 <= pid < procTable.Length
      requires n == TABLE || (0 <= n < virtPages && model.Live(pid, TABLE))
      requires 0 <= i < backingStore.Length && model.store[i].Holds(pid, n)
      requires 0 <= frame < frames && !model.Allocated(frame)
      modifies this, mainMemory, procTable, backingStore
      ensures Valid() && old(model).Named(pid, n) && model == Restore(old(model), i, frame)
      decreases if n == TABLE then 0 else 3, 0
    {
      ghost var u := model;
      assert u.Named(pid, n);
      CopyIn(i, frame);
      ghost var v := model;
      if n == TABLE {
        SetProc(pid, Page(true, backingStore[i].write, frame, pid));
      } else {
        FillInv(u, frame, u.store[i].data);
        var tmp := FindPage(pid, n);
        Set(tmp, Page(true, backingStore[i].write, frame, pid), pid, n);
      }
      assert model == v.SetEntry(pid, n, Page(true, v.store[i].write, frame, pid));
      SetSlot(i, backingStore[i].(pid := -1));
    }

    method CheckBackingStore(pid: int, n: int) returns (r: bool)
      requires Valid() && model.Inv() && 0 <= pid < procTable.Length
      requires n == TABLE || (0 <= n < virtPages && model.Live(pid, TABLE))
      modifies this, mainMemory, procTable, backingStore
      ensures Valid() && (model, r) == CheckStore(old(model), pid, n)
      decreases if n == TABLE then 0 else 3, 1
    {
      for i := 0 to backingStore.Length
        invariant Valid() && model == old(model)
        invariant forall k | 0 <= k < i :: !model.store[k].Holds(pid, n)
      {
        if backingStore[i].pid == pid && backingStore[i].page == n {
          ghost var s := model;
          assert s.Stored(pid, n) == i && s.SlotOk(s.store[i]);
          var frame := FindFreeFrame(pid);
          assert model.store[i] == s.store[i];
          LoadSlot(i, frame, pid, n);
          return true;
        }
      }
      assert model.Stored(pid, n) == |model.store|;
      return false;
    }

    /** Make frame f an empty table for pid. */
    method ClearTable(f: int, pid: int)
      requires Valid() && 0 <= f < frames && 0 <= pid < 4
      modifies mainMemory, this`model
      ensures Valid() && model == old(model).(mem := old(model.mem)[f := Cleared(old(model.mem)[f], pid)])
    {
      ghost var data := model.mem[f];
      for j := 0 to pageSize
        invariant Valid() && |model.mem[f]| == pageSize
        invariant model == old(model).(mem := old(model.mem)[f := model.mem[f]])
        invariant model.mem[f][..j] == Cleared(data, pid)[..j]
        invariant model.mem[f][j..] == data[j..]
      {
        AtInRange(pageSize, frames, f, j);
        assert Contents(f, j) == model.mem[f][j] == data[j];
        var e := mainMemory[f * pageSize + j];
        SetCell(f, j, e.(valid := false, procc := pid));
      }
      assert model.mem[f] == Cleared(data, pid);
    }

    method InitTable(pid: int)
      requires Valid() && model.Inv() && 0 <= pid < procTable.Length && !model.Live(pid, TABLE)
      modifies this, mainMemory, procTable, backingStore
      ensures Valid() && model == PagingOps.InitTable(old(model), pid)
      decreases 1
    {
      var found := CheckBackingStore(pid, TABLE);
      if found { return; }
      var frame := FindFreeFrame(pid);
      ghost var v := model;
      SetProc(pid, Page(true, true, frame, pid));
      ClearTable(frame, pid);
      assert model == Put(v, pid, TABLE, frame, true, Cleared(v.mem[frame], pid));
    }

    method FindPage(pid: int, n: int) returns (page: Ptr)
      requires Valid() && model.Inv() && 0 <= pid < procTable.Length && 0 <= n < virtPages
      modifies this, mainMemory, procTable, backingStore
      ensures Valid() && model == PagingOps.FindPage(old(model), pid)
      ensures page == PtrTo(model, pid, n)
      decreases 2
    {
      if !procTable[pid].valid {
        InitTable(pid);
      }
      page := Cell(procTable[pid].frame * pageSize + n);
    }

    // ---------------------------------------------------------------- commands

    /** Give page n of pid, which is nowhere, a frame. */
    method MapNew(page: Ptr, pid: int, n: int, write: bool)
      requires Valid() && model.Inv() && 0 <= pid < procTable.Length && 0 <= n < virtPages
      requires model.Live(pid, TABLE) && model.View(pid, n) == Absent && page == PtrTo(model, pid, n)
      modifies this, mainMemory, procTable, backingStore
      ensures Valid() && model == MapFresh(old(model), pid, n, write)
      ensures model.proc[pid] == old(model).proc[pid]
    {
      var frame := FindFreeFrame(pid);
      ghost var u := model;
      assert u.Live(pid, TABLE) && u.Entry(pid, TABLE) == old(model).Entry(pid, TABLE);
      assert u.TableOk(pid) && u.EntryOk(u.mem[u.proc[pid].frame][n], pid, n);
      var e := Get(page, pid, n);
      Set(page, e.(frame := frame, valid := true, write := write), pid, n);
      assert u.mem[frame := u.mem[frame]] == u.mem;
      assert model == Put(u, pid, n, frame, write, u.mem[frame]);
    }

    method MapPage(pid: int, address: int, write: bool) returns (ok: bool)
      requires Valid() && model.Inv() && 0 <= pid < procTable.Length && 0 <= address && address / pageSize < virtPages
      modifies this, mainMemory, procTable, backingStore
      ensures Valid() && (model, ok) == PagingCommands.MapPage(old(model), pid, address / pageSize, write)
    {
      var n := address / pageSize;
      var page := FindPage(pid, n);
      ghost var u := model;
      ValidMeansLive(u, pid, n);
      var e := Get(page, pid, n);
      if e.valid {
        Set(page, e.(write := write), pid, n);
        return false;
      }
      var found := CheckBackingStore(pid, n);
      if !found { MapNew(page, pid, n, write); }
      ghost var v := model;
      e := Get(page, pid, n);
      if e.write != write { Set(page, e.(write := write), pid, n); }
      SetSame(v, pid, n);
      return true;
    }

    /** The part that store and load begin with: find the table, then the page. */
    method FetchPage(pid: int, n: int) returns (page: Ptr, ok: bool)
      requires Valid() && model.Inv() && 0 <= pid < procTable.Length && 0 <= n < virtPages
      modifies this, mainMemory, procTable, backingStore
      ensures Valid() && (model, ok) == Fetch(old(model), pid, n)
      ensures ok ==> page == PtrTo(model, pid, n)
    {
      if !procTable[pid].valid {
        var table := CheckBackingStore(pid, TABLE);
        if !table { return Null, false; }
      }
      ghost var u := model;
      page := FindPage(pid, n);
      ValidMeansLive(u, pid, n);
      var e := Get(page, pid, n);
      if !e.valid {
        var found := CheckBackingStore(pid, n);
        if !found { return page, false; }
      }
      return page, true;
    }

    method Store(pid: int, address: int, value: Byte) returns (ok: bool)
      requires Valid() && model.Inv() && 0 <= pid < procTable.Length && 0 <= address && address / pageSize < virtPages
      modifies this, mainMemory, procTable, backingStore
      ensures Valid()
      ensures (model, ok) == PagingCommands.Store(old(model), pid, address / pageSize, address % pageSize, value)
    {
      var n, offset := address / pageSize, address % pageSize;
      var page, found := FetchPage(pid, n);
      if !found { return false; }
      var e := Get(page, pid, n);
      if !e.write { return false; }
      SetCell(e.frame, offset, Overlay(value));
      return true;
    }

    method Load(pid: int, address: int) returns (out: Loaded)
      requires Valid() && model.Inv() && 0 <= pid < procTable.Length && 0 <= address && address / pageSize < virtPages
      modifies this, mainMemory, procTable, backingStore
      ensures Valid()
      ensures (model, out) == PagingCommands.Load(old(model), pid, address / pageSize, address % pageSize)
    {
      var n, offset := address / pageSize, address % pageSize;
      var page, found := FetchPage(pid, n);
      if !found { return Fault; }
      var e := Get(page, pid, n);
      var b := ReadCell(e.frame, offset);
      return Value(Raw(b));
    }

    /** One turn of the input loop, on a command that is in range. */
    method Execute(c: PagingRuns.Command) returns (answer: PagingRuns.Answer)
      requires Valid() && model.Inv() && PagingRuns.InRange(model, c)
      modifies this, mainMemory, procTable, backingStore
      ensures Valid() && model.Inv() && (model, answer) == PagingRuns.Step(old(model), c)
    {
      Divides(c.address, pageSize);
      match c {
        case Map(pid, address, write) =>
          var ok := MapPage(pid, address, write);
          answer := PagingRuns.Done(ok);
        case Store(pid, address, value) =>
          var ok := Store(pid, address, value);
          answer := PagingRuns.Done(ok);
        case Load(pid, address) =>
          var out := Load(pid, address);
          answer := PagingRuns.Got(out);
      }
    }
  }
}

/** The first paging simulator as the program runs it, on a flat byte array. */
module SimplePagingMachine {
  import opened Grid
  import opened SimplePaging
  import Runs = SimplePagingRuns

  class Machine {
    const pageSize: nat
    const virtPages: nat
    const frames: nat
    const mainMemory: array<Page>
    const procTable: array<Page>
    /** The state that the fields represent. */
    ghost var model: State

    ghost predicate Valid()
      reads this, mainMemory, procTable
    {
      && mainMemory != procTable
      && model.Shape()
      && model.pageSize == pageSize && model.virtPages == virtPages && |model.mem| == frames
      && mainMemory.Length == frames * pageSize
      && procTable[..] == model.proc
      && (forall f, j | 0 <= f < frames && 0 <= j < pageSize :: Contents(f, j) == model.mem[f][j])
    }

    function Contents(f: int, j: int): Page
      reads mainMemory
      requires 0 <= f < frames && 0 <= j < pageSize && mainMemory.Length == frames * pageSize
    {
      AtInRange(pageSize, frames, f, j);
      mainMemory[At(pageSize, f, j)]
    }

    constructor (pageSize: nat, virtPages: nat, frames: nat, processes: nat)
      requires 1 <= virtPages <= pageSize && frames <= 64
      ensures Valid() && Runs.Initial(model) && model.Inv()
      ensures this.pageSize == pageSize && this.virtPages == virtPages && this.frames == frames
      ensures procTable.Length == processes
    {
      this.pageSize, this.virtPages, this.frames := pageSize, virtPages, frames;
      mainMemory := new Page[frames * pageSize](_ => ZERO);
      procTable := new Page[processes](_ => ZERO);
      new;
      model := State(pageSize, virtPages, seq(frames, _ => seq(pageSize, _ => ZERO)), procTable[..]);
      forall f, j | 0 <= f < frames && 0 <= j < pageSize ensures Contents(f, j) == ZERO {
        AtInRange(pageSize, frames, f, j);
      }
      Runs.InitialInv(model);
    }

    method SetCell(f: int, j: int, e: Page)
      requires Valid() && 0 <= f < frames && 0 <= j < pageSize
      modifies mainMemory, this`model
      ensures Valid() && model == old(model).(mem := old(model.mem)[f := old(model.mem)[f][j := e]])
    {
      AtInRange(pageSize, frames, f, j);
      mainMemory[At(pageSize, f, j)] := e;
      model := model.(mem := model.mem[f := model.mem[f][j := e]]);
      forall g, k | 0 <= g < frames && 0 <= k < pageSize
        ensures Contents(g, k) == model.mem[g][k]
      {
        AtInRange(pageSize, frames, g, k);
        if At(pageSize, g, k) == At(pageSize, f, j) { AtInjective(pageSize, g, k, f, j); }
      }
    }

    method SetProc(p: int, e: Page)
      requires Valid() && 0 <= p < procTable.Length
      modifies procTable, this`model
      ensures Valid() && model == old(model).(proc := old(model.proc)[p := e])
    {
      procTable[p] := e;
      model := model.(proc := procTable[..]);
      assert forall f, j | 0 <= f < frames && 0 <= j < pageSize :: Contents(f, j) == old(Contents(f, j));
    }

    method InTable(f: int, frame: int) returns (r: bool)
      requires Valid() && 0 <= f < frames
      ensures r <==> exists n :: 0 <= n < pageSize && model.mem[f][n].valid && model.mem[f][n].frame == frame
    {
      var j := f * pageSize;
      while j < f * pageSize + pageSize
        invariant f * pageSize <= j <= f * pageSize + pageSize
        invariant forall n | 0 <= n < j - f * pageSize :: !(model.mem[f][n].valid && model.mem[f][n].frame == frame)
      {
        AtInRange(pageSize, frames, f, j - f * pageSize);
        assert Contents(f, j - f * pageSize) == model.mem[f][j - f * pageSize];
        if mainMemory[j].valid && mainMemory[j].frame == frame { return true; }
        j := j + 1;
      }
      return false;
    }

    method FrameAllocated(frame: int) returns (r: bool)
      requires Valid() && model.Inv() && 0 <= frame < frames
      ensures r <==> model.Allocated(frame)
    {
      for i := 0 to procTable.Length
        invariant forall p, n | model.Live(p, n) && p < i :: model.Entry(p, n).frame != frame
      {
        if procTable[i].valid {
          assert model.TableOk(i) && model.Live(i, TABLE);
          if procTable[i].frame == frame {
            return true;
          } else {
            var found := InTable(procTable[i].frame, frame);
            if found {
              ghost var n :| 0 <= n < pageSize && model.mem[procTable[i].frame][n].valid &&
                             model.mem[procTable[i].frame][n].frame == frame;
              assert model.Live(i, n) && model.Entry(i, n).frame == frame;
              return true;
            }
          }
        }
      }
      return false;
    }

    method FindFreeFrame() returns (r: int)
      requires Valid() && model.Inv()
      ensures r == if FirstFree(model, 0) < frames then FirstFree(model, 0) else -1
    {
      for i := 0 to frames
        invariant FirstFree(model, 0) == FirstFree(model, i)
      {
        var used := FrameAllocated(i);
        if !used { return i; }
      }
      return -1;
    }

    method InitTable(pid: int)
      requires Valid() && model.Inv() && 0 <= pid < procTable.Length && !model.Live(pid, TABLE)
      modifies mainMemory, procTable, this`model
      ensures Valid() && model == SimplePaging.InitTable(old(model), pid)
    {
      ghost var s := model;
      var frame := FindFreeFrame();
      if frame >= 0 {
        SetProc(pid, Page(true, true, frame));
        ghost var t := model;
        for j := 0 to pageSize
          invariant Valid() && model == t
        {
          AtInRange(pageSize, frames, frame, j);
          assert Contents(frame, j) == model.mem[frame][j] == s.mem[frame][j] == ZERO;
          var e := mainMemory[frame * pageSize + j];
          SetCell(frame, j, e.(valid := false));
          assert t.mem[frame][j := ZERO] == t.mem[frame] && t.mem[frame := t.mem[frame]] == t.mem;
        }
      }
    }

    /** Read entry n of the table in frame f. */
    method Get(f: int, n: int) returns (e: Page)
      requires Valid() && 0 <= f < frames && 0 <= n < pageSize
      ensures e == model.mem[f][n]
    {
      AtInRange(pageSize, frames, f, n);
      assert Contents(f, n) == model.mem[f][n];
      e := mainMemory[f * pageSize + n];
    }

    method MapPage(pid: int, address: int, write: bool) returns (ok: bool)
      requires Valid() && model.Inv() && 0 <= pid < procTable.Length && 0 <= address && address / pageSize < virtPages
      modifies mainMemory, procTable, this`model
      ensures Valid() && (model, ok) == SimplePaging.MapPage(old(model), pid, address / pageSize, write)
    {
      ghost var s := model;
      if procTable[pid].valid { assert s.TableOk(pid); }
      if !procTable[pid].valid {
        InitTable(pid);
        if !procTable[pid].valid { return false; }
      }
      ghost var u := model;
      assert u.TableOk(pid) && u.Live(pid, TABLE);
      var n, table := address / pageSize, procTable[pid].frame;
      var page := Get(table, n);
      if page.valid {
        SetCell(table, n, page.(write := write));
        return false;
      }
      var frame := FindFreeFrame();
      if frame < 0 { return false; }
      SetCell(table, n, page.(frame := frame, valid := true, write := write));
      return true;
    }

    method Store(pid: int, address: int, value: Byte) returns (ok: bool)
      requires Valid() && model.Inv() && 0 <= pid < procTable.Length && 0 <= address && address / pageSize < virtPages
      modifies mainMemory, this`model
      ensures Valid()
      ensures (model, ok) == SimplePaging.Store(old(model), pid, address / pageSize, address % pageSize, value)
    {
      if !procTable[pid].valid { return false; }
      assert model.TableOk(pid) && model.Live(pid, TABLE);
      var page := Get(procTable[pid].frame, address / pageSize);
      if !page.valid { return false; }
      if !page.write { return false; }
      SetCell(page.frame, address % pageSize, Overlay(value));
      return true;
    }

    method Load(pid: int, address: int) returns (out: Loaded)
      requires Valid() && model.Inv() && 0 <= pid < procTable.Length && 0 <= address && address / pageSize < virtPages
      ensures out == SimplePaging.Load(model, pid, address / pageSize, address % pageSize)
    {
      if !procTable[pid].valid { return Fault; }
      assert model.TableOk(pid) && model.Live(pid, TABLE);
      var page := Get(procTable[pid].frame, address / pageSize);
      if !page.valid { return Fault; }
      var e := Get(page.frame, address % pageSize);
      return Value(Raw(e));
    }

    /** One turn of the input loop, on a command that is in range. */
    method Execute(c: Runs.Command) returns (answer: Runs.Answer)
      requires Valid() && model.Inv() && Runs.InRange(model, c)
      modifies mainMemory, procTable, this`model
      ensures Valid() && model.Inv() && (model, answer) == Runs.Step(old(model), c)
    {
      match c {
        case Map(pid, address, write) =>
          var ok := MapPage(pid, address, write);
          answer := Runs.Done(ok);
        case Store(pid, address, value) =>
          var ok := Store(pid, address, value);
          answer := Runs.Done(ok);
        case Load(pid, address) =>
          var out := Load(pid, address);
          answer := Runs.Got(out);
      }
    }
  }
}

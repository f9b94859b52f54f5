/** Bringing pages and tables into memory, and the three operations of the simulator. */
module PagingOps {
  import opened PageBits
  import opened PagingState
  import opened PagingEvict
  import opened PagingFrames

  /** What a process can observe of its own and every other process's pages is kept, up to the
      losses that eviction allows; at most process g gains a page table. */
  ghost predicate Keeps(s: State, t: State, g: int) {
    && t.pageSize == s.pageSize && t.virtPages == s.virtPages
    && |t.mem| == |s.mem| && |t.proc| == |s.proc| && |t.store| == |s.store|
    && s.dropped <= t.dropped && Excused(s, t) && t.Doomed() <= s.Doomed()
    && (forall p, n | 0 <= p < |s.proc| && 0 <= n :: Kept(s, t, p, n))
    && (forall p | 0 <= p < |s.proc| :: Around(s, t, p, g))
  }

  ghost predicate Around(s: State, t: State, p: int, g: int) {
    && (s.HasDead(p) ==> t.HasDead(p))
    && (t.HasTable(p) ==> s.HasTable(p) || p == g)
    && (s.HasTable(p) ==> t.HasTable(p) || s.dropped < t.dropped)
  }

  lemma MovesKeeps(s: State, t: State)
    requires Moves(s, t)
    ensures Keeps(s, t, -1)
  {
    forall p | 0 <= p < |s.proc|
      ensures Around(s, t, p, -1)
    {
      assert TableKept(s, t, p);
      if s.HasDead(p) { HasDeadStays(s, t, p); }
    }
  }

  lemma KeepsTransitive(s: State, t: State, u: State, g: int)
    requires Keeps(s, t, g) && Keeps(t, u, g)
    ensures Keeps(s, u, g)
  {
    forall p, n | 0 <= p < |s.proc| && 0 <= n
      ensures Kept(s, u, p, n)
    {
      assert Kept(s, t, p, n) && Kept(t, u, p, n) && Around(t, u, p, g);
    }
    forall p | 0 <= p < |s.proc|
      ensures Around(s, u, p, g)
    {
      assert Around(s, t, p, g) && Around(t, u, p, g);
    }
  }

  lemma KeepsWider(s: State, t: State, g: int)
    requires Keeps(s, t, -1)
    ensures Keeps(s, t, g)
  {
    forall p | 0 <= p < |s.proc|
      ensures Around(s, t, p, g)
    {
      assert Around(s, t, p, -1);
    }
  }

  // ------------------------------------------------------------------ placing a key

  /** Fill frame f with data and make it key (p, n)'s. */
  function Put(s: State, p: int, n: int, f: int, w: bool, data: seq<Page>): State
    requires 0 <= f < |s.mem| && f < 16 && 0 <= p < 4 && |data| == s.pageSize
    requires s.Shape() && s.Named(p, n)
  {
    var u := s.(mem := s.mem[f := data]);
    u.SetEntry(p, n, Page(true, w, f, p))
  }

  ghost predicate CanPut(s: State, p: int, n: int, f: int, data: seq<Page>) {
    && s.Inv()
    && 0 <= f < |s.mem| && !s.Allocated(f)
    && 0 <= p < |s.proc|
    && !s.Live(p, n) && s.Stored(p, n) == |s.store|
    && |data| == s.pageSize
    && (n == TABLE || (0 <= n < s.virtPages && s.Live(p, TABLE)))
    && (n == TABLE ==> s.Blank(data, p))
  }

  lemma PutLive(s: State, p: int, n: int, f: int, w: bool, data: seq<Page>)
    requires CanPut(s, p, n, f, data)
    ensures s.Named(p, n)
    ensures var t := Put(s, p, n, f, w, data);
      forall q, m :: t.Live(q, m) <==> s.Live(q, m) || (q, m) == (p, n)
    ensures var t := Put(s, p, n, f, w, data);
      && t.Entry(p, n) == Page(true, w, f, p)
      && (forall q, m | s.Live(q, m) :: t.Live(q, m) && t.Entry(q, m) == s.Entry(q, m))
    ensures var t := Put(s, p, n, f, w, data);
      && t.mem[f] == data
      && (forall q, m | s.Live(q, m) && 0 <= m ::
            t.Live(q, m) && t.mem[s.Entry(q, m).frame] == s.mem[s.Entry(q, m).frame])
  {
    var t := Put(s, p, n, f, w, data);
    assert n != TABLE ==> s.Entry(p, TABLE).frame != f;
    forall q, m
      ensures t.Live(q, m) <==> s.Live(q, m) || (q, m) == (p, n)
      ensures s.Live(q, m) ==> t.Live(q, m) && t.Entry(q, m) == s.Entry(q, m)
      ensures s.Live(q, m) && 0 <= m ==> t.mem[s.Entry(q, m).frame] == s.mem[s.Entry(q, m).frame]
    {
      if 0 <= q < |s.proc| && s.proc[q].valid {
        assert s.TableOk(q);
        assert s.Live(q, TABLE) && s.Entry(q, TABLE).frame != f;
      }
    }
  }

  lemma PutTables(s: State, p: int, n: int, f: int, w: bool, data: seq<Page>)
    requires CanPut(s, p, n, f, data)
    ensures s.Named(p, n)
    ensures var t := Put(s, p, n, f, w, data); t.Shape() && t.TablesOk()
  {
    PutLive(s, p, n, f, w, data);
    var t := Put(s, p, n, f, w, data);
    forall q | 0 <= q < |t.proc| && t.proc[q].valid
      ensures t.TableOk(q)
    {
      if s.proc[q].valid {
        assert s.TableOk(q) && s.Live(q, TABLE) && s.Entry(q, TABLE).frame != f;
      }
    }
  }

  lemma PutInv(s: State, p: int, n: int, f: int, w: bool, data: seq<Page>)
    requires CanPut(s, p, n, f, data)
    ensures s.Named(p, n) && Put(s, p, n, f, w, data).Inv()
  {
    PutLive(s, p, n, f, w, data);
    PutTables(s, p, n, f, w, data);
  }

  /** The new key shows exactly what was put, and every other page looks as it did. */
  lemma PutViews(s: State, p: int, n: int, f: int, w: bool, data: seq<Page>)
    requires CanPut(s, p, n, f, data)
    ensures s.Named(p, n)
    ensures var t := Put(s, p, n, f, w, data);
      && t.View(p, n) == Visible(w, data)
      && (forall q, m | 0 <= m && (q, m) != (p, n) :: t.View(q, m) == s.View(q, m))
      && (forall q :: t.HasTable(q) <==> s.HasTable(q) || (q, TABLE) == (p, n))
  {
    PutLive(s, p, n, f, w, data);
    var t := Put(s, p, n, f, w, data);
    assert t.store == s.store;
    assert forall q, m :: t.Stored(q, m) == s.Stored(q, m);
  }

  // ------------------------------------------------------------------ unfiling a slot

  function Unfile(s: State, i: nat): State
    requires i < |s.store|
  {
    s.(store := s.store[i := s.store[i].(pid := -1)])
  }

  lemma UnfileInv(s: State, i: nat)
    requires s.Inv() && i < |s.store| && s.store[i].Used() && s.store[i].page != DEAD
    ensures var u := Unfile(s, i);
      && u.Inv()
      && (forall p, n :: u.Live(p, n) == s.Live(p, n))
      && (forall f :: u.Allocated(f) == s.Allocated(f))
      && u.Stored(s.store[i].pid, s.store[i].page) == |u.store|
      && DeadSlots(u.store) == DeadSlots(s.store)
  {
    var u := Unfile(s, i);
    assert forall p, n :: u.Live(p, n) == s.Live(p, n);
    assert forall p, n | s.Live(p, n) :: u.Entry(p, n) == s.Entry(p, n);
    assert forall f :: u.Allocated(f) == s.Allocated(f);
  }

  lemma UnfileViews(s: State, i: nat, q: int, m: int)
    requires s.Inv() && i < |s.store| && s.store[i].Used()
    requires 0 <= q && !s.store[i].Holds(q, m)
    ensures Unfile(s, i).Stored(q, m) < |s.store| <==> s.Stored(q, m) < |s.store|
    ensures Unfile(s, i).View(q, m) == s.View(q, m)
    ensures Unfile(s, i).HasDead(q) == s.HasDead(q) || m != DEAD
  {
    var u := Unfile(s, i);
    assert u.Live(q, m) == s.Live(q, m);
    assert u.Stored(q, m) == s.Stored(q, m) by {
      var a, b := s.Stored(q, m), u.Stored(q, m);
      if a < |s.store| { assert u.store[a] == s.store[a]; }
      if b < |u.store| { assert u.store[b] == s.store[b]; }
    }
    if m == DEAD {
      assert forall k | 0 <= k < |s.store| :: u.store[k].Holds(q, DEAD) == s.store[k].Holds(q, DEAD);
    }
  }

  /** Move the contents of slot i, which holds (p, n), into free frame f. */
  function Restore(s: State, i: nat, f: int): State
    requires s.Inv() && i < |s.store| && s.store[i].Used() && 0 <= f < |s.mem|
    requires s.Named(s.store[i].pid, s.store[i].page)
  {
    var slot := s.store[i];
    Put(Unfile(s, i), slot.pid, slot.page, f, slot.write, slot.data)
  }

  lemma RestoreKeeps(s: State, p: int, n: int, f: int)
    requires s.Inv() && 0 <= f < |s.mem| && !s.Allocated(f)
    requires 0 <= p < |s.proc| && n != DEAD && s.Stored(p, n) < |s.store|
    requires n != TABLE ==> s.Live(p, TABLE)
    ensures s.Named(p, n)
    ensures var t := Restore(s, s.Stored(p, n), f);
      && t.Inv() && Keeps(s, t, -1) && t.Live(p, n)
      && (forall q, m :: t.Live(q, m) <==> s.Live(q, m) || (q, m) == (p, n))
      && (s.Live(p, TABLE) ==> t.proc[p] == s.proc[p])
      && (forall q, m | 0 <= q < |s.proc| && 0 <= m :: t.View(q, m) == s.View(q, m))
  {
    var i := s.Stored(p, n);
    var slot := s.store[i];
    assert slot.Used() && s.SlotOk(slot);
    UnfileInv(s, i);
    var u := Unfile(s, i);
    PutLive(u, p, n, f, slot.write, slot.data);
    PutInv(u, p, n, f, slot.write, slot.data);
    PutViews(u, p, n, f, slot.write, slot.data);
    var t := Restore(s, i, f);
    assert t.PageZeros() == s.PageZeros();
    forall q, m | 0 <= q < |s.proc| && 0 <= m
      ensures t.View(q, m) == s.View(q, m)
    {
      if (q, m) != (p, n) { UnfileViews(s, i, q, m); }
    }
    forall q | 0 <= q < |s.proc|
      ensures Around(s, t, q, -1)
    {
      UnfileViews(s, i, q, DEAD);
      assert t.HasDead(q) == u.HasDead(q);
      if (q, TABLE) != (p, n) { UnfileViews(s, i, q, TABLE); }
    }
  }

  // ------------------------------------------------------------------ operations

  /** check_backing_store: bring (pid, n) in from the backing store if it is there. */
  ghost function CheckStore(s: State, pid: int, n: int): (r: (State, bool))
    requires s.Inv() && 0 <= pid < |s.proc|
    requires n == TABLE || (0 <= n < s.virtPages && s.Live(pid, TABLE))
    ensures r.0.Inv() && Keeps(s, r.0, -1)
    ensures r.1 == (s.Stored(pid, n) < |s.store|)
    ensures if r.1 then r.0.Live(pid, n) else r.0 == s
    ensures forall m | 0 <= m && !s.Live(pid, m) :: r.0.View(pid, m) == s.View(pid, m)
    ensures forall m | r.0.Live(pid, m) :: s.Live(pid, m) || m == n
    ensures s.Live(pid, TABLE) ==> r.0.Live(pid, TABLE) && r.0.proc[pid] == s.proc[pid]
  {
    var i := s.Stored(pid, n);
    if i == |s.store| then (s, false)
    else
      var (u, f) := FindFreeFrame(s, pid);
      assert s.store[i].Used() && s.SlotOk(s.store[i]) && u.store[i] == s.store[i];
      assert u.Stored(pid, n) == i;
      assert !u.Live(pid, n);
      MovesKeeps(s, u);
      RestoreKeeps(u, pid, n, f);
      assert forall m | 0 <= m && !s.Live(pid, m) :: u.View(pid, m) == s.View(pid, m) by {
        forall m | 0 <= m && !s.Live(pid, m) ensures u.View(pid, m) == s.View(pid, m) {
          MovesSparesStored(s, u, pid, m);
        }
      }
      KeepsTransitive(s, u, Restore(u, i, f), -1);
      (Restore(u, i, f), true)
  }

  /** A frame's cells as a fresh table for process p: nothing mapped, all cells p's. */
  function Cleared(data: seq<Page>, p: ProcId): (r: seq<Page>)
    ensures |r| == |data|
    ensures forall n | 0 <= n < |data| :: r[n] == data[n].(valid := false, procc := p)
  {
    seq(|data|, n requires 0 <= n < |data| => data[n].(valid := false, procc := p))
  }

  lemma NewTable(s: State, pid: int, f: int)
    requires s.Inv() && 0 <= pid < |s.proc| && !s.HasTable(pid)
    requires 0 <= f < |s.mem| && !s.Allocated(f)
    ensures var t := Put(s, pid, TABLE, f, true, Cleared(s.mem[f], pid));
      && t.Inv() && Keeps(s, t, pid) && t.Live(pid, TABLE)
      && (forall m | 0 <= m :: !t.Live(pid, m) && t.View(pid, m) == s.View(pid, m))
  {
    var data := Cleared(s.mem[f], pid);
    PutLive(s, pid, TABLE, f, true, data);
    PutInv(s, pid, TABLE, f, true, data);
    PutViews(s, pid, TABLE, f, true, data);
    var t := Put(s, pid, TABLE, f, true, data);
    assert forall p :: t.HasDead(p) == s.HasDead(p);
    assert t.PageZeros() == s.PageZeros();
  }

  /** init_table: load pid's table from the backing store, or start an empty one. */
  ghost function InitTable(s: State, pid: int): (t: State)
    requires s.Inv() && 0 <= pid < |s.proc| && !s.Live(pid, TABLE)
    ensures t.Inv() && Keeps(s, t, pid) && t.Live(pid, TABLE)
    ensures forall m | 0 <= m :: !t.Live(pid, m) && t.View(pid, m) == s.View(pid, m)
  {
    var (u, found) := CheckStore(s, pid, TABLE);
    KeepsWider(s, u, pid);
    if found then u
    else
      var (v, f) := FindFreeFrame(u, pid);
      MovesKeeps(u, v); KeepsWider(u, v, pid);
      assert TableKept(u, v, pid);
      NewTable(v, pid, f);
      assert forall m | 0 <= m :: v.View(pid, m) == u.View(pid, m) by {
        forall m | 0 <= m ensures v.View(pid, m) == u.View(pid, m) { MovesSparesStored(u, v, pid, m); }
      }
      var t := Put(v, pid, TABLE, f, true, Cleared(v.mem[f], pid));
      KeepsTransitive(u, v, t, pid);
      t
  }

  /** find_page makes sure that pid's table is in memory. */
  ghost function FindPage(s: State, pid: int): (t: State)
    requires s.Inv() && 0 <= pid < |s.proc|
    ensures t.Inv() && Keeps(s, t, pid) && t.Live(pid, TABLE)
    ensures forall m | 0 <= m :: t.Live(pid, m) == s.Live(pid, m) && t.View(pid, m) == s.View(pid, m)
  {
    if s.proc[pid].valid then s else InitTable(s, pid)
  }
}

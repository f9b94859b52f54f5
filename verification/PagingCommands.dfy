/** The commands map, store and load, each with what it does to every process's pages. */
module PagingCommands {
  import opened PageBits
  import opened PagingState
  import opened PagingEvict
  import opened PagingFrames
  import opened PagingOps

  // ------------------------------------------------------------------ changing a resident page

  function SetWrite(s: State, p: int, n: int, w: bool): State
    requires s.Live(p, n)
  {
    s.SetEntry(p, n, s.Entry(p, n).(write := w))
  }

  lemma SetWriteLive(s: State, p: int, n: int, w: bool)
    requires s.Inv() && s.Live(p, n) && 0 <= n
    ensures var t := SetWrite(s, p, n, w);
      && (forall q, m :: t.Live(q, m) == s.Live(q, m))
      && (forall q, m | s.Live(q, m) && (q, m) != (p, n) :: t.Entry(q, m) == s.Entry(q, m))
      && t.Entry(p, n) == s.Entry(p, n).(write := w)
      && (forall q, m | s.Live(q, m) && 0 <= m :: t.mem[s.Entry(q, m).frame] == s.mem[s.Entry(q, m).frame])
  {
    var t := SetWrite(s, p, n, w);
    assert s.Live(p, TABLE);
    forall q, m
      ensures t.Live(q, m) == s.Live(q, m)
      ensures s.Live(q, m) && (q, m) != (p, n) ==> t.Entry(q, m) == s.Entry(q, m)
      ensures s.Live(q, m) && 0 <= m ==> t.mem[s.Entry(q, m).frame] == s.mem[s.Entry(q, m).frame]
    {
      if 0 <= q < |s.proc| && s.proc[q].valid { assert s.TableOk(q); assert s.Live(q, TABLE); }
    }
  }

  lemma SetWriteKeeps(s: State, p: int, n: int, w: bool)
    requires s.Inv() && s.Live(p, n) && 0 <= n
    ensures var t := SetWrite(s, p, n, w);
      && t.Inv() && t.Live(p, n) && Changes(s, t, p, n, -1)
      && t.View(p, n) == Visible(w, s.View(p, n).data)
  {
    SetWriteLive(s, p, n, w);
    var t := SetWrite(s, p, n, w);
    forall q | 0 <= q < |t.proc| && t.proc[q].valid
      ensures t.TableOk(q)
    {
      assert s.TableOk(q) && s.Live(q, TABLE) && s.Live(p, TABLE);
      assert s.EntryOk(s.Entry(p, n), p, n);
    }
    assert forall q, m :: t.Stored(q, m) == s.Stored(q, m);
    assert forall q :: t.HasDead(q) == s.HasDead(q);
    assert t.PageZeros() == s.PageZeros();
  }

  /** Write one byte of the resident page (p, n). */
  function Poke(s: State, p: int, n: int, off: int, b: Byte): State
    requires s.Shape() && s.Live(p, n) && 0 <= off < s.pageSize
  {
    var f := s.Entry(p, n).frame;
    s.(mem := s.mem[f := s.mem[f][off := Overlay(b)]])
  }

  /** Writing data never touches a page table: the frame written is no table's. */
  lemma PokeSparesTables(s: State, p: int, n: int, off: int, b: Byte)
    requires s.Inv() && s.Live(p, n) && 0 <= n && 0 <= off < s.pageSize
    ensures forall q | s.Live(q, TABLE) :: Poke(s, p, n, off, b).mem[s.proc[q].frame] == s.mem[s.proc[q].frame]
  {
    forall q | s.Live(q, TABLE)
      ensures s.Entry(q, TABLE).frame != s.Entry(p, n).frame
    {
    }
  }

  lemma PokeLive(s: State, p: int, n: int, off: int, b: Byte)
    requires s.Inv() && s.Live(p, n) && 0 <= n && 0 <= off < s.pageSize
    ensures var t := Poke(s, p, n, off, b);
      && t.Inv()
      && (forall q, m :: t.Live(q, m) == s.Live(q, m))
      && (forall q, m | s.Live(q, m) :: t.Entry(q, m) == s.Entry(q, m))
  {
    PokeSparesTables(s, p, n, off, b);
    var t := Poke(s, p, n, off, b);
    assert forall q | 0 <= q < |s.proc| && s.proc[q].valid :: s.TableOk(q) && s.Live(q, TABLE);
    assert forall q, m :: t.Live(q, m) == s.Live(q, m);
    assert forall q, m | s.Live(q, m) :: t.Entry(q, m) == s.Entry(q, m);
    forall q | 0 <= q < |t.proc| && t.proc[q].valid
      ensures t.TableOk(q)
    {
      assert s.TableOk(q);
    }
  }

  lemma PokeKeeps(s: State, p: int, n: int, off: int, b: Byte)
    requires s.Inv() && s.Live(p, n) && 0 <= n && 0 <= off < s.pageSize
    ensures var t := Poke(s, p, n, off, b);
      && t.Inv() && Changes(s, t, p, n, -1) && t.Doomed() == s.Doomed()
      && t.View(p, n) == s.View(p, n).(data := s.View(p, n).data[off := Overlay(b)])
  {
    PokeLive(s, p, n, off, b);
    var t := Poke(s, p, n, off, b);
    assert forall q, m :: t.Stored(q, m) == s.Stored(q, m);
    assert forall q :: t.HasDead(q) == s.HasDead(q);
    assert t.PageZeros() == s.PageZeros();
  }

  /** As Keeps, for all pages but (p, n), which may be new. */
  ghost predicate Changes(s: State, t: State, p: int, n: int, g: int) {
    && t.pageSize == s.pageSize && t.virtPages == s.virtPages
    && |t.mem| == |s.mem| && |t.proc| == |s.proc| && |t.store| == |s.store|
    && s.dropped <= t.dropped && Excused(s, t) && t.Doomed() <= s.Doomed() + (if n == 0 then 1 else 0)
    && (forall q, m | 0 <= q < |s.proc| && 0 <= m && (q, m) != (p, n) :: Kept(s, t, q, m))
    && (forall q | 0 <= q < |s.proc| :: Around(s, t, q, g))
  }

  lemma KeepsThenChanges(s: State, t: State, u: State, p: int, n: int, g: int)
    requires Keeps(s, t, g) && Changes(t, u, p, n, -1)
    ensures Changes(s, u, p, n, g)
  {
    forall q, m | 0 <= q < |s.proc| && 0 <= m && (q, m) != (p, n)
      ensures Kept(s, u, q, m)
    {
      assert Kept(s, t, q, m) && Kept(t, u, q, m) && Around(t, u, q, -1);
    }
    forall q | 0 <= q < |s.proc|
      ensures Around(s, u, q, g)
    {
      assert Around(s, t, q, g) && Around(t, u, q, -1);
    }
  }

  // ------------------------------------------------------------------ map

  lemma NewDooms(s: State, t: State, p: int, n: int)
    requires |t.proc| == |s.proc| && t.store == s.store && 0 <= p < |s.proc| && !s.Live(p, n)
    requires forall q | 0 <= q < |s.proc| :: t.Live(q, 0) <==> s.Live(q, 0) || (q, 0) == (p, n)
    ensures t.Doomed() == s.Doomed() + if n == 0 then 1 else 0
  {
    assert t.PageZeros() == s.PageZeros() + if n == 0 then {p} else {};
  }

  lemma PutDooms(s: State, p: int, n: int, f: int, w: bool, data: seq<Page>)
    requires CanPut(s, p, n, f, data) && 0 <= n
    ensures s.Named(p, n) && Put(s, p, n, f, w, data).Live(p, n)
    ensures Put(s, p, n, f, w, data).Doomed() == s.Doomed() + if n == 0 then 1 else 0
  {
    PutLive(s, p, n, f, w, data);
    NewDooms(s, Put(s, p, n, f, w, data), p, n);
  }

  lemma PutChanges(s: State, p: int, n: int, f: int, w: bool, data: seq<Page>)
    requires CanPut(s, p, n, f, data) && 0 <= n
    ensures s.Named(p, n)
    ensures var t := Put(s, p, n, f, w, data);
      t.Inv() && t.Live(p, n) && Changes(s, t, p, n, -1) && t.View(p, n) == Visible(w, data)
  {
    PutInv(s, p, n, f, w, data);
    PutViews(s, p, n, f, w, data);
    PutDooms(s, p, n, f, w, data);
    var t := Put(s, p, n, f, w, data);
    assert t.store == s.store;
    forall q | 0 <= q < |s.proc| ensures Around(s, t, q, -1) { assert t.HasDead(q) == s.HasDead(q); }
  }

  /** Give (pid, n), which is nowhere, a free frame with whatever that frame contains. */
  ghost function MapFresh(s: State, pid: int, n: int, w: bool): (t: State)
    requires s.Inv() && s.Live(pid, TABLE) && 0 <= n < s.virtPages && s.View(pid, n) == Absent
    ensures t.Inv() && t.Live(pid, n) && Changes(s, t, pid, n, -1)
    ensures var (u, f) := FindFreeFrame(s, pid); t.View(pid, n) == Visible(w, u.mem[f])
  {
    var (u, f) := FindFreeFrame(s, pid);
    assert Kept(s, u, pid, n);
    MovesKeeps(s, u);
    PutChanges(u, pid, n, f, w, u.mem[f]);
    var t := Put(u, pid, n, f, w, u.mem[f]);
    KeepsThenChanges(s, u, t, pid, n, -1);
    t
  }

  /** map_page once pid's table is in memory. */
  ghost function MapWithTable(s: State, pid: int, n: int, w: bool): (t: State)
    requires s.Inv() && s.Live(pid, TABLE) && 0 <= n < s.virtPages
    ensures t.Inv() && t.Live(pid, n) && Changes(s, t, pid, n, -1)
    ensures t.View(pid, n).Visible? && t.View(pid, n).write == w
    ensures s.View(pid, n).Visible? ==> t.View(pid, n).data == s.View(pid, n).data
  {
    if s.Live(pid, n) then
      SetWriteKeeps(s, pid, n, w);
      SetWrite(s, pid, n, w)
    else
      var (u, found) := CheckStore(s, pid, n);
      if found then
        SetWriteKeeps(u, pid, n, w);
        KeepsThenChanges(s, u, SetWrite(u, pid, n, w), pid, n, -1);
        SetWrite(u, pid, n, w)
      else MapFresh(s, pid, n, w)
  }

  /** map_page. The result is false exactly when the page was in memory already. */
  ghost function MapPage(s: State, pid: int, n: int, w: bool): (r: (State, bool))
    requires s.Inv() && 0 <= pid < |s.proc| && 0 <= n < s.virtPages
    ensures r.0.Inv() && r.0.Live(pid, n) && Changes(s, r.0, pid, n, pid)
    ensures r.0.View(pid, n).Visible? && r.0.View(pid, n).write == w
    ensures s.View(pid, n).Visible? ==> r.0.View(pid, n).data == s.View(pid, n).data
    ensures r.1 == !s.Live(pid, n)
  {
    var u := FindPage(s, pid);
    var t := MapWithTable(u, pid, n, w);
    KeepsThenChanges(s, u, t, pid, n, pid);
    (t, !u.Live(pid, n))
  }

  // ------------------------------------------------------------------ store and load

  /** The first half of store and load: bring the table and then page n of pid into memory. It
      succeeds exactly when both exist, and then the page itself is not at risk. */
  ghost function Fetch(s: State, pid: int, n: int): (r: (State, bool))
    requires s.Inv() && 0 <= pid < |s.proc| && 0 <= n < s.virtPages
    ensures r.0.Inv() && Keeps(s, r.0, -1)
    ensures r.1 == (s.HasTable(pid) && s.View(pid, n).Visible?)
    ensures r.1 ==> r.0.Live(pid, n) && r.0.View(pid, n) == s.View(pid, n)
  {
    var (u, table) := if s.Live(pid, TABLE) then (s, true) else CheckStore(s, pid, TABLE);
    if !table then (u, false)
    else
      assert u.View(pid, n) == s.View(pid, n);
      if u.Live(pid, n) then (u, true)
      else
        var (v, page) := CheckStore(u, pid, n);
        KeepsTransitive(s, u, v, -1);
        (v, page)
  }

  ghost function Store(s: State, pid: int, n: int, off: int, b: Byte): (r: (State, bool))
    requires s.Inv() && 0 <= pid < |s.proc| && 0 <= n < s.virtPages && 0 <= off < s.pageSize
    ensures r.0.Inv() && r.0.Doomed() <= s.Doomed()
    ensures r.1 == (s.HasTable(pid) && s.View(pid, n).Visible? && s.View(pid, n).write)
    ensures if r.1 then
              && |s.View(pid, n).data| == s.pageSize
              && Changes(s, r.0, pid, n, -1)
              && r.0.View(pid, n) == Visible(true, s.View(pid, n).data[off := Overlay(b)])
            else Keeps(s, r.0, -1)
  {
    var (u, ok) := Fetch(s, pid, n);
    if !ok || !u.Entry(pid, n).write then (u, false)
    else
      PokeKeeps(u, pid, n, off, b);
      KeepsThenChanges(s, u, Poke(u, pid, n, off, b), pid, n, -1);
      (Poke(u, pid, n, off, b), true)
  }

  datatype Loaded = Fault | Value(b: Byte)

  ghost function Load(s: State, pid: int, n: int, off: int): (r: (State, Loaded))
    requires s.Inv() && 0 <= pid < |s.proc| && 0 <= n < s.virtPages && 0 <= off < s.pageSize
    ensures r.0.Inv() && Keeps(s, r.0, -1)
    ensures if s.HasTable(pid) && s.View(pid, n).Visible?
            then |s.View(pid, n).data| == s.pageSize && r.1 == Value(Raw(s.View(pid, n).data[off]))
            else r.1 == Fault
  {
    var (u, ok) := Fetch(s, pid, n);
    if ok then (u, Value(Raw(u.mem[u.Entry(pid, n).frame][off]))) else (u, Fault)
  }
}

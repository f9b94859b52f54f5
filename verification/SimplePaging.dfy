/** The first paging simulator: page tables in main memory, and no backing store. Frames are never
    taken back, so it refines a private zeroed memory without any proviso. */
module SimplePaging {

  import PageBits

  type Byte = PageBits.Byte
  type FrameId = f: int | 0 <= f < 64

  /** valid:1, write:1, frame:6. */
  datatype Page = Page(valid: bool, write: bool, frame: FrameId)

  const ZERO := Page(false, false, 0)
  const TABLE := -1

  function Raw(page: Page): Byte {
    (if page.valid then 1 else 0) + (if page.write then 2 else 0) + 4 * page.frame
  }

  function Overlay(b: Byte): Page {
    Page(b % 2 == 1, b / 2 % 2 == 1, b / 4)
  }

  lemma RawOfOverlay(b: Byte)
    ensures Raw(Overlay(b)) == b
  {
    assert b == b % 2 + 2 * (b / 2);
    assert b / 2 == b / 2 % 2 + 2 * (b / 4);
  }

  /** Keys (p, n) name process p's page n, or its table when n is TABLE. */
  datatype State = State(pageSize: nat, virtPages: nat, mem: seq<seq<Page>>, proc: seq<Page>)
  {
    predicate Named(p: int, n: int) {
      && 0 <= p < |proc|
      && (n == TABLE || (proc[p].frame < |mem| && 0 <= n < |mem[proc[p].frame]|))
    }

    function Entry(p: int, n: int): Page
      requires Named(p, n)
    {
      if n == TABLE then proc[p] else mem[proc[p].frame][n]
    }

    function SetEntry(p: int, n: int, e: Page): State
      requires Named(p, n)
    {
      if n == TABLE then this.(proc := proc[p := e])
      else this.(mem := mem[proc[p].frame := mem[proc[p].frame][n := e]])
    }

    predicate Live(p: int, n: int) {
      Named(p, n) && proc[p].valid && Entry(p, n).valid && Entry(p, n).frame < |mem|
    }

    ghost predicate Allocated(f: int) {
      exists p, n :: Live(p, n) && Entry(p, n).frame == f
    }

    ghost predicate Shape() {
      && 1 <= virtPages <= pageSize && |mem| <= 64
      && (forall f | 0 <= f < |mem| :: |mem[f]| == pageSize)
    }

    ghost predicate TableOk(p: int)
      requires Shape() && 0 <= p < |proc|
    {
      && proc[p].frame < |mem|
      && (forall n | 0 <= n < pageSize && mem[proc[p].frame][n].valid ::
            mem[proc[p].frame][n].frame < |mem| && n < virtPages)
    }

    /** Frames in use are in range and pairwise distinct, and a frame not in use is all zero. */
    ghost predicate Inv() {
      && Shape()
      && (forall p | 0 <= p < |proc| && proc[p].valid :: TableOk(p))
      && (forall p, n, q, m ::
            Live(p, n) && Live(q, m) && Entry(p, n).frame == Entry(q, m).frame ==> p == q && n == m)
      && (forall f, j | 0 <= f < |mem| && !Allocated(f) && 0 <= j < pageSize :: mem[f][j] == ZERO)
    }
  }

  // ------------------------------------------------------------------ giving a key a frame

  /** Key (p, n) gets frame f; the frame's contents stay. */
  function Assign(s: State, p: int, n: int, w: bool, f: FrameId): State
    requires s.Named(p, n)
  {
    s.SetEntry(p, n, Page(true, w, f))
  }

  ghost predicate CanAssign(s: State, p: int, n: int, f: int) {
    && s.Inv() && 0 <= f < |s.mem| && !s.Allocated(f) && 0 <= p < |s.proc| && !s.Live(p, n)
    && (n == TABLE || (0 <= n < s.virtPages && s.Live(p, TABLE)))
  }

  lemma AssignLive(s: State, p: int, n: int, w: bool, f: FrameId)
    requires CanAssign(s, p, n, f)
    ensures s.Named(p, n)
    ensures var t := Assign(s, p, n, w, f);
      && (forall q, m :: t.Live(q, m) <==> s.Live(q, m) || (q, m) == (p, n))
      && t.Entry(p, n) == Page(true, w, f)
      && (forall q, m | s.Live(q, m) :: t.Live(q, m) && t.Entry(q, m) == s.Entry(q, m))
      && (forall g | 0 <= g < |s.mem| && (n == TABLE || g != s.proc[p].frame) :: t.mem[g] == s.mem[g])
  {
    var t := Assign(s, p, n, w, f);
    forall q, m
      ensures t.Live(q, m) <==> s.Live(q, m) || (q, m) == (p, n)
      ensures s.Live(q, m) ==> t.Live(q, m) && t.Entry(q, m) == s.Entry(q, m)
    {
      if 0 <= q < |s.proc| && s.proc[q].valid { assert s.TableOk(q); assert s.Live(q, TABLE); }
      if n == TABLE && q == p && m >= 0 && t.Named(q, m) { assert t.Entry(q, m) == s.mem[f][m] == ZERO; }
    }
  }

  lemma AssignInv(s: State, p: int, n: int, w: bool, f: FrameId)
    requires CanAssign(s, p, n, f)
    ensures s.Named(p, n) && Assign(s, p, n, w, f).Inv()
    ensures forall g :: Assign(s, p, n, w, f).Allocated(g) <==> s.Allocated(g) || g == f
  {
    AssignLive(s, p, n, w, f);
    var t := Assign(s, p, n, w, f);
    forall g ensures t.Allocated(g) <==> s.Allocated(g) || g == f {
      if s.Allocated(g) {
        var q, m :| s.Live(q, m) && s.Entry(q, m).frame == g;
        assert t.Live(q, m) && t.Entry(q, m).frame == g;
      }
      assert t.Live(p, n) && t.Entry(p, n).frame == f;
    }
    forall q | 0 <= q < |t.proc| && t.proc[q].valid ensures t.TableOk(q) {
      if s.proc[q].valid { assert s.TableOk(q) && s.Live(q, TABLE); }
      else { assert forall m | 0 <= m < s.pageSize :: s.mem[f][m] == ZERO; }
    }
    if n != TABLE { assert s.Live(p, TABLE) && s.Allocated(s.proc[p].frame); }
  }

  // ------------------------------------------------------------------ operations

  ghost function FirstFree(s: State, f: nat): (r: nat)
    requires f <= |s.mem|
    ensures f <= r <= |s.mem|
    ensures r < |s.mem| ==> !s.Allocated(r)
    ensures forall g | f <= g < r :: s.Allocated(g)
    decreases |s.mem| - f
  {
    if f == |s.mem| || !s.Allocated(f) then f else FirstFree(s, f + 1)
  }

  /** init_table. Clearing the valid bits of the new table changes nothing, because the frame is
      still zero. */
  ghost function InitTable(s: State, pid: int): (t: State)
    requires s.Inv() && 0 <= pid < |s.proc| && !s.Live(pid, TABLE)
    ensures t.Inv()
  {
    var f := FirstFree(s, 0);
    if f == |s.mem| then s else AssignInv(s, pid, TABLE, true, f); Assign(s, pid, TABLE, true, f)
  }

  function SetWrite(s: State, p: int, n: int, w: bool): State
    requires s.Live(p, n)
  {
    s.SetEntry(p, n, s.Entry(p, n).(write := w))
  }

  lemma SetWriteLive(s: State, p: int, n: int, w: bool)
    requires s.Inv() && s.Live(p, n) && 0 <= n
    ensures var t := SetWrite(s, p, n, w);
      && (forall q, m :: t.Live(q, m) == s.Live(q, m))
      && (forall q, m | s.Live(q, m) && (q, m) != (p, n) :: t.Entry(q, m) == s.Entry(q, m))
      && t.Entry(p, n) == s.Entry(p, n).(write := w)
      && (forall q, m | s.Live(q, m) && 0 <= m :: t.mem[s.Entry(q, m).frame] == s.mem[s.Entry(q, m).frame])
  {
    var t := SetWrite(s, p, n, w);
    assert s.Live(p, TABLE);
    forall q, m
      ensures t.Live(q, m) == s.Live(q, m)
      ensures s.Live(q, m) && (q, m) != (p, n) ==> t.Entry(q, m) == s.Entry(q, m)
      ensures s.Live(q, m) && 0 <= m ==> t.mem[s.Entry(q, m).frame] == s.mem[s.Entry(q, m).frame]
    {
      if 0 <= q < |s.proc| && s.proc[q].valid { assert s.TableOk(q); assert s.Live(q, TABLE); }
    }
  }

  lemma SetWriteInv(s: State, p: int, n: int, w: bool)
    requires s.Inv() && s.Live(p, n) && 0 <= n
    ensures SetWrite(s, p, n, w).Inv()
    ensures forall f :: SetWrite(s, p, n, w).Allocated(f) == s.Allocated(f)
  {
    SetWriteLive(s, p, n, w);
    var t := SetWrite(s, p, n, w);
    SameFrames(s, t);
    assert s.Live(p, TABLE) && s.Allocated(s.proc[p].frame);
    forall q | 0 <= q < |t.proc| && t.proc[q].valid ensures t.TableOk(q) {
      assert s.TableOk(q) && s.Live(q, TABLE);
    }
  }

  lemma SameFrames(s: State, t: State)
    requires forall p, n :: t.Live(p, n) == s.Live(p, n)
    requires forall p, n | s.Live(p, n) :: t.Live(p, n) && t.Entry(p, n).frame == s.Entry(p, n).frame
    ensures forall f :: t.Allocated(f) == s.Allocated(f)
  {
    forall f ensures t.Allocated(f) == s.Allocated(f) {
      if p, n :| s.Live(p, n) && s.Entry(p, n).frame == f { assert t.Live(p, n) && t.Entry(p, n).frame == f; }
      if p, n :| t.Live(p, n) && t.Entry(p, n).frame == f { assert s.Live(p, n) && s.Entry(p, n).frame == f; }
    }
  }

  /** map_page once the process has a table. */
  ghost function MapWithTable(s: State, pid: int, n: int, w: bool): (r: (State, bool))
    requires s.Inv() && s.Live(pid, TABLE) && 0 <= n < s.virtPages
    ensures r.0.Inv() && r.0.Live(pid, n) == (s.Live(pid, n) || r.1)
    ensures s.Live(pid, n) ==> !r.1
    ensures r.0.Live(pid, n) ==> r.0.Entry(pid, n).write == w
  {
    if s.Live(pid, n) then
      SetWriteInv(s, pid, n, w); SetWriteLive(s, pid, n, w);
      (SetWrite(s, pid, n, w), false)
    else
      var f := FirstFree(s, 0);
      if f == |s.mem| then (s, false)
      else AssignInv(s, pid, n, w, f); AssignLive(s, pid, n, w, f); (Assign(s, pid, n, w, f), true)
  }

  ghost function MapPage(s: State, pid: int, n: int, w: bool): (r: (State, bool))
    requires s.Inv() && 0 <= pid < |s.proc| && 0 <= n < s.virtPages
    ensures r.0.Inv()
    ensures s.Live(pid, n) ==> r.0.Live(pid, n) && !r.1
    ensures r.1 ==> r.0.Live(pid, n)
    ensures r.0.Live(pid, n) ==> r.0.Entry(pid, n).write == w
  {
    var u := if s.Live(pid, TABLE) then s else InitTable(s, pid);
    if u.Live(pid, TABLE) then MapWithTable(u, pid, n, w) else (u, false)
  }

  function Poke(s: State, p: int, n: int, off: int, b: Byte): State
    requires s.Live(p, n) && 0 <= off < |s.mem[s.Entry(p, n).frame]|
  {
    var f := s.Entry(p, n).frame;
    s.(mem := s.mem[f := s.mem[f][off := Overlay(b)]])
  }

  /** Writing to a page changes no table. */
  lemma PokeLive(s: State, p: int, n: int, off: int, b: Byte)
    requires s.Inv() && s.Live(p, n) && 0 <= n && 0 <= off < s.pageSize
    ensures var t := Poke(s, p, n, off, b);
      && (forall q | s.Live(q, TABLE) :: t.mem[s.proc[q].frame] == s.mem[s.proc[q].frame])
      && (forall q, m :: t.Live(q, m) == s.Live(q, m))
      && (forall q, m | s.Live(q, m) :: t.Entry(q, m) == s.Entry(q, m))
  {
    var t := Poke(s, p, n, off, b);
    forall q | s.Live(q, TABLE) ensures s.Entry(q, TABLE).frame != s.Entry(p, n).frame { }
    assert forall q | 0 <= q < |s.proc| && s.proc[q].valid :: s.TableOk(q) && s.Live(q, TABLE);
  }

  lemma PokeInv(s: State, p: int, n: int, off: int, b: Byte)
    requires s.Inv() && s.Live(p, n) && 0 <= n && 0 <= off < s.pageSize
    ensures Poke(s, p, n, off, b).Inv()
    ensures forall f :: Poke(s, p, n, off, b).Allocated(f) == s.Allocated(f)
  {
    PokeLive(s, p, n, off, b);
    var t := Poke(s, p, n, off, b);
    SameFrames(s, t);
    assert s.Allocated(s.Entry(p, n).frame);
    forall q | 0 <= q < |t.proc| && t.proc[q].valid ensures t.TableOk(q) { assert s.TableOk(q) && s.Live(q, TABLE); }
  }

  ghost function Store(s: State, pid: int, n: int, off: int, b: Byte): (r: (State, bool))
    requires s.Inv() && 0 <= pid < |s.proc| && 0 <= n < s.virtPages && 0 <= off < s.pageSize
    ensures r.0.Inv()
    ensures r.1 <==> s.Live(pid, n) && s.Entry(pid, n).write
    ensures !r.1 ==> r.0 == s
  {
    if !s.Live(pid, n) || !s.Entry(pid, n).write then (s, false)
    else PokeInv(s, pid, n, off, b); (Poke(s, pid, n, off, b), true)
  }

  datatype Loaded = Fault | Value(b: Byte)

  ghost function Load(s: State, pid: int, n: int, off: int): Loaded
    requires s.Inv() && 0 <= off < s.pageSize
  {
    if s.Live(pid, n) then Value(Raw(s.mem[s.Entry(pid, n).frame][off])) else Fault
  }
}

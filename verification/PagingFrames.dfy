/** Finding a frame: the round-robin evictor and the search for a free frame. */
module PagingFrames {
  import opened PagingState
  import opened PagingEvict

  /** Evict every resident page of process p from page n on, in table order. */
  function EvictPages(s: State, p: int, n: nat): (t: State)
    requires s.Shape() && n <= s.pageSize
    ensures t.Shape()
    decreases s.pageSize - n
  {
    if n == s.pageSize then s
    else EvictPages(if s.Live(p, n) then Evict(s, p, n) else s, p, n + 1)
  }

  /** Evicting page n, the first resident one, leaves the rest to do. */
  lemma EvictPage(s: State, p: int, n: nat)
    requires s.Inv() && s.Live(p, n) && (forall m | 0 <= m < n :: !s.Live(p, m))
    ensures var u := Evict(s, p, n);
      && u.Inv() && u.robin == s.robin
      && (forall m | 0 <= m < n + 1 :: !u.Live(p, m))
      && (forall q | s.Live(q, TABLE) :: u.Live(q, TABLE))
  {
    EvictLive(s, p, n); EvictInv(s, p, n);
  }

  lemma MovesNothing(s: State)
    ensures Moves(s, s)
  {
  }

  lemma EvictThen(s: State, p: int, n: int, t: State)
    requires s.Inv() && Evictable(s, p, n) && Moves(Evict(s, p, n), t)
    ensures Moves(s, t)
  {
    EvictMoves(s, p, n);
    MovesTransitive(s, Evict(s, p, n), t);
  }

  lemma {:induction false} EvictPagesSpec(s: State, p: int, n: nat)
    requires s.Inv() && s.Live(p, TABLE) && n <= s.pageSize
    requires forall m | 0 <= m < n :: !s.Live(p, m)
    ensures var t := EvictPages(s, p, n);
      && t.Inv() && Moves(s, t) && t.robin == s.robin
      && (forall m | 0 <= m :: !t.Live(p, m))
      && (forall q | s.Live(q, TABLE) :: t.Live(q, TABLE))
    decreases s.pageSize - n
  {
    if n < s.pageSize {
      var u := if s.Live(p, n) then Evict(s, p, n) else s;
      if s.Live(p, n) { EvictPage(s, p, n); }
      EvictPagesSpec(u, p, n + 1);
      if s.Live(p, n) { EvictThen(s, p, n, EvictPages(u, p, n + 1)); }
    } else {
      MovesNothing(s);
    }
  }

  ghost predicate Full(s: State) {
    forall f | 0 <= f < |s.mem| :: s.Allocated(f)
  }

  /** The key that owns frame f, which frame_allocated finds by searching the tables. */
  ghost function Owner(s: State, f: int): (k: (int, int))
    requires s.Allocated(f)
    ensures s.Live(k.0, k.1) && s.Entry(k.0, k.1).frame == f
  {
    var p, n :| s.Live(p, n) && s.Entry(p, n).frame == f;
    (p, n)
  }

  /** A frame has one owner. */
  lemma OwnerIs(s: State, p: int, n: int, f: int)
    requires s.Inv() && s.Live(p, n) && s.Entry(p, n).frame == f
    ensures s.Allocated(f) && Owner(s, f) == (p, n)
  {
  }

  function Next(s: State): nat
    requires s.Shape()
  {
    if s.robin + 1 >= |s.mem| then 0 else s.robin + 1
  }

  lemma OnlyRobin(s: State, r: nat)
    requires s.Inv() && r < |s.mem|
    ensures var u := s.(robin := r);
      && u.Inv() && Moves(s, u)
      && (forall p, n :: u.Live(p, n) == s.Live(p, n)) && (forall f :: u.Allocated(f) == s.Allocated(f))
  {
    var u := s.(robin := r);
    assert forall p, n :: u.Live(p, n) == s.Live(p, n);
    assert forall p, n | s.Live(p, n) :: u.Entry(p, n) == s.Entry(p, n);
    assert forall f :: u.Allocated(f) == s.Allocated(f);
    assert u.PageZeros() == s.PageZeros();
  }

  /** Evict one key; a table goes after everything that it maps. */
  function EvictWhole(s: State, p: int, n: int): (t: State)
    requires s.Inv() && s.Live(p, n)
  {
    if n == TABLE then EvictPagesSpec(s, p, 0); Evict(EvictPages(s, p, 0), p, n) else Evict(s, p, n)
  }

  lemma EvictWholeSpec(s: State, p: int, n: int)
    requires s.Inv() && s.Live(p, n)
    ensures var t := EvictWhole(s, p, n);
      && t.Inv() && Moves(s, t) && t.robin == s.robin
      && !t.Allocated(s.Entry(p, n).frame)
      && (forall q | s.Live(q, TABLE) && (q, TABLE) != (p, n) :: t.Live(q, TABLE))
  {
    assert s.Live(p, TABLE);
    if n == TABLE { EvictPagesSpec(s, p, 0); }
    var u := if n == TABLE then EvictPages(s, p, 0) else s;
    EvictLive(u, p, n); EvictInv(u, p, n); EvictMoves(u, p, n);
    MovesTransitive(s, u, Evict(u, p, n));
  }

  /** free_frame: evict the frame that robin points at, passing over the table of process pid. */
  ghost function FreeFrame(s: State, pid: int): (r: (State, int))
    requires s.Inv() && Full(s) && 0 <= pid < |s.proc|
    ensures r.0.Inv() && Moves(s, r.0)
    ensures 0 <= r.1 < |s.mem| && !r.0.Allocated(r.1)
    ensures s.Live(pid, TABLE) ==> r.0.Live(pid, TABLE)
    ensures if s.Live(pid, TABLE) && s.proc[pid].frame == s.robin
            then r.1 == if s.robin + 1 == |s.mem| then 0 else s.robin + 1
            else r.1 == s.robin
    ensures r.0.robin == if r.1 + 1 == |s.mem| then 0 else r.1 + 1
    decreases if Owner(s, s.robin) == (pid, TABLE) then 1 else 0
  {
    var k := Owner(s, s.robin);
    if k == (pid, TABLE) then
      var u := s.(robin := Next(s));
      OnlyRobin(s, Next(s));
      var r := FreeFrame(u, pid);
      MovesTransitive(s, u, r.0);
      r
    else
      var t := EvictWhole(s, k.0, k.1);
      EvictWholeSpec(s, k.0, k.1);
      OnlyRobin(t, Next(s)); MovesTransitive(s, t, t.(robin := Next(s)));
      (t.(robin := Next(s)), s.robin)
  }

  /** The first free frame from f on, or the number of frames. */
  ghost function FirstFree(s: State, f: nat): (r: nat)
    requires f <= |s.mem|
    ensures f <= r <= |s.mem|
    ensures r < |s.mem| ==> !s.Allocated(r)
    ensures forall g | f <= g < r :: s.Allocated(g)
    decreases |s.mem| - f
  {
    if f == |s.mem| || !s.Allocated(f) then f else FirstFree(s, f + 1)
  }

  ghost function FindFreeFrame(s: State, pid: int): (r: (State, int))
    requires s.Inv() && 0 <= pid < |s.proc|
    ensures r.0.Inv() && Moves(s, r.0)
    ensures 0 <= r.1 < |s.mem| && !r.0.Allocated(r.1)
    ensures s.Live(pid, TABLE) ==> r.0.Live(pid, TABLE)
    ensures if Full(s) then r == FreeFrame(s, pid) else r.0 == s && forall f | 0 <= f < r.1 :: s.Allocated(f)
  {
    var f := FirstFree(s, 0);
    if f < |s.mem| then (s, f) else FreeFrame(s, pid)
  }
}

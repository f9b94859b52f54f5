/** Eviction: what moving one frame to the backing store does, and that it loses nothing a
    process can see unless the store is full or the page is page 0. */
module PagingEvict {
  import opened PagingState
  import opened PagingCapacity
  import Grid

  /** The number under which page n is filed: the search for its table entry starts at entry 1,
      so page 0 is never found. */
  function Filed(n: int): int {
    if n == 0 then DEAD else n
  }

  /** What every eviction keeps. Keys only leave main memory, used slots stay as they are, and each
      page looks the same as before or is gone; it can be gone only if an eviction was dropped or
      if it is a page 0 that now sits in a dead slot. */
  ghost predicate Moves(s: State, t: State) {
    && t.pageSize == s.pageSize && t.virtPages == s.virtPages
    && |t.mem| == |s.mem| && |t.proc| == |s.proc| && |t.store| == |s.store|
    && s.dropped <= t.dropped && Excused(s, t) && t.Doomed() <= s.Doomed()
    && (forall p, n | t.Live(p, n) :: s.Live(p, n) && t.Entry(p, n) == s.Entry(p, n))
    && (forall i | 0 <= i < |s.store| && s.store[i].Used() :: t.store[i] == s.store[i])
    && (forall p, n | 0 <= p < |s.proc| && 0 <= n :: Kept(s, t, p, n))
    && (forall p | 0 <= p < |s.proc| :: TableKept(s, t, p))
  }

  /** Nothing is dropped before the store is overfull, and dead slots stay dead. */
  ghost predicate Excused(s: State, t: State) {
    && (s.Overfull() ==> t.Overfull())
    && (s.dropped < t.dropped ==> t.Overfull())
  }

  ghost predicate Kept(s: State, t: State, p: int, n: int) {
    || t.View(p, n) == s.View(p, n)
    || (t.View(p, n) == Absent && (s.dropped < t.dropped || (n == 0 && t.HasDead(p))))
  }

  ghost predicate TableKept(s: State, t: State, p: int) {
    && (t.HasTable(p) ==> s.HasTable(p))
    && (s.HasTable(p) ==> t.HasTable(p) || s.dropped < t.dropped)
  }

  lemma HasDeadStays(s: State, t: State, p: int)
    requires |t.store| == |s.store|
    requires forall i | 0 <= i < |s.store| && s.store[i].Used() :: t.store[i] == s.store[i]
    requires 0 <= p && s.HasDead(p)
    ensures t.HasDead(p)
  {
    var i :| 0 <= i < |s.store| && s.store[i].Holds(p, DEAD);
    assert t.store[i].Holds(p, DEAD);
  }

  lemma MovesTransitive(s: State, t: State, u: State)
    requires Moves(s, t) && Moves(t, u)
    ensures Moves(s, u)
  {
    forall p, n | 0 <= p < |s.proc| && 0 <= n
      ensures Kept(s, u, p, n)
    {
      assert Kept(s, t, p, n) && Kept(t, u, p, n);
      if t.HasDead(p) { HasDeadStays(t, u, p); }
    }
    forall p | 0 <= p < |s.proc|
      ensures TableKept(s, u, p)
    {
      assert TableKept(s, t, p) && TableKept(t, u, p);
    }
  }

  /** Only what is in memory can be lost. */
  lemma MovesSparesStored(s: State, t: State, p: int, n: int)
    requires Moves(s, t) && 0 <= p < |s.proc| && 0 <= n && !s.Live(p, n)
    ensures t.View(p, n) == s.View(p, n)
  {
    assert Kept(s, t, p, n);
    var i := s.Stored(p, n);
    if i < |s.store| { assert t.store[i].Holds(p, n); }
  }

  /** free_specific_frame: unmap (p, n) and copy its frame to the first free slot, if any. */
  function Evict(s: State, p: int, n: int): (t: State)
    requires s.Shape() && s.Live(p, n)
    ensures t.Shape() && t.pageSize == s.pageSize
  {
    var e := s.Entry(p, n);
    var t := s.SetEntry(p, n, e.(valid := false));
    var i := FreeSlot(s.store, 0);
    if i == |s.store| then t.(dropped := s.dropped + 1)
    else t.(store := s.store[i := Slot(s.mem[e.frame], p, Filed(n), e.write)])
  }

  /** Nothing that (p, n)'s table maps is in memory, when (p, n) is itself a table. */
  ghost predicate Evictable(s: State, p: int, n: int) {
    s.Live(p, n) && (n == TABLE ==> forall m | 0 <= m :: !s.Live(p, m))
  }

  lemma EvictLive(s: State, p: int, n: int)
    requires s.Inv() && Evictable(s, p, n)
    ensures var t := Evict(s, p, n);
      forall q, m :: t.Live(q, m) <==> s.Live(q, m) && (q, m) != (p, n)
    ensures var t := Evict(s, p, n);
      forall q, m | t.Live(q, m) :: t.Entry(q, m) == s.Entry(q, m)
    ensures var t := Evict(s, p, n);
      forall q, m | t.Live(q, m) && 0 <= m :: t.mem[t.Entry(q, m).frame] == s.mem[t.Entry(q, m).frame]
  {
    var t := Evict(s, p, n);
    assert s.Live(p, TABLE);
    forall q, m
      ensures t.Live(q, m) <==> s.Live(q, m) && (q, m) != (p, n)
      ensures t.Live(q, m) ==> t.Entry(q, m) == s.Entry(q, m)
      ensures t.Live(q, m) && 0 <= m ==> t.mem[t.Entry(q, m).frame] == s.mem[t.Entry(q, m).frame]
    {
      if 0 <= q < |s.proc| && s.proc[q].valid { assert s.TableOk(q); assert s.Live(q, TABLE); }
    }
  }

  lemma EvictTables(s: State, p: int, n: int)
    requires s.Inv() && Evictable(s, p, n)
    ensures var t := Evict(s, p, n); t.Shape() && t.TablesOk() && t.Disjoint()
  {
    var t := Evict(s, p, n);
    EvictLive(s, p, n);
    assert s.Live(p, TABLE) && s.TableOk(p);
    forall q | 0 <= q < |t.proc| && t.proc[q].valid
      ensures t.TableOk(q)
    {
      assert s.TableOk(q) && s.Live(q, TABLE);
    }
  }

  lemma EvictFiles(s: State, p: int, n: int)
    requires s.Inv() && Evictable(s, p, n)
    ensures n == TABLE ==> s.Blank(s.mem[s.proc[p].frame], p)
    ensures n != TABLE ==> n < s.virtPages
  {
    assert s.TableOk(p);
    if n == TABLE {
      forall m | 0 <= m < s.pageSize
        ensures !s.mem[s.proc[p].frame][m].valid && s.mem[s.proc[p].frame][m].procc == p
      {
        assert !s.Live(p, m);
        assert s.EntryOk(s.mem[s.proc[p].frame][m], p, m);
      }
    } else {
      assert s.EntryOk(s.mem[s.proc[p].frame][n], p, n);
    }
  }

  lemma EvictInv(s: State, p: int, n: int)
    requires s.Inv() && Evictable(s, p, n)
    ensures Evict(s, p, n).Inv()
  {
    EvictLive(s, p, n);
    EvictFiles(s, p, n);
    EvictTables(s, p, n);
  }

  /** The dead slots grow by one exactly when a page 0 is evicted to a free slot. */
  lemma EvictDead(s: State, p: int, n: int)
    requires s.Inv() && Evictable(s, p, n)
    ensures var i := FreeSlot(s.store, 0);
      DeadSlots(Evict(s, p, n).store) == DeadSlots(s.store) + if n == 0 && i < |s.store| then {i} else {}
  {
  }

  lemma EvictExcused(s: State, p: int, n: int)
    requires s.Inv() && Evictable(s, p, n)
    ensures Excused(s, Evict(s, p, n))
  {
    EvictDead(s, p, n);
    Grid.SubsetCard(DeadSlots(s.store), DeadSlots(Evict(s, p, n).store));
    if !s.Overfull() { RoomToEvict(s, p, n); }
  }

  lemma EvictZeros(s: State, p: int, n: int)
    requires s.Inv() && Evictable(s, p, n)
    ensures Evict(s, p, n).PageZeros() == s.PageZeros() - if n == 0 then {p} else {}
    ensures n == 0 ==> p in s.PageZeros()
  {
    EvictLive(s, p, n);
  }

  /** What else is in the store stays there. */
  lemma EvictStored(s: State, p: int, n: int, q: int, m: int)
    requires s.Inv() && Evictable(s, p, n) && 0 <= q < |s.proc| && TABLE <= m && (q, m) != (p, n)
    ensures var t := Evict(s, p, n);
      && (t.Stored(q, m) < |t.store| <==> s.Stored(q, m) < |s.store|)
      && (s.Stored(q, m) < |s.store| ==> t.store[t.Stored(q, m)] == s.store[s.Stored(q, m)])
  {
    var t := Evict(s, p, n);
    EvictInv(s, p, n);
    var i, j := s.Stored(q, m), t.Stored(q, m);
    if i < |s.store| { assert t.store[i] == s.store[i]; }
    if j < |t.store| { assert s.store[j] == t.store[j]; }
  }

  /** A page 0 that leaves memory leaves at most one dead slot. */
  lemma EvictDooms(s: State, p: int, n: int)
    requires s.Inv() && Evictable(s, p, n)
    ensures Evict(s, p, n).Doomed() <= s.Doomed()
  {
    EvictDead(s, p, n);
    EvictZeros(s, p, n);
  }

  lemma EvictMoves(s: State, p: int, n: int)
    requires s.Inv() && Evictable(s, p, n)
    ensures Moves(s, Evict(s, p, n))
  {
    var t := Evict(s, p, n);
    EvictLive(s, p, n);
    EvictInv(s, p, n);
    EvictExcused(s, p, n);
    EvictDooms(s, p, n);
    forall q, m | 0 <= q < |s.proc| && 0 <= m
      ensures Kept(s, t, q, m)
    {
      if (q, m) != (p, n) {
        EvictStored(s, p, n, q, m);
      } else {
        var i := FreeSlot(s.store, 0);
        if i < |s.store| { assert t.store[i].Holds(p, Filed(n)); }
      }
    }
    forall q | 0 <= q < |s.proc|
      ensures TableKept(s, t, q)
    {
      if (q, TABLE) != (p, n) {
        EvictStored(s, p, n, q, TABLE);
      } else {
        var i := FreeSlot(s.store, 0);
        if i < |s.store| { assert t.store[i].Holds(p, TABLE); }
      }
    }
  }

  /** An evicted page stays visible to its process exactly when it is not page 0 and a slot is free. */
  lemma EvictionKeepsIff(s: State, p: int, n: int)
    requires s.Inv() && s.Live(p, n) && 0 <= n
    ensures Evict(s, p, n).View(p, n) == s.View(p, n) <==> n != 0 && FreeSlot(s.store, 0) < |s.store|
    ensures Evict(s, p, n).View(p, n) != s.View(p, n) ==> Evict(s, p, n).View(p, n) == Absent
  {
    var t := Evict(s, p, n);
    EvictLive(s, p, n);
    EvictInv(s, p, n);
    var i := FreeSlot(s.store, 0);
    if i < |s.store| && n != 0 {
      assert t.store[i].Holds(p, n);
      assert t.Stored(p, n) == i;
    } else {
      forall k | 0 <= k < |t.store| ensures !t.store[k].Holds(p, n) {
        if k != i { assert s.store[k].Used() ==> s.SlotOk(s.store[k]); }
      }
    }
  }
}

/** What the evictor takes out of memory, and what is lost with it: page 0 of a process, whose number
    the search for its table entry never finds. */
module PagingLosses {
  import opened PageBits
  import opened PagingState
  import opened PagingEvict
  import opened PagingFrames
  import opened PagingOps
  import opened PagingCommands
  import opened PagingRuns

  // ------------------------------------------------------------------ what leaves memory

  /** Unloading a table takes out nothing of another process. */
  lemma {:induction false} EvictPagesSpares(s: State, p: int, n: nat, q: int, m: int)
    requires s.Inv() && s.Live(p, TABLE) && n <= s.pageSize && (forall k | 0 <= k < n :: !s.Live(p, k))
    requires q != p && s.Live(q, m)
    ensures EvictPages(s, p, n).Live(q, m)
    decreases s.pageSize - n
  {
    if n < s.pageSize {
      if s.Live(p, n) {
        EvictPage(s, p, n);
        EvictLive(s, p, n);
      }
      EvictPagesSpares(if s.Live(p, n) then Evict(s, p, n) else s, p, n + 1, q, m);
    }
  }

  /** Key (q, m) goes when (p, n) is evicted: it is that key, or (p, n) is the table that maps it. */
  predicate GoesWith(q: int, m: int, p: int, n: int) {
    q == p && (m == n || n == TABLE)
  }

  lemma EvictWholeTakes(s: State, p: int, n: int, q: int, m: int)
    requires s.Inv() && s.Live(p, n)
    ensures EvictWhole(s, p, n).Live(q, m) <==> s.Live(q, m) && !GoesWith(q, m, p, n)
  {
    assert s.Live(p, TABLE);
    if n == TABLE {
      EvictPagesSpec(s, p, 0);
      var u := EvictPages(s, p, 0);
      if q != p && s.Live(q, m) { EvictPagesSpares(s, p, 0, q, m); }
      EvictLive(u, p, n);
      if q == p && m != TABLE { assert u.Live(q, m) ==> 0 <= m; }
    } else {
      EvictLive(s, p, n);
    }
  }

  /** The key that free_frame evicts for pid: the owner of robin's frame, or of the next frame if
      robin is at pid's own table. */
  ghost function Victim(s: State, pid: int): (int, int)
    requires s.Inv() && Full(s)
  {
    if Owner(s, s.robin) == (pid, TABLE) then Owner(s, if s.robin + 1 == |s.mem| then 0 else s.robin + 1)
    else Owner(s, s.robin)
  }

  /** free_frame takes the victim out of memory, with all that it maps if it is a table, and leaves
      everything else there. */
  lemma FreeFrameTakes(s: State, pid: int, q: int, m: int)
    requires s.Inv() && Full(s) && 0 <= pid < |s.proc|
    ensures var k := Victim(s, pid);
      FreeFrame(s, pid).0.Live(q, m) <==> s.Live(q, m) && !GoesWith(q, m, k.0, k.1)
    decreases if Owner(s, s.robin) == (pid, TABLE) then 1 else 0
  {
    var k := Owner(s, s.robin);
    if k == (pid, TABLE) {
      var u := s.(robin := Next(s));
      OnlyRobin(s, Next(s));
      var v := Owner(s, Next(s));
      assert v != k;
      assert u.Live(v.0, v.1);
      OwnerIs(u, v.0, v.1, Next(s));
      FreeFrameTakes(u, pid, q, m);
    } else {
      EvictWholeTakes(s, k.0, k.1, q, m);
      EvictWholeSpec(s, k.0, k.1);
      OnlyRobin(EvictWhole(s, k.0, k.1), Next(s));
    }
  }

  // ------------------------------------------------------------------ page 0

  /** A page 0 is in memory or nowhere. */
  lemma ZeroIsLiveOrAbsent(s: State, q: int)
    requires s.Inv() && 0 <= q < |s.proc|
    ensures s.View(q, 0) == Absent <==> !s.Live(q, 0)
  {
    assert s.Stored(q, 0) == |s.store|;
  }

  /** free_frame leaves page 0 of process q as it was exactly when it is not in memory, or neither it
      nor its table is the victim. */
  lemma PageZeroKeptIff(s: State, pid: int, q: int)
    requires s.Inv() && Full(s) && 0 <= pid < |s.proc| && 0 <= q < |s.proc|
    ensures var k := Victim(s, pid);
      FreeFrame(s, pid).0.View(q, 0) == s.View(q, 0) <==> !(s.Live(q, 0) && (k == (q, 0) || k == (q, TABLE)))
  {
    var t := FreeFrame(s, pid).0;
    FreeFrameTakes(s, pid, q, 0);
    ZeroIsLiveOrAbsent(s, q);
    ZeroIsLiveOrAbsent(t, q);
    assert Kept(s, t, q, 0);
  }

  // ------------------------------------------------------------------ what a new page shows

  /** The frame that free_frame returns still has the contents of the page evicted from it. */
  lemma FreeFrameShows(s: State, pid: int)
    requires s.Inv() && Full(s) && 0 <= pid < |s.proc| && Victim(s, pid).1 != TABLE
    ensures var (u, f) := FreeFrame(s, pid); var k := Victim(s, pid);
      s.Entry(k.0, k.1).frame == f && u.mem[f] == s.mem[f]
    decreases if Owner(s, s.robin) == (pid, TABLE) then 1 else 0
  {
    var k := Owner(s, s.robin);
    if k == (pid, TABLE) {
      var u := s.(robin := Next(s));
      OnlyRobin(s, Next(s));
      var v := Owner(s, Next(s));
      assert u.Live(v.0, v.1);
      OwnerIs(u, v.0, v.1, Next(s));
      FreeFrameShows(u, pid);
    } else {
      assert s.Live(k.0, TABLE);
    }
  }

  /** A page that is mapped afresh when memory is full shows what the victim held, unless the victim
      was a table: no frame is cleared for it. */
  lemma NewPageShowsVictim(s: State, pid: int, n: int, w: bool)
    requires s.Inv() && Full(s) && s.Live(pid, TABLE) && 0 <= n < s.virtPages && s.View(pid, n) == Absent
    requires Victim(s, pid).1 != TABLE
    ensures var k := Victim(s, pid);
      MapPage(s, pid, n, w).0.View(pid, n) == Visible(w, s.View(k.0, k.1).data)
  {
    FreeFrameShows(s, pid);
    assert FirstFree(s, 0) == |s.mem|;
  }

  // ------------------------------------------------------------------ page 0, command by command

  /** free_frame is called for pid, and page 0 of q goes. */
  ghost predicate TakesZero(s: State, pid: int, q: int) {
    && s.Inv() && Full(s) && s.Live(q, 0)
    && (Victim(s, pid) == (q, 0) || Victim(s, pid) == (q, TABLE))
  }

  lemma FindTakes(s: State, pid: int, q: int)
    requires s.Inv() && 0 <= pid < |s.proc|
    ensures FindFreeFrame(s, pid).0.Live(q, 0) <==> s.Live(q, 0) && !TakesZero(s, pid, q)
  {
    if Full(s) {
      assert FirstFree(s, 0) == |s.mem|;
      FreeFrameTakes(s, pid, q, 0);
    } else {
      assert FirstFree(s, 0) < |s.mem|;
    }
  }

  lemma CheckTakes(s: State, pid: int, n: int, q: int)
    requires s.Inv() && 0 <= pid < |s.proc| && 0 <= q < |s.proc|
    requires n == TABLE || (0 <= n < s.virtPages && s.Live(pid, TABLE))
    ensures CheckStore(s, pid, n).0.Live(q, 0) <==>
            s.Live(q, 0) && !(s.Stored(pid, n) < |s.store| && TakesZero(s, pid, q))
  {
    var i := s.Stored(pid, n);
    if i < |s.store| {
      assert s.SlotOk(s.store[i]);
      FindTakes(s, pid, q);
      var (u, f) := FindFreeFrame(s, pid);
      assert u.store[i] == s.store[i] && u.Stored(pid, n) == i;
      RestoreKeeps(u, pid, n, f);
    }
  }

  /** The command first needs a frame for pid's page table. */
  predicate NeedsTable(s: State, c: Command) {
    !s.Live(c.pid, TABLE) && (c.Map? || s.Stored(c.pid, TABLE) < |s.store|)
  }

  /** The state of the machine once the command has seen to the table. */
  ghost function WithTable(s: State, c: Command): (u: State)
    requires s.Inv() && InRange(s, c)
    ensures u.Inv() && InRange(u, c)
  {
    if c.Map? then FindPage(s, c.pid)
    else if s.Live(c.pid, TABLE) then s else CheckStore(s, c.pid, TABLE).0
  }

  /** The command then needs a frame for its page. */
  predicate NeedsPage(u: State, c: Command)
    requires InRange(u, c)
  {
    var n := PageNo(u, c.address);
    u.Live(c.pid, TABLE) && !u.Live(c.pid, n) && (c.Map? || u.Stored(c.pid, n) < |u.store|)
  }

  lemma NewTableTakes(s: State, pid: int, q: int)
    requires s.Inv() && 0 <= pid < |s.proc| && 0 <= q < |s.proc|
    requires !s.Live(pid, TABLE) && s.Stored(pid, TABLE) == |s.store|
    ensures InitTable(s, pid).Live(q, 0) <==> s.Live(q, 0) && !TakesZero(s, pid, q)
  {
    FindTakes(s, pid, q);
    var (v, f) := FindFreeFrame(s, pid);
    assert TableKept(s, v, pid);
    PutLive(v, pid, TABLE, f, true, Cleared(v.mem[f], pid));
  }

  lemma TableTakes(s: State, c: Command, q: int)
    requires s.Inv() && InRange(s, c) && 0 <= q < |s.proc|
    ensures WithTable(s, c).Live(q, 0) <==> s.Live(q, 0) && !(NeedsTable(s, c) && TakesZero(s, c.pid, q))
  {
    var pid := c.pid;
    if !s.Live(pid, TABLE) {
      assert !s.proc[pid].valid;
      CheckTakes(s, pid, TABLE, q);
      if c.Map? && s.Stored(pid, TABLE) == |s.store| { NewTableTakes(s, pid, q); }
    }
  }

  lemma MapTakes(u: State, c: Command, q: int)
    requires u.Inv() && InRange(u, c) && c.Map? && u.Live(c.pid, TABLE) && 0 <= q < |u.proc|
    requires (c.pid, PageNo(u, c.address)) != (q, 0)
    ensures MapWithTable(u, c.pid, PageNo(u, c.address), c.write).Live(q, 0) <==>
            u.Live(q, 0) && !(NeedsPage(u, c) && TakesZero(u, c.pid, q))
  {
    var pid, n := c.pid, PageNo(u, c.address);
    if u.Live(pid, n) {
      SetWriteLive(u, pid, n, c.write);
    } else {
      CheckTakes(u, pid, n, q);
      var (v, found) := CheckStore(u, pid, n);
      if found {
        SetWriteLive(v, pid, n, c.write);
      } else {
        FindTakes(u, pid, q);
        var (v, f) := FindFreeFrame(u, pid);
        assert Kept(u, v, pid, n);
        PutLive(v, pid, n, f, c.write, v.mem[f]);
      }
    }
  }

  lemma FetchTakes(s: State, c: Command, q: int)
    requires s.Inv() && InRange(s, c) && !c.Map? && 0 <= q < |s.proc|
    ensures var u, v := WithTable(s, c), Fetch(s, c.pid, PageNo(s, c.address)).0;
      v.Live(q, 0) <==> u.Live(q, 0) && !(NeedsPage(u, c) && TakesZero(u, c.pid, q))
  {
    var u, n := WithTable(s, c), PageNo(s, c.address);
    if u.Live(c.pid, TABLE) && !u.Live(c.pid, n) { CheckTakes(u, c.pid, n, q); }
  }

  lemma StepTakes(s: State, c: Command, q: int)
    requires s.Inv() && InRange(s, c) && 0 <= q < |s.proc|
    requires c.Map? ==> (c.pid, PageNo(s, c.address)) != (q, 0)
    ensures var u := WithTable(s, c);
      Step(s, c).0.Live(q, 0) <==> u.Live(q, 0) && !(NeedsPage(u, c) && TakesZero(u, c.pid, q))
  {
    var n, off := PageNo(s, c.address), Offset(s, c.address);
    if c.Map? {
      MapTakes(WithTable(s, c), c, q);
    } else {
      FetchTakes(s, c, q);
      var (v, ok) := Fetch(s, c.pid, n);
      if c.Store? && ok && v.Entry(c.pid, n).write { PokeLive(v, c.pid, n, off, c.value); }
    }
  }

  /** A command calls free_frame at most twice, for the table and for the page of its process. Page 0
      of process q looks the same after a command that is not itself on that page, exactly when
      neither call has it or its table as the victim. */
  lemma CommandKeepsPageZeroIff(s: State, c: Command, q: int)
    requires s.Inv() && InRange(s, c) && 0 <= q < |s.proc|
    requires c.Load? || (c.pid, PageNo(s, c.address)) != (q, 0)
    ensures var u := WithTable(s, c);
      Step(s, c).0.View(q, 0) == s.View(q, 0) <==>
      !(NeedsTable(s, c) && TakesZero(s, c.pid, q)) && !(NeedsPage(u, c) && TakesZero(u, c.pid, q))
  {
    var t := Step(s, c).0;
    TableTakes(s, c, q);
    StepTakes(s, c, q);
    ZeroIsLiveOrAbsent(s, q);
    ZeroIsLiveOrAbsent(t, q);
    assert Kept(s, t, q, 0);
  }
}

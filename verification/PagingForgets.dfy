/** How a page 0 is lost: from the start, on a machine of any size, a process fills memory with its own
    pages until its page 0 is evicted. A load from it then faults, and once the page is mapped again
    it yields what another page holds. */
module PagingForgets {
  import opened PageBits
  import opened PagingState
  import opened PagingEvict
  import opened PagingFrames
  import opened PagingOps
  import opened PagingCommands
  import opened PagingRuns
  import opened PagingLosses
  import Grid

  // ------------------------------------------------------------------ filling memory

  /** The table is in frame 0, page j in frame j + 1 for j up to k, and everything else is free. */
  ghost predicate Packed(s: State, pid: int, k: int) {
    && s.Inv() && s.robin == 0 && 0 <= pid < |s.proc| && -1 <= k && k + 2 <= |s.mem|
    && s.Live(pid, TABLE) && s.Entry(pid, TABLE).frame == 0
    && (forall j | 0 <= j <= k :: s.Live(pid, j) && s.Entry(pid, j).frame == j + 1 && s.Entry(pid, j).write)
    && (forall q, m | s.Live(q, m) :: s.Entry(q, m).frame <= k + 1)
    && (forall m | k < m < s.virtPages :: s.View(pid, m) == Absent)
  }

  /** The first table goes to frame 0. */
  lemma TableFirst(s: State, pid: int)
    requires Initial(s) && s.Inv() && s.robin == 0 && 0 <= pid < |s.proc|
    ensures Packed(FindPage(s, pid), pid, -1)
  {
    InitialInv(s);
    assert forall f :: !s.Allocated(f);
    assert FirstFree(s, 0) == 0;
    PutLive(s, pid, TABLE, 0, true, Cleared(s.mem[0], pid));
    assert FindPage(s, pid) == Put(s, pid, TABLE, 0, true, Cleared(s.mem[0], pid));
  }

  lemma FirstFreePacked(s: State, pid: int, k: int)
    requires Packed(s, pid, k)
    ensures if k + 2 < |s.mem| then FirstFree(s, 0) == k + 2 else Full(s)
  {
    forall f | 0 <= f <= k + 1 ensures s.Allocated(f) {
      if f == 0 { assert s.Live(pid, TABLE); } else { assert s.Live(pid, f - 1) && s.Entry(pid, f - 1).frame == f; }
    }
    assert !s.Allocated(k + 2);
  }

  /** The next page goes to the next frame. */
  lemma PageNext(s: State, pid: int, n: nat)
    requires Packed(s, pid, n - 1) && n + 1 < |s.mem| && n < s.virtPages
    ensures Packed(MapPage(s, pid, n, true).0, pid, n)
  {
    FirstFreePacked(s, pid, n - 1);
    assert s.View(pid, n) == Absent;
    PutPacked(s, pid, n, n + 1);
    assert MapPage(s, pid, n, true).0 == Put(s, pid, n, n + 1, true, s.mem[n + 1]);
  }

  lemma PutPacked(s: State, pid: int, n: nat, f: int)
    requires Packed(s, pid, n - 1) && f == n + 1 < |s.mem| && n < s.virtPages && !s.Allocated(f)
    ensures s.Named(pid, n) && Packed(Put(s, pid, n, f, true, s.mem[f]), pid, n)
  {
    assert s.View(pid, n) == Absent;
    PutLive(s, pid, n, f, true, s.mem[f]);
    PutInv(s, pid, n, f, true, s.mem[f]);
    PutViews(s, pid, n, f, true, s.mem[f]);
  }

  /** A store to a page in memory moves nothing. */
  lemma StoreMoves(s: State, pid: int, n: int, off: int, b: Byte)
    requires s.Inv() && s.Live(pid, n) && 0 <= n < s.virtPages && 0 <= off < s.pageSize
    ensures var t := PagingCommands.Store(s, pid, n, off, b).0;
      && t.robin == s.robin && |t.mem| == |s.mem|
      && (forall q, m :: t.Live(q, m) == s.Live(q, m))
      && (forall q, m | s.Live(q, m) :: t.Entry(q, m) == s.Entry(q, m))
  {
    assert s.Live(pid, TABLE);
    PokeLive(s, pid, n, off, b);
  }

  lemma StorePacked(s: State, pid: int, k: nat, off: nat, b: Byte)
    requires Packed(s, pid, k) && k < s.virtPages && off < s.pageSize
    ensures Packed(PagingCommands.Store(s, pid, 0, off, b).0, pid, k)
  {
    assert s.Live(pid, 0);
    StoreMoves(s, pid, 0, off, b);
    var t := PagingCommands.Store(s, pid, 0, off, b).0;
    forall m | k < m < t.virtPages ensures t.View(pid, m) == Absent {
      assert s.View(pid, m) == Absent && Kept(s, t, pid, m);
    }
  }

  /** The first page goes to frame 1. */
  ghost function FirstPage(s: State, pid: int): (t: State)
    requires Initial(s) && s.Inv() && s.robin == 0 && 0 <= pid < |s.proc|
    ensures Packed(t, pid, 0) && t == MapPage(s, pid, 0, true).0
  {
    TableFirst(s, pid);
    PageNext(FindPage(s, pid), pid, 0);
    MapPage(FindPage(s, pid), pid, 0, true).0
  }

  /** The state after mapping page 0, storing at offset off of it, and mapping pages 1 to k. */
  ghost function Filled(s: State, pid: int, off: nat, b: Byte, k: nat): (t: State)
    requires s.Inv() && 0 <= pid < |s.proc| && off < s.pageSize && k < s.virtPages
    ensures t.Inv() && t.pageSize == s.pageSize && t.virtPages == s.virtPages
    ensures |t.proc| == |s.proc| && |t.mem| == |s.mem|
  {
    if k == 0 then PagingCommands.Store(MapPage(s, pid, 0, true).0, pid, 0, off, b).0
    else MapPage(Filled(s, pid, off, b, k - 1), pid, k, true).0
  }

  /** From the start that state is packed, as long as there is room. */
  ghost function PackedFill(s: State, pid: int, off: nat, b: Byte, k: nat): (t: State)
    requires Initial(s) && s.Inv() && s.robin == 0 && 0 <= pid < |s.proc| && off < s.pageSize
    requires k + 2 <= |s.mem| && k < s.virtPages
    ensures t == Filled(s, pid, off, b, k) && Packed(t, pid, k)
  {
    if k == 0 then
      var u := FirstPage(s, pid);
      StorePacked(u, pid, 0, off, b);
      PagingCommands.Store(u, pid, 0, off, b).0
    else
      var u := PackedFill(s, pid, off, b, k - 1);
      PageNext(u, pid, k);
      MapPage(u, pid, k, true).0
  }

  // ------------------------------------------------------------------ losing page 0

  /** When memory is full of a process's table and pages, the next page takes the place of page 0, and
      page 1 will be the next to go. */
  ghost predicate Lost(s: State, pid: int) {
    && s.Inv() && Full(s) && 0 <= pid < |s.proc| && s.Live(pid, 1) && s.Entry(pid, 1).write
    && Victim(s, pid) == (pid, 1) && s.View(pid, 0) == Absent
  }

  lemma PackedVictim(s: State, pid: int, k: nat)
    requires Packed(s, pid, k) && k + 2 == |s.mem|
    ensures Full(s) && Victim(s, pid) == (pid, 0) && FreeFrame(s, pid).1 == 1
  {
    FirstFreePacked(s, pid, k);
    OwnerIs(s, pid, TABLE, 0);
    assert s.Live(pid, 0);
    OwnerIs(s, pid, 0, 1);
    FreeFrameShows(s, pid);
  }

  /** Packed, but for page 0, whose frame is free. */
  ghost predicate Freed(u: State, pid: int, k: nat) {
    && u.Inv() && |u.mem| == k + 2 && 0 <= pid < |u.proc| && !u.Allocated(1)
    && u.robin == (if 2 < |u.mem| then 2 else 0) && u.View(pid, 0) == Absent
    && u.Live(pid, TABLE) && u.Entry(pid, TABLE).frame == 0
    && (forall j | 1 <= j <= k :: u.Live(pid, j) && u.Entry(pid, j).frame == j + 1 && u.Entry(pid, j).write)
  }

  lemma FreedPacked(s: State, pid: int, k: nat)
    requires Packed(s, pid, k) && k + 2 == |s.mem| && Full(s) && Victim(s, pid) == (pid, 0) && FreeFrame(s, pid).1 == 1
    ensures Freed(FreeFrame(s, pid).0, pid, k)
  {
    var u := FreeFrame(s, pid).0;
    FreeFrameTakes(s, pid, pid, 0);
    ZeroIsLiveOrAbsent(u, pid);
    forall j | 1 <= j <= k ensures u.Live(pid, j) { assert s.Live(pid, j); FreeFrameTakes(s, pid, pid, j); }
  }

  lemma LastPage(u: State, pid: int, k: nat)
    requires Freed(u, pid, k) && u.View(pid, k + 1) == Absent && k + 1 < u.virtPages
    ensures u.Named(pid, k + 1) && Lost(Put(u, pid, k + 1, 1, true, u.mem[1]), pid)
  {
    PutLive(u, pid, k + 1, 1, true, u.mem[1]);
    PutViews(u, pid, k + 1, 1, true, u.mem[1]);
    PutInv(u, pid, k + 1, 1, true, u.mem[1]);
    NextVictim(Put(u, pid, k + 1, 1, true, u.mem[1]), pid, k);
  }

  /** Mapping a page that is nowhere, when memory is full, puts it where the victim was. */
  lemma MapWhenFull(s: State, pid: int, n: int)
    requires s.Inv() && Full(s) && s.Live(pid, TABLE) && 0 <= n < s.virtPages && s.View(pid, n) == Absent
    ensures var (u, f) := FreeFrame(s, pid);
      && u.View(pid, n) == Absent && u.Named(pid, n) && |u.mem[f]| == u.pageSize
      && MapPage(s, pid, n, true).0 == Put(u, pid, n, f, true, u.mem[f])
  {
    var u := FreeFrame(s, pid).0;
    assert Kept(s, u, pid, n);
    assert u.TableOk(pid);
    assert FirstFree(s, 0) == |s.mem|;
  }

  lemma PageZeroGoes(s: State, pid: int, k: nat)
    requires Packed(s, pid, k) && k + 2 == |s.mem| && k + 1 < s.virtPages
    ensures Lost(MapPage(s, pid, k + 1, true).0, pid)
  {
    PackedVictim(s, pid, k);
    FreedPacked(s, pid, k);
    MapWhenFull(s, pid, k + 1);
    LastPage(FreeFrame(s, pid).0, pid, k);
  }

  /** After that, robin is at the frame of page 1, or just before it. */
  lemma NextVictim(t: State, pid: int, k: nat)
    requires t.Inv() && 0 <= pid < |t.proc| && |t.mem| == k + 2 && t.robin == (if 2 < |t.mem| then 2 else 0)
    requires t.Live(pid, TABLE) && t.Entry(pid, TABLE).frame == 0
    requires t.Live(pid, k + 1) && t.Entry(pid, k + 1).frame == 1
    requires forall j | 1 <= j <= k :: t.Live(pid, j) && t.Entry(pid, j).frame == j + 1
    ensures Full(t) && Victim(t, pid) == (pid, 1)
  {
    OwnerIs(t, pid, TABLE, 0);
    OwnerIs(t, pid, k + 1, 1);
    forall f | 0 <= f < |t.mem| ensures t.Allocated(f) {
      if f >= 2 { assert t.Live(pid, f - 1) && t.Entry(pid, f - 1).frame == f; }
    }
    if k > 0 { assert t.Live(pid, 1); OwnerIs(t, pid, 1, 2); }
  }

  ghost function OnePageMore(u: State, pid: int, k: nat): (t: State)
    requires Packed(u, pid, k) && k + 2 == |u.mem| && k + 1 < u.virtPages
    ensures t == MapPage(u, pid, k + 1, true).0 && Lost(t, pid)
  {
    PageZeroGoes(u, pid, k);
    MapPage(u, pid, k + 1, true).0
  }

  /** And with one page more, page 0 is lost. */
  ghost function Overfilled(s: State, pid: int, off: nat, b: Byte, k: nat): (t: State)
    requires Initial(s) && s.Inv() && s.robin == 0 && 0 <= pid < |s.proc| && off < s.pageSize
    requires k + 2 == |s.mem| <= s.virtPages
    ensures t == Filled(s, pid, off, b, k + 1) && Lost(t, pid)
  {
    FilledStep(s, pid, off, b, k);
    OnePageMore(PackedFill(s, pid, off, b, k), pid, k)
  }

  lemma FilledStep(s: State, pid: int, off: nat, b: Byte, k: nat)
    requires s.Inv() && 0 <= pid < |s.proc| && off < s.pageSize && k + 1 < s.virtPages
    ensures Filled(s, pid, off, b, k + 1) == MapPage(Filled(s, pid, off, b, k), pid, k + 1, true).0
  {
  }

  /** On every machine with at least as many virtual pages as frames, a process that stores to page 0 and
      maps as many pages as there are frames has lost page 0: the load faults. */
  lemma PageZeroIsForgotten(s: State, pid: int, off: nat, b: Byte, n: nat)
    requires Initial(s) && s.Inv() && s.robin == 0 && 0 <= pid < |s.proc| && off < s.pageSize
    requires n + 1 == |s.mem| <= s.virtPages
    ensures var t := Filled(s, pid, off, b, n);
      t.View(pid, 0) == Absent && PagingCommands.Load(t, pid, 0, off).1 == Fault
  {
    var t := Overfilled(s, pid, off, b, n - 1);
  }

  // ------------------------------------------------------------------ reading another page

  /** Byte off of page 1 is c. */
  ghost predicate OnPageOne(s: State, pid: int, off: nat, c: Byte) {
    var v := s.View(pid, 1);
    v.Visible? && off < |v.data| && v.data[off] == Overlay(c)
  }

  lemma StoreLost(s: State, pid: int, off: nat, c: Byte)
    requires Lost(s, pid) && 2 <= s.virtPages && off < s.pageSize
    ensures var t := PagingCommands.Store(s, pid, 1, off, c).0; Lost(t, pid) && OnPageOne(t, pid, off, c)
  {
    StoreMoves(s, pid, 1, off, c);
    var t := PagingCommands.Store(s, pid, 1, off, c).0;
    assert Kept(s, t, pid, 0);
    SameOwners(s, t, pid);
  }

  lemma SameOwners(s: State, t: State, pid: int)
    requires s.Inv() && t.Inv() && Full(s) && t.robin == s.robin && |t.mem| == |s.mem|
    requires forall q, m :: t.Live(q, m) == s.Live(q, m)
    requires forall q, m | s.Live(q, m) :: t.Entry(q, m) == s.Entry(q, m)
    ensures Full(t) && Victim(t, pid) == Victim(s, pid)
  {
    forall f | 0 <= f < |s.mem| ensures t.Allocated(f) && Owner(t, f) == Owner(s, f) {
      var k := Owner(s, f);
      OwnerIs(t, k.0, k.1, f);
    }
  }

  lemma RemapShows(s: State, pid: int, off: nat, c: Byte)
    requires Lost(s, pid) && off < s.pageSize && OnPageOne(s, pid, off, c)
    ensures var t := MapPage(s, pid, 0, true).0;
      t.Inv() && t.pageSize == s.pageSize && PagingCommands.Load(t, pid, 0, off).1 == Value(c)
  {
    assert s.Live(pid, TABLE);
    NewPageShowsVictim(s, pid, 0, true);
    RawOfOverlay(c);
  }

  /** The state after storing at the same offset of page 1, and mapping page 0 again. */
  ghost function Refilled(s: State, pid: int, off: nat, c: Byte): (t: State)
    requires s.Inv() && 0 <= pid < |s.proc| && 2 <= s.virtPages && off < s.pageSize
    ensures t.Inv() && t.pageSize == s.pageSize && t.virtPages == s.virtPages && |t.proc| == |s.proc|
  {
    MapPage(PagingCommands.Store(s, pid, 1, off, c).0, pid, 0, true).0
  }

  /** If that process then stores at the same offset of page 1 and maps page 0 again, a load from page 0
      yields what it stored to page 1. */
  lemma PageZeroIsMisread(s: State, pid: int, off: nat, b: Byte, c: Byte, n: nat)
    requires Initial(s) && s.Inv() && s.robin == 0 && 0 <= pid < |s.proc| && off < s.pageSize
    requires n + 1 == |s.mem| <= s.virtPages
    ensures var t := Refilled(Filled(s, pid, off, b, n), pid, off, c);
      PagingCommands.Load(t, pid, 0, off).1 == Value(c)
  {
    var u := Overfilled(s, pid, off, b, n - 1);
    StoreLost(u, pid, off, c);
    RemapShows(PagingCommands.Store(u, pid, 1, off, c).0, pid, off, c);
  }

  // ------------------------------------------------------------------ as runs of commands

  /** With two frames: map page 0, store to its first byte, and map page 1. */
  function Forgetting(pid: int, b: Byte, pageSize: nat): seq<Command> {
    [Map(pid, 0, true)] + [Store(pid, 0, b)] + [Map(pid, pageSize, true)]
  }

  /** And then store to the first byte of page 1, and map page 0 again. */
  function Misreading(pid: int, b: Byte, c: Byte, pageSize: nat): seq<Command> {
    Forgetting(pid, b, pageSize) + [Store(pid, pageSize, c)] + [Map(pid, 0, true)]
  }

  lemma RunLast(s: State, cs: seq<Command>, c: Command)
    requires s.Inv() && AllInRange(s, cs) && InRange(s, c)
    ensures AllInRange(s, cs + [c]) && InRange(Run(s, cs), c) && Run(s, cs + [c]) == Step(Run(s, cs), c).0
  {
    assert (cs + [c])[..|cs|] == cs;
  }

  /** Address a is the first of page n. */
  predicate Starts(s: State, a: int, n: int) {
    InSpace(s, a) && PageNo(s, a) == n && Offset(s, a) == 0
  }

  lemma StartsPages(s: State)
    requires s.Shape()
    ensures Starts(s, 0, 0) && (2 <= s.virtPages ==> Starts(s, s.pageSize, 1))
  {
    assert Grid.Quotient(s.pageSize, s.pageSize) == 1 + Grid.Quotient(0, s.pageSize);
  }

  lemma StepsStart(t: State, pid: int, a: int, n: int, b: Byte)
    requires t.Inv() && 0 <= pid < |t.proc| && Starts(t, a, n)
    ensures InRange(t, Map(pid, a, true)) && InRange(t, Store(pid, a, b))
    ensures Step(t, Map(pid, a, true)).0 == MapPage(t, pid, n, true).0
    ensures Step(t, Store(pid, a, b)).0 == PagingCommands.Store(t, pid, n, 0, b).0
  {
  }

  lemma RunThenMap(s: State, cs: seq<Command>, pid: int, a: int, n: int)
    requires s.Inv() && AllInRange(s, cs) && 0 <= pid < |s.proc| && Starts(s, a, n)
    ensures AllInRange(s, cs + [Map(pid, a, true)]) && pid < |Run(s, cs).proc| && n < Run(s, cs).virtPages
    ensures Run(s, cs + [Map(pid, a, true)]) == MapPage(Run(s, cs), pid, n, true).0
  {
    RunLast(s, cs, Map(pid, a, true));
    StepsStart(Run(s, cs), pid, a, n, 0);
  }

  lemma RunThenStore(s: State, cs: seq<Command>, pid: int, a: int, n: int, b: Byte)
    requires s.Inv() && AllInRange(s, cs) && 0 <= pid < |s.proc| && Starts(s, a, n)
    ensures AllInRange(s, cs + [Store(pid, a, b)]) && pid < |Run(s, cs).proc| && n < Run(s, cs).virtPages
    ensures Run(s, cs + [Store(pid, a, b)]) == PagingCommands.Store(Run(s, cs), pid, n, 0, b).0
  {
    RunLast(s, cs, Store(pid, a, b));
    StepsStart(Run(s, cs), pid, a, n, b);
  }

  lemma ForgettingRuns(s: State, pid: int, b: Byte)
    requires s.Inv() && 0 <= pid < |s.proc| && 2 <= s.virtPages
    ensures AllInRange(s, Forgetting(pid, b, s.pageSize))
    ensures Run(s, Forgetting(pid, b, s.pageSize)) == Filled(s, pid, 0, b, 1)
  {
    var first, second := Map(pid, 0, true), Store(pid, 0, b);
    StartsPages(s);
    assert [] + [first] == [first];
    RunThenMap(s, [], pid, 0, 0);
    RunThenStore(s, [first], pid, 0, 0, b);
    RunThenMap(s, [first] + [second], pid, s.pageSize, 1);
    assert Filled(s, pid, 0, b, 1) == MapPage(Filled(s, pid, 0, b, 0), pid, 1, true).0;
  }

  lemma MisreadingRuns(s: State, pid: int, b: Byte, c: Byte)
    requires s.Inv() && 0 <= pid < |s.proc| && 2 <= s.virtPages
    ensures AllInRange(s, Misreading(pid, b, c, s.pageSize))
    ensures Run(s, Misreading(pid, b, c, s.pageSize)) == Refilled(Filled(s, pid, 0, b, 1), pid, 0, c)
  {
    var before := Forgetting(pid, b, s.pageSize);
    StartsPages(s);
    ForgettingRuns(s, pid, b);
    RunThenStore(s, before, pid, s.pageSize, 1, c);
    RunThenMap(s, before + [Store(pid, s.pageSize, c)], pid, 0, 0);
  }

  lemma ThenLoad(t: State, pid: int)
    requires t.Inv() && 0 <= pid < |t.proc|
    ensures InRange(t, Load(pid, 0)) && Step(t, Load(pid, 0)).1 == Got(PagingCommands.Load(t, pid, 0, 0).1)
  {
    StartsPages(t);
  }

  lemma PrivateLast(cs: seq<Command>, c: Command, pid: int, a: int, pageSize: nat)
    requires 0 < pageSize
    ensures PrivateRun(Unmapped, cs + [c], pid, a, pageSize) ==
            PrivateStep(PrivateRun(Unmapped, cs, pid, a, pageSize), c, pid, a, pageSize)
    ensures ZeroMaps(cs + [c], pageSize) ==
            ZeroMaps(cs, pageSize) + if c.Map? && Grid.Quotient(c.address, pageSize) == 0 then 1 else 0
  {
    assert (cs + [c])[..|cs|] == cs;
  }

  /** The reference memory has what was stored to page 0 after both runs. */
  lemma PrivateRemembers(pid: int, b: Byte, c: Byte, pageSize: nat)
    requires 0 < pageSize
    ensures PrivateRun(Unmapped, Forgetting(pid, b, pageSize), pid, 0, pageSize) == Mapped(true, Is(b))
    ensures PrivateRun(Unmapped, Misreading(pid, b, c, pageSize), pid, 0, pageSize) == Mapped(true, Is(b))
    ensures ZeroMaps(Forgetting(pid, b, pageSize), pageSize) == 1
    ensures ZeroMaps(Misreading(pid, b, c, pageSize), pageSize) == 2
  {
    var first, second, cs := Map(pid, 0, true), Store(pid, 0, b), Forgetting(pid, b, pageSize);
    assert Grid.Quotient(pageSize, pageSize) == 1 + Grid.Quotient(0, pageSize);
    assert [] + [first] == [first];
    PrivateLast([], first, pid, 0, pageSize);
    PrivateLast([first], second, pid, 0, pageSize);
    PrivateLast([first] + [second], Map(pid, pageSize, true), pid, 0, pageSize);
    PrivateLast(cs, Store(pid, pageSize, c), pid, 0, pageSize);
    PrivateLast(cs + [Store(pid, pageSize, c)], first, pid, 0, pageSize);
  }

  lemma EnoughSlots(s: State, cs: seq<Command>, zeros: nat)
    requires Initial(s) && s.Inv() && AllInRange(s, cs) && ZeroMaps(cs, s.pageSize) == zeros
    ensures |s.proc| * s.virtPages + zeros <= |s.store| ==> Run(s, cs).dropped == 0
  {
    if |s.proc| * s.virtPages + zeros <= |s.store| { NothingDropped(s, cs); }
  }

  lemma ForgettingFaults(s: State, pid: int, b: Byte)
    requires Initial(s) && s.Inv() && s.robin == 0 && |s.mem| == 2 <= s.virtPages && 0 <= pid < |s.proc|
    ensures var cs := Forgetting(pid, b, s.pageSize);
      AllInRange(s, cs) && InRange(Run(s, cs), Load(pid, 0)) && Step(Run(s, cs), Load(pid, 0)).1 == Got(Fault)
  {
    ForgettingRuns(s, pid, b);
    PageZeroIsForgotten(s, pid, 0, b, 1);
    ThenLoad(Filled(s, pid, 0, b, 1), pid);
  }

  lemma MisreadingYields(s: State, pid: int, b: Byte, c: Byte)
    requires Initial(s) && s.Inv() && s.robin == 0 && |s.mem| == 2 <= s.virtPages && 0 <= pid < |s.proc|
    ensures var cs := Misreading(pid, b, c, s.pageSize);
      AllInRange(s, cs) && InRange(Run(s, cs), Load(pid, 0)) && Step(Run(s, cs), Load(pid, 0)).1 == Got(Value(c))
  {
    MisreadingRuns(s, pid, b, c);
    PageZeroIsMisread(s, pid, 0, b, c, 1);
    ThenLoad(Refilled(Filled(s, pid, 0, b, 1), pid, 0, c), pid);
  }

  /** As a run, on a machine of two frames: the load faults, where the reference memory still has the
      value. It is not for want of room in the store. */
  lemma TwoFramesForget(s: State, pid: int, b: Byte)
    requires Initial(s) && s.Inv() && s.robin == 0 && |s.mem| == 2 <= s.virtPages && 0 <= pid < |s.proc|
    ensures var cs := Forgetting(pid, b, s.pageSize);
      && AllInRange(s, cs) && InRange(Run(s, cs), Load(pid, 0))
      && Step(Run(s, cs), Load(pid, 0)).1 == Got(Fault)
      && PrivateRun(Unmapped, cs, pid, 0, s.pageSize) == Mapped(true, Is(b))
      && (|s.proc| * s.virtPages + 1 <= |s.store| ==> Run(s, cs).dropped == 0)
  {
    ForgettingFaults(s, pid, b);
    PrivateRemembers(pid, b, 0, s.pageSize);
    EnoughSlots(s, Forgetting(pid, b, s.pageSize), 1);
  }

  /** And the run that misreads: the load yields page 1's byte. */
  lemma TwoFramesMisread(s: State, pid: int, b: Byte, c: Byte)
    requires Initial(s) && s.Inv() && s.robin == 0 && |s.mem| == 2 <= s.virtPages && 0 <= pid < |s.proc|
    ensures var cs := Misreading(pid, b, c, s.pageSize);
      && AllInRange(s, cs) && InRange(Run(s, cs), Load(pid, 0))
      && Step(Run(s, cs), Load(pid, 0)).1 == Got(Value(c))
      && PrivateRun(Unmapped, cs, pid, 0, s.pageSize) == Mapped(true, Is(b))
      && (|s.proc| * s.virtPages + 2 <= |s.store| ==> Run(s, cs).dropped == 0)
  {
    MisreadingYields(s, pid, b, c);
    PrivateRemembers(pid, b, c, s.pageSize);
    EnoughSlots(s, Misreading(pid, b, c, s.pageSize), 2);
  }

  /** There are such machines: the program's own, with four frames, and one with two. */
  lemma Machines() returns (program: State, small: State)
    ensures Initial(program) && program.Inv() && Initial(small) && small.Inv()
    ensures (program.pageSize, |program.mem|, |program.proc|, program.virtPages, |program.store|) == (16, 4, 4, 4, 64)
    ensures (small.pageSize, |small.mem|, |small.proc|, small.virtPages, |small.store|) == (2, 2, 1, 2, 4)
    ensures program.robin == 0 && small.robin == 0
  {
    var z := Page(false, false, 0, 0);
    var data := seq(16, _ => z);
    program := State(16, 4, seq(4, _ => data), [z, z, z, z], seq(64, _ => Slot(data, -1, 0, false)), 0, 0);
    small := State(2, 2, [[z, z], [z, z]], [z], seq(4, _ => Slot([z, z], -1, 0, false)), 0, 0);
    InitialInv(program);
    InitialInv(small);
  }

  /** The program's own machine: page 0 is lost, and then misread. */
  lemma ProgramForgets() returns (s: State)
    ensures Initial(s) && s.Inv() && s.robin == 0
    ensures (s.pageSize, |s.mem|, |s.proc|, s.virtPages, |s.store|) == (16, 4, 4, 4, 64)
    ensures PagingCommands.Load(Filled(s, 0, 0, 7, 3), 0, 0, 0).1 == Fault
    ensures PagingCommands.Load(Refilled(Filled(s, 0, 0, 7, 3), 0, 0, 9), 0, 0, 0).1 == Value(9)
  {
    var small;
    s, small := Machines();
    PageZeroIsForgotten(s, 0, 0, 7, 3);
    PageZeroIsMisread(s, 0, 0, 7, 9, 3);
  }

  /** A machine of two frames, as runs; nothing is dropped. */
  lemma SmallMachineForgets() returns (s: State)
    ensures Initial(s) && s.Inv()
    ensures var cs := Forgetting(0, 7, 2);
      && AllInRange(s, cs) && Run(s, cs).dropped == 0 && InRange(Run(s, cs), Load(0, 0))
      && Step(Run(s, cs), Load(0, 0)).1 == Got(Fault)
    ensures var cs := Misreading(0, 7, 9, 2);
      && AllInRange(s, cs) && Run(s, cs).dropped == 0 && InRange(Run(s, cs), Load(0, 0))
      && Step(Run(s, cs), Load(0, 0)).1 == Got(Value(9))
  {
    var program;
    program, s := Machines();
    TwoFramesForget(s, 0, 7);
    TwoFramesMisread(s, 0, 7, 9);
  }
}

/** Runs of the demand-paged machine, and their refinement of a private memory.

    The reference machine knows one address of one process and nothing of frames, tables or
    evictions. Over every run of commands by any processes, in any order, what the paged machine
    holds for that address is what the reference machine says. */
module PagingRuns {
  import opened PageBits
  import opened PagingState
  import opened PagingEvict
  import opened PagingOps
  import opened PagingCommands
  import Grid

  datatype Command =
    | Map(pid: int, address: int, write: bool)
    | Store(pid: int, address: int, value: Byte)
    | Load(pid: int, address: int)

  datatype Answer = Done(ok: bool) | Got(loaded: Loaded)

  /** Address a is in the virtual address space, which is virtPages pages long. */
  predicate InSpace(s: State, a: int) {
    0 < s.pageSize && 0 <= a && Grid.Quotient(a, s.pageSize) < s.virtPages
  }

  function PageNo(s: State, a: int): (n: int)
    requires InSpace(s, a)
    ensures 0 <= n < s.virtPages
  {
    Grid.Quotient(a, s.pageSize)
  }

  function Offset(s: State, a: int): (off: int)
    requires InSpace(s, a)
    ensures 0 <= off < s.pageSize
  {
    Grid.Remainder(a, s.pageSize)
  }

  /** What the input loop lets through. */
  predicate InRange(s: State, c: Command) {
    0 <= c.pid < |s.proc| && InSpace(s, c.address)
  }

  /** The sizes are fixed, dead slots stay, and nothing is dropped before the store is overfull. */
  ghost predicate Extends(s: State, t: State) {
    && t.pageSize == s.pageSize && t.virtPages == s.virtPages
    && |t.mem| == |s.mem| && |t.proc| == |s.proc| && |t.store| == |s.store|
    && s.dropped <= t.dropped && Excused(s, t)
    && (forall p | 0 <= p < |s.proc| && s.HasDead(p) :: t.HasDead(p))
  }

  lemma KeepsExtends(s: State, t: State, g: int)
    requires Keeps(s, t, g)
    ensures Extends(s, t)
  {
    forall p | 0 <= p < |s.proc| && s.HasDead(p) ensures t.HasDead(p) { assert Around(s, t, p, g); }
  }

  lemma ChangesExtends(s: State, t: State, p: int, n: int, g: int)
    requires Changes(s, t, p, n, g)
    ensures Extends(s, t)
  {
    forall q | 0 <= q < |s.proc| && s.HasDead(q) ensures t.HasDead(q) { assert Around(s, t, q, g); }
  }

  ghost function Step(s: State, c: Command): (r: (State, Answer))
    requires s.Inv() && InRange(s, c)
    ensures r.0.Inv() && Extends(s, r.0)
    ensures c.Map? ==> r.1 == Done(!s.Live(c.pid, PageNo(s, c.address)))
  {
    var n, off := PageNo(s, c.address), Offset(s, c.address);
    match c
    case Map(pid, _, w) =>
      var (t, ok) := MapPage(s, pid, n, w);
      ChangesExtends(s, t, pid, n, pid);
      (t, Done(ok))
    case Store(pid, _, b) =>
      var (t, ok) := PagingCommands.Store(s, pid, n, off, b);
      if ok then ChangesExtends(s, t, pid, n, -1); (t, Done(true))
      else KeepsExtends(s, t, -1); (t, Done(false))
    case Load(pid, _) =>
      var (t, got) := PagingCommands.Load(s, pid, n, off);
      KeepsExtends(s, t, -1);
      (t, Got(got))
  }

  predicate AllInRange(s: State, cs: seq<Command>) {
    forall i | 0 <= i < |cs| :: InRange(s, cs[i])
  }

  ghost function Run(s: State, cs: seq<Command>): (t: State)
    requires s.Inv() && AllInRange(s, cs)
    ensures t.Inv() && Extends(s, t)
  {
    if cs == [] then s
    else
      var t := Run(s, cs[..|cs| - 1]);
      assert InRange(t, cs[|cs| - 1]);
      Step(t, cs[|cs| - 1]).0
  }

  /** The machine as the program starts it: no tables, and every slot of the store unused. */
  ghost predicate Initial(s: State) {
    && s.Shape()
    && (forall p | 0 <= p < |s.proc| :: !s.proc[p].valid)
    && (forall i | 0 <= i < |s.store| :: !s.store[i].Used())
    && s.dropped == 0
  }

  lemma InitialInv(s: State)
    requires Initial(s)
    ensures s.Inv()
    ensures forall p, n | 0 <= p :: !s.Live(p, n) && s.Stored(p, n) == |s.store|
  {
  }

  /** Every state of every run satisfies the invariant: frames of tables and pages are in range and
      pairwise distinct, and each table and each page is in at most one place. No eviction has been
      dropped unless the dead slots have used up the room for live ones. */
  lemma ReachableStates(s: State, cs: seq<Command>)
    requires Initial(s) && AllInRange(s, cs)
    ensures s.Inv() && Run(s, cs).Inv()
    ensures Run(s, cs).dropped == 0 || Run(s, cs).Overfull()
    ensures var t := Run(s, cs);
      forall p, n, i | t.Live(p, n) && 0 <= i < |t.store| :: !t.store[i].Holds(p, n)
  {
    InitialInv(s);
    var t := Run(s, cs);
    forall p, n, i | t.Live(p, n) && 0 <= i < |t.store|
      ensures !t.store[i].Holds(p, n)
    {
      if t.store[i].Used() { assert t.SlotOk(t.store[i]); }
    }
  }

  /** How many commands map an address on page 0. */
  function ZeroMaps(cs: seq<Command>, pageSize: nat): nat
    requires 0 < pageSize
  {
    if cs == [] then 0
    else ZeroMaps(cs[..|cs| - 1], pageSize) +
         var c := cs[|cs| - 1]; if c.Map? && Grid.Quotient(c.address, pageSize) == 0 then 1 else 0
  }

  lemma StepDooms(s: State, c: Command)
    requires s.Inv() && InRange(s, c)
    ensures Step(s, c).0.Doomed() <= s.Doomed() + if c.Map? && PageNo(s, c.address) == 0 then 1 else 0
  {
  }

  lemma {:induction false} RunDooms(s: State, cs: seq<Command>)
    requires s.Inv() && AllInRange(s, cs)
    ensures Run(s, cs).Doomed() <= s.Doomed() + ZeroMaps(cs, s.pageSize)
  {
    if cs != [] {
      var before := cs[..|cs| - 1];
      var t := Run(s, before);
      RunDooms(s, before);
      assert InRange(t, cs[|cs| - 1]);
      StepDooms(t, cs[|cs| - 1]);
    }
  }

  /** Enough room, counted before the run: with a slot for each table and each page but page 0, and
      one more for each command that maps a page 0, no eviction is ever dropped. */
  lemma NothingDropped(s: State, cs: seq<Command>)
    requires Initial(s) && s.Inv() && AllInRange(s, cs)
    requires |s.proc| * s.virtPages + ZeroMaps(cs, s.pageSize) <= |s.store|
    ensures Run(s, cs).dropped == 0
  {
    ReachableStates(s, cs);
    RunDooms(s, cs);
    assert DeadSlots(s.store) == {} && s.PageZeros() == {};
  }

  // ------------------------------------------------------------------ the reference machine

  datatype Known = Unknown | Is(b: Byte)

  /** One address of one process. A freshly mapped page has unknown contents. */
  datatype Private = Unmapped | Mapped(write: bool, value: Known)

  function PrivateMap(r: Private, w: bool): Private {
    if r.Mapped? then r.(write := w) else Mapped(w, Unknown)
  }

  function PrivateStore(r: Private, b: Byte): Private {
    if r.Mapped? && r.write then r.(value := Is(b)) else r
  }

  predicate SamePage(a: int, b: int, pageSize: nat) {
    Grid.Quotient(a, pageSize) == Grid.Quotient(b, pageSize)
  }

  function PrivateStep(r: Private, c: Command, pid: int, a: int, pageSize: nat): Private
    requires 0 < pageSize
  {
    match c
    case Map(p, b, w) => if p == pid && SamePage(b, a, pageSize) then PrivateMap(r, w) else r
    case Store(p, b, v) => if p == pid && b == a then PrivateStore(r, v) else r
    case Load(_, _) => r
  }

  function PrivateRun(r: Private, cs: seq<Command>, pid: int, a: int, pageSize: nat): Private
    requires 0 < pageSize
  {
    if cs == [] then r
    else PrivateStep(PrivateRun(r, cs[..|cs| - 1], pid, a, pageSize), cs[|cs| - 1], pid, a, pageSize)
  }

  /** The paged machine holds for byte off of page n of pid what the reference machine says. */
  ghost predicate Agrees(s: State, pid: int, n: int, off: nat, r: Private) {
    var v := s.View(pid, n);
    match r
    case Unmapped => v == Absent
    case Mapped(w, value) =>
      && s.HasTable(pid)
      && v.Visible? && v.write == w
      && (value.Is? ==> off < |v.data| && Raw(v.data[off]) == value.b)
  }

  /** Nothing held for page n of pid can have been lost on the way from s to t: no eviction was
      dropped, and n is not 0 or page 0 of pid was never evicted. */
  ghost predicate Safe(s: State, t: State, pid: int, n: int) {
    t.dropped == s.dropped && (n >= 1 || !t.HasDead(pid))
  }

  lemma KeptAgrees(s: State, t: State, pid: int, n: int, off: nat, r: Private, g: int)
    requires 0 <= n && Agrees(s, pid, n, off, r) && Safe(s, t, pid, n)
    requires Kept(s, t, pid, n) && Around(s, t, pid, g)
    ensures Agrees(t, pid, n, off, r)
  {
  }

  lemma MapRefines(s: State, p: int, m: int, w: bool, pid: int, n: int, off: nat, r: Private)
    requires s.Inv() && 0 <= p < |s.proc| && 0 <= m < s.virtPages && 0 <= pid < |s.proc| && 0 <= n
    requires Agrees(s, pid, n, off, r) && Safe(s, MapPage(s, p, m, w).0, pid, n)
    ensures Agrees(MapPage(s, p, m, w).0, pid, n, off, if (p, m) == (pid, n) then PrivateMap(r, w) else r)
  {
    var t := MapPage(s, p, m, w).0;
    if (p, m) != (pid, n) {
      assert Kept(s, t, pid, n) && Around(s, t, pid, p);
      KeptAgrees(s, t, pid, n, off, r, p);
    } else {
      assert t.Live(p, TABLE);
    }
  }

  lemma StoreRefines(s: State, p: int, m: int, o: nat, b: Byte, pid: int, n: int, off: nat, r: Private)
    requires s.Inv() && 0 <= p < |s.proc| && 0 <= m < s.virtPages && 0 <= pid < |s.proc| && 0 <= n
    requires o < s.pageSize && off < s.pageSize
    requires Agrees(s, pid, n, off, r) && Safe(s, PagingCommands.Store(s, p, m, o, b).0, pid, n)
    ensures Agrees(PagingCommands.Store(s, p, m, o, b).0, pid, n, off,
                   if (p, m, o) == (pid, n, off) then PrivateStore(r, b) else r)
  {
    var (t, ok) := PagingCommands.Store(s, p, m, o, b);
    assert Around(s, t, pid, -1);
    if (p, m) != (pid, n) || !ok {
      assert Kept(s, t, pid, n);
      KeptAgrees(s, t, pid, n, off, r, -1);
    } else {
      RawOfOverlay(b);
    }
  }

  lemma LoadRefines(s: State, p: int, m: int, o: nat, pid: int, n: int, off: nat, r: Private)
    requires s.Inv() && 0 <= p < |s.proc| && 0 <= m < s.virtPages && 0 <= pid < |s.proc| && 0 <= n && o < s.pageSize
    requires Agrees(s, pid, n, off, r) && Safe(s, PagingCommands.Load(s, p, m, o).0, pid, n)
    ensures Agrees(PagingCommands.Load(s, p, m, o).0, pid, n, off, r)
  {
    var t := PagingCommands.Load(s, p, m, o).0;
    assert Kept(s, t, pid, n) && Around(s, t, pid, -1);
    KeptAgrees(s, t, pid, n, off, r, -1);
  }

  lemma MapStepRefines(s: State, p: int, b: int, w: bool, pid: int, a: int, r: Private)
    requires s.Inv() && InRange(s, Map(p, b, w)) && 0 <= pid < |s.proc| && InSpace(s, a)
    requires Agrees(s, pid, PageNo(s, a), Offset(s, a), r)
    requires Safe(s, MapPage(s, p, PageNo(s, b), w).0, pid, PageNo(s, a))
    ensures Agrees(MapPage(s, p, PageNo(s, b), w).0, pid, PageNo(s, a), Offset(s, a),
                   PrivateStep(r, Map(p, b, w), pid, a, s.pageSize))
  {
    MapRefines(s, p, PageNo(s, b), w, pid, PageNo(s, a), Offset(s, a), r);
  }

  lemma SameSpot(s: State, a: int, b: int)
    requires InSpace(s, a) && InSpace(s, b)
    ensures PageNo(s, a) == PageNo(s, b) && Offset(s, a) == Offset(s, b) <==> a == b
  {
    if PageNo(s, a) == PageNo(s, b) && Offset(s, a) == Offset(s, b) { Grid.SameParts(s.pageSize, a, b); }
  }

  lemma StoreStepRefines(s: State, p: int, b: int, v: Byte, pid: int, a: int, r: Private)
    requires s.Inv() && InRange(s, Store(p, b, v)) && 0 <= pid < |s.proc| && InSpace(s, a)
    requires Agrees(s, pid, PageNo(s, a), Offset(s, a), r)
    requires Safe(s, PagingCommands.Store(s, p, PageNo(s, b), Offset(s, b), v).0, pid, PageNo(s, a))
    ensures var t := PagingCommands.Store(s, p, PageNo(s, b), Offset(s, b), v).0;
      Agrees(t, pid, PageNo(s, a), Offset(s, a), PrivateStep(r, Store(p, b, v), pid, a, s.pageSize))
  {
    SameSpot(s, b, a);
    StoreRefines(s, p, PageNo(s, b), Offset(s, b), v, pid, PageNo(s, a), Offset(s, a), r);
  }

  lemma StepRefines(s: State, c: Command, pid: int, a: int, r: Private)
    requires s.Inv() && InRange(s, c) && 0 <= pid < |s.proc| && InSpace(s, a)
    requires Agrees(s, pid, PageNo(s, a), Offset(s, a), r) && Safe(s, Step(s, c).0, pid, PageNo(s, a))
    ensures Agrees(Step(s, c).0, pid, PageNo(s, a), Offset(s, a), PrivateStep(r, c, pid, a, s.pageSize))
  {
    var n, off := PageNo(s, a), Offset(s, a);
    var m, o := PageNo(s, c.address), Offset(s, c.address);
    if c.Map? {
      MapStepRefines(s, c.pid, c.address, c.write, pid, a, r);
    } else if c.Store? {
      StoreStepRefines(s, c.pid, c.address, c.value, pid, a, r);
    } else {
      LoadRefines(s, c.pid, m, o, pid, n, off, r);
    }
  }

  lemma SafeSoFar(s: State, t: State, u: State, pid: int, n: int)
    requires Extends(s, t) && Extends(t, u) && 0 <= pid < |s.proc| && Safe(s, u, pid, n)
    ensures Safe(s, t, pid, n) && Safe(t, u, pid, n)
  {
  }

  /** Refinement over whole runs, from any state that satisfies the invariant. */
  lemma {:induction false} RunRefines(s: State, cs: seq<Command>, pid: int, a: int, r: Private)
    requires s.Inv() && AllInRange(s, cs) && 0 <= pid < |s.proc| && InSpace(s, a)
    requires Agrees(s, pid, PageNo(s, a), Offset(s, a), r) && Safe(s, Run(s, cs), pid, PageNo(s, a))
    ensures Agrees(Run(s, cs), pid, PageNo(s, a), Offset(s, a), PrivateRun(r, cs, pid, a, s.pageSize))
  {
    if cs != [] {
      var before, last := cs[..|cs| - 1], cs[|cs| - 1];
      var t := Run(s, before);
      assert InRange(t, last);
      var u := Step(t, last).0;
      assert u == Run(s, cs);
      SafeSoFar(s, t, u, pid, PageNo(s, a));
      RunRefines(s, before, pid, a, r);
      StepRefines(t, last, pid, a, PrivateRun(r, before, pid, a, s.pageSize));
    }
  }

  /** From the start, every answer is the reference machine's. A load faults exactly when the
      address is not mapped and otherwise yields the value last stored; a store succeeds exactly
      when the address is mapped for writing. */
  lemma PagingRefinesPrivateMemory(s: State, cs: seq<Command>, pid: int, a: int, b: Byte)
    requires Initial(s) && s.Inv() && AllInRange(s, cs) && 0 <= pid < |s.proc| && InSpace(s, a)
    requires Safe(s, Run(s, cs), pid, PageNo(s, a))
    ensures InRange(Run(s, cs), Load(pid, a))
    ensures var r, t := PrivateRun(Unmapped, cs, pid, a, s.pageSize), Run(s, cs);
      && (Step(t, Load(pid, a)).1 == Got(Fault) <==> r.Unmapped?)
      && (r.Mapped? && r.value.Is? ==> Step(t, Load(pid, a)).1 == Got(Value(r.value.b)))
      && Step(t, Store(pid, a, b)).1 == Done(r.Mapped? && r.write)
  {
    InitialInv(s);
    RunRefines(s, cs, pid, a, Unmapped);
    AgreesAnswer(Run(s, cs), pid, a, PrivateRun(Unmapped, cs, pid, a, s.pageSize));
  }

  lemma PastPageZero(s: State, a: int)
    requires InSpace(s, a) && s.pageSize <= a
    ensures PageNo(s, a) >= 1
  {
  }

  lemma SafeRun(s: State, cs: seq<Command>, pid: int, a: int)
    requires Initial(s) && s.Inv() && AllInRange(s, cs) && InSpace(s, a)
    requires |s.proc| * s.virtPages + ZeroMaps(cs, s.pageSize) <= |s.store| && s.pageSize <= a
    ensures Safe(s, Run(s, cs), pid, PageNo(s, a))
  {
    NothingDropped(s, cs);
    PastPageZero(s, a);
  }

  /** The same without any condition on what the run does, for every address that is not on page 0:
      the store only has to be large enough. */
  lemma EnoughStore(s: State, cs: seq<Command>, pid: int, a: int, b: Byte)
    requires Initial(s) && s.Inv() && AllInRange(s, cs) && 0 <= pid < |s.proc| && InSpace(s, a)
    requires |s.proc| * s.virtPages + ZeroMaps(cs, s.pageSize) <= |s.store| && s.pageSize <= a
    ensures InRange(Run(s, cs), Load(pid, a))
    ensures var r, t := PrivateRun(Unmapped, cs, pid, a, s.pageSize), Run(s, cs);
      && (Step(t, Load(pid, a)).1 == Got(Fault) <==> r.Unmapped?)
      && (r.Mapped? && r.value.Is? ==> Step(t, Load(pid, a)).1 == Got(Value(r.value.b)))
      && Step(t, Store(pid, a, b)).1 == Done(r.Mapped? && r.write)
  {
    SafeRun(s, cs, pid, a);
    PagingRefinesPrivateMemory(s, cs, pid, a, b);
  }

  predicate NeverStores(cs: seq<Command>, pid: int, a: int) {
    forall i | 0 <= i < |cs| :: !(cs[i].Store? && cs[i].pid == pid && cs[i].address == a)
  }

  lemma {:induction false} ValueStays(cs: seq<Command>, pid: int, a: int, pageSize: nat, w: bool, b: Byte)
    requires 0 < pageSize && NeverStores(cs, pid, a)
    ensures var r := PrivateRun(Mapped(w, Is(b)), cs, pid, a, pageSize); r.Mapped? && r.value == Is(b)
  {
    if cs != [] { ValueStays(cs[..|cs| - 1], pid, a, pageSize, w, b); }
  }

  lemma StoreAgrees(s: State, pid: int, a: int, b: Byte)
    requires s.Inv() && InRange(s, Load(pid, a)) && Step(s, Store(pid, a, b)).1 == Done(true)
    ensures var t := Step(s, Store(pid, a, b)).0;
      InSpace(t, a) && Agrees(t, pid, PageNo(t, a), Offset(t, a), Mapped(true, Is(b)))
  {
    RawOfOverlay(b);
    assert Around(s, Step(s, Store(pid, a, b)).0, pid, -1);
  }

  lemma AgreesAnswer(s: State, pid: int, a: int, r: Private)
    requires s.Inv() && InRange(s, Load(pid, a)) && Agrees(s, pid, PageNo(s, a), Offset(s, a), r)
    ensures Step(s, Load(pid, a)).1 == Got(Fault) <==> r.Unmapped?
    ensures r.Mapped? && r.value.Is? ==> Step(s, Load(pid, a)).1 == Got(Value(r.value.b))
    ensures forall b: Byte :: Step(s, Store(pid, a, b)).1 == Done(r.Mapped? && r.write)
  {
  }

  /** Recall: a stored value is what every later load yields, whatever any process does meanwhile,
      until that process stores to that address again. */
  lemma Recall(s: State, pid: int, a: int, b: Byte, t: State, cs: seq<Command>)
    requires s.Inv() && InRange(s, Load(pid, a)) && Step(s, Store(pid, a, b)) == (t, Done(true))
    requires t.Inv() && AllInRange(t, cs) && NeverStores(cs, pid, a) && Safe(t, Run(t, cs), pid, PageNo(s, a))
    ensures InRange(Run(t, cs), Load(pid, a))
    ensures Step(Run(t, cs), Load(pid, a)).1 == Got(Value(b))
  {
    StoreAgrees(s, pid, a, b);
    RunRefines(t, cs, pid, a, Mapped(true, Is(b)));
    ValueStays(cs, pid, a, t.pageSize, true, b);
    AgreesAnswer(Run(t, cs), pid, a, PrivateRun(Mapped(true, Is(b)), cs, pid, a, t.pageSize));
  }

  // ------------------------------------------------------------------ without any proviso

  /** No command of pid stores at address a or maps its page. */
  predicate LeavesAlone(c: Command, pid: int, a: int, pageSize: nat)
    requires 0 < pageSize
  {
    c.pid == pid ==> !(c.Store? && c.address == a) && !(c.Map? && SamePage(c.address, a, pageSize))
  }

  /** Byte off of page n of pid is b, or the page is gone. */
  ghost predicate IsOrGone(s: State, pid: int, n: int, off: nat, b: Byte) {
    var v := s.View(pid, n);
    v == Absent || (off < |v.data| && Raw(v.data[off]) == b)
  }

  lemma StepIsOrGone(s: State, c: Command, pid: int, a: int, b: Byte)
    requires s.Inv() && InRange(s, c) && 0 <= pid < |s.proc| && InSpace(s, a)
    requires LeavesAlone(c, pid, a, s.pageSize) && IsOrGone(s, pid, PageNo(s, a), Offset(s, a), b)
    ensures IsOrGone(Step(s, c).0, pid, PageNo(s, a), Offset(s, a), b)
  {
    var n, m := PageNo(s, a), PageNo(s, c.address);
    var t := Step(s, c).0;
    if c.Store? && (c.pid, m) == (pid, n) && Step(s, c).1 == Done(true) {
      SameSpot(s, a, c.address);
    } else {
      assert Kept(s, t, pid, n);
    }
  }

  lemma {:induction false} RunIsOrGone(s: State, cs: seq<Command>, pid: int, a: int, b: Byte)
    requires s.Inv() && AllInRange(s, cs) && 0 <= pid < |s.proc| && InSpace(s, a)
    requires forall i | 0 <= i < |cs| :: LeavesAlone(cs[i], pid, a, s.pageSize)
    requires IsOrGone(s, pid, PageNo(s, a), Offset(s, a), b)
    ensures IsOrGone(Run(s, cs), pid, PageNo(s, a), Offset(s, a), b)
  {
    if cs != [] {
      var before, last := cs[..|cs| - 1], cs[|cs| - 1];
      RunIsOrGone(s, before, pid, a, b);
      assert InRange(Run(s, before), last);
      StepIsOrGone(Run(s, before), last, pid, a, b);
    }
  }

  /** A wrong value is never read: after a successful store to any page, page 0 included, and whatever
      evictions drop, later loads yield that value or fault, until the process stores there or maps
      that page again. */
  lemma RecallOrFault(s: State, pid: int, a: int, b: Byte, t: State, cs: seq<Command>)
    requires s.Inv() && InRange(s, Load(pid, a)) && Step(s, Store(pid, a, b)) == (t, Done(true))
    requires t.Inv() && AllInRange(t, cs) && 0 < t.pageSize
    requires forall i | 0 <= i < |cs| :: LeavesAlone(cs[i], pid, a, t.pageSize)
    ensures InRange(Run(t, cs), Load(pid, a))
    ensures var answer := Step(Run(t, cs), Load(pid, a)).1; answer == Got(Value(b)) || answer == Got(Fault)
  {
    StoreAgrees(s, pid, a, b);
    RunIsOrGone(t, cs, pid, a, b);
    IsOrGoneAnswer(Run(t, cs), pid, a, b);
  }

  lemma IsOrGoneAnswer(s: State, pid: int, a: int, b: Byte)
    requires s.Inv() && InRange(s, Load(pid, a)) && IsOrGone(s, pid, PageNo(s, a), Offset(s, a), b)
    ensures var answer := Step(s, Load(pid, a)).1; answer == Got(Value(b)) || answer == Got(Fault)
  {
  }
}

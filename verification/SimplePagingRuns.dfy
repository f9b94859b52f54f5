/** Runs of the first paging simulator: refinement of flat memory, and conservation of frames. */
module SimplePagingRuns {
  import opened SimplePaging
  import Grid

  // ------------------------------------------------------------------ flat memory

  /** One address of one process, as a private memory has it. */
  datatype Flat = Unmapped | Mapped(write: bool, value: Byte)

  function See(s: State, pid: int, n: int, off: nat): Flat {
    if s.Live(pid, n) && off < |s.mem[s.Entry(pid, n).frame]|
    then Mapped(s.Entry(pid, n).write, Raw(s.mem[s.Entry(pid, n).frame][off])) else Unmapped
  }

  datatype Command =
    | Map(pid: int, address: int, write: bool)
    | Store(pid: int, address: int, value: Byte)
    | Load(pid: int, address: int)

  predicate InRange(s: State, c: Command) {
    0 <= c.pid < |s.proc| && 0 < s.pageSize && 0 <= c.address && c.address / s.pageSize < s.virtPages
  }

  datatype Answer = Done(ok: bool) | Got(loaded: Loaded)

  ghost function Step(s: State, c: Command): (r: (State, Answer))
    requires s.Inv() && InRange(s, c)
    ensures r.0.Inv()
  {
    var n, off := c.address / s.pageSize, c.address % s.pageSize;
    match c
    case Map(pid, _, w) => var (t, ok) := MapPage(s, pid, n, w); (t, Done(ok))
    case Store(pid, _, b) => var (t, ok) := SimplePaging.Store(s, pid, n, off, b); (t, Done(ok))
    case Load(pid, _) => (s, Got(SimplePaging.Load(s, pid, n, off)))
  }

  function FlatMap(v: Flat, w: bool, ok: bool): Flat {
    if v.Mapped? then v.(write := w) else if ok then Mapped(w, 0) else Unmapped
  }

  function FlatStore(v: Flat, b: Byte): Flat {
    if v.Mapped? && v.write then v.(value := b) else v
  }

  lemma AssignSees(s: State, p: int, n: int, w: bool, f: FrameId, pid: int, m: int, off: nat)
    requires CanAssign(s, p, n, f) && 0 <= m && off < s.pageSize
    ensures s.Named(p, n)
    ensures See(Assign(s, p, n, w, f), pid, m, off) == if (pid, m) == (p, n) then Mapped(w, 0) else See(s, pid, m, off)
  {
    AssignLive(s, p, n, w, f);
    var t := Assign(s, p, n, w, f);
    if n != TABLE { assert s.Live(p, TABLE) && s.Allocated(s.proc[p].frame); }
    if s.Live(pid, m) { assert n != TABLE ==> s.Entry(pid, m).frame != s.proc[p].frame; }
  }

  lemma MapSees(s: State, p: int, n: int, w: bool, pid: int, m: int, off: nat)
    requires s.Inv() && 0 <= p < |s.proc| && 0 <= n < s.virtPages && 0 <= m && off < s.pageSize
    ensures var (t, ok) := MapPage(s, p, n, w);
      && See(t, pid, m, off) ==
         (if (pid, m) == (p, n) then FlatMap(See(s, pid, m, off), w, ok) else See(s, pid, m, off))
      && SameSizes(s, t)
  {
    var u := if s.Live(p, TABLE) then s else InitTable(s, p);
    if u != s {
      var f := FirstFree(s, 0);
      AssignSees(s, p, TABLE, true, f, pid, m, off);
      AssignLive(s, p, TABLE, true, f);
    }
    if u.Live(p, TABLE) {
      if u.Live(p, n) {
        SetWriteLive(u, p, n, w);
      } else if FirstFree(u, 0) < |u.mem| {
        AssignSees(u, p, n, w, FirstFree(u, 0), pid, m, off);
      }
    }
  }

  lemma StoreSees(s: State, p: int, n: int, o: int, b: Byte, pid: int, m: int, off: nat)
    requires s.Inv() && 0 <= p < |s.proc| && 0 <= n < s.virtPages && 0 <= m
    requires 0 <= o < s.pageSize && off < s.pageSize
    ensures var (t, ok) := SimplePaging.Store(s, p, n, o, b);
      && See(t, pid, m, off) ==
         (if (pid, m, off) == (p, n, o) then FlatStore(See(s, pid, m, off), b) else See(s, pid, m, off))
      && SameSizes(s, t)
  {
    if s.Live(p, n) && s.Entry(p, n).write {
      PokeLive(s, p, n, o, b);
      RawOfOverlay(b);
      if s.Live(pid, m) && (pid, m) != (p, n) { assert s.Entry(pid, m).frame != s.Entry(p, n).frame; }
    }
  }

  function Offset(s: State, a: int): (off: nat)
    requires 0 < s.pageSize
    ensures off < s.pageSize
  {
    a % s.pageSize
  }

  ghost predicate SameSizes(s: State, t: State) {
    t.pageSize == s.pageSize && t.virtPages == s.virtPages && |t.proc| == |s.proc| && |t.mem| == |s.mem|
  }

  ghost predicate Initial(s: State) {
    && s.Shape()
    && (forall p | 0 <= p < |s.proc| :: !s.proc[p].valid)
    && (forall f, j | 0 <= f < |s.mem| && 0 <= j < s.pageSize :: s.mem[f][j] == ZERO)
  }

  lemma InitialInv(s: State)
    requires Initial(s)
    ensures s.Inv() && (forall p, n :: !s.Live(p, n))
  {
  }

  predicate AllInRange(s: State, cs: seq<Command>) {
    forall i | 0 <= i < |cs| :: InRange(s, cs[i])
  }

  ghost function Run(s: State, cs: seq<Command>): (t: State)
    requires s.Inv() && AllInRange(s, cs)
    ensures t.Inv() && SameSizes(s, t)
  {
    if cs == [] then s
    else
      var t := Run(s, cs[..|cs| - 1]);
      assert InRange(t, cs[|cs| - 1]);
      StepSizes(t, cs[|cs| - 1]);
      Step(t, cs[|cs| - 1]).0
  }

  lemma StepSizes(s: State, c: Command)
    requires s.Inv() && InRange(s, c)
    ensures SameSizes(s, Step(s, c).0)
  {
    var n := c.address / s.pageSize;
    if c.Map? { MapSees(s, c.pid, n, c.write, c.pid, n, 0); }
  }

  /** A load yields exactly what the address holds. */
  lemma LoadSees(s: State, pid: int, n: int, off: nat)
    requires s.Inv() && off < s.pageSize
    ensures SimplePaging.Load(s, pid, n, off) ==
            match See(s, pid, n, off) case Unmapped => Fault case Mapped(_, b) => Value(b)
  {
  }

  // ------------------------------------------------------------------ frames

  ghost function Used(s: State): set<int> {
    set f | 0 <= f < |s.mem| && s.Allocated(f)
  }

  ghost function Tables(s: State): set<(int, int)> {
    set p | 0 <= p < |s.proc| && s.Live(p, TABLE) :: (p, TABLE)
  }

  ghost function Pages(s: State): set<(int, int)> {
    set p, n | 0 <= p < |s.proc| && 0 <= n < s.pageSize && s.Live(p, n) :: (p, n)
  }

  lemma {:induction false} FramesOfKeys(s: State, keys: set<(int, int)>)
    requires s.Inv() && (forall k | k in keys :: s.Live(k.0, k.1))
    ensures |FramesOf(s, keys)| == |keys|
    decreases keys
  {
    if keys != {} {
      var x :| x in keys;
      var rest := keys - {x};
      FramesOfKeys(s, rest);
      var f := s.Entry(x.0, x.1).frame;
      assert FramesOf(s, keys) == FramesOf(s, rest) + {f};
      assert f !in FramesOf(s, rest);
    }
  }

  lemma LiveKeys(s: State, p: int, n: int)
    requires s.Inv()
    ensures s.Live(p, n) <==> (p, n) in Tables(s) + Pages(s)
  {
    if s.Live(p, n) && n != TABLE { assert |s.mem[s.proc[p].frame]| == s.pageSize; }
  }

  ghost function FramesOf(s: State, keys: set<(int, int)>): set<int> {
    set k | k in keys && s.Live(k.0, k.1) :: s.Entry(k.0, k.1).frame
  }

  lemma UsedIsFramesOf(s: State)
    requires s.Inv()
    ensures Used(s) == FramesOf(s, Tables(s) + Pages(s))
  {
    var keys := Tables(s) + Pages(s);
    forall f | f in Used(s) ensures f in FramesOf(s, keys) {
      var p, n :| s.Live(p, n) && s.Entry(p, n).frame == f;
      LiveKeys(s, p, n);
      assert (p, n) in keys;
    }
    forall k | k in keys ensures s.Entry(k.0, k.1).frame in Used(s) { assert s.Allocated(s.Entry(k.0, k.1).frame); }
  }

  /** As many frames are in use as there are page tables and mapped pages. */
  lemma FramesInUse(s: State)
    requires s.Inv()
    ensures |Used(s)| == |Tables(s)| + |Pages(s)|
  {
    UsedIsFramesOf(s);
    FramesOfKeys(s, Tables(s) + Pages(s));
    assert Tables(s) !! Pages(s);
  }

  lemma FreeIffRoom(s: State)
    ensures FirstFree(s, 0) < |s.mem| <==> |Used(s)| < |s.mem|
  {
    var all := Grid.Below(|s.mem|);
    if FirstFree(s, 0) < |s.mem| {
      Grid.SubsetCard(Used(s), all - {FirstFree(s, 0)});
    } else {
      assert Used(s) == all;
    }
  }

  lemma AssignUses(s: State, p: int, n: int, w: bool, f: FrameId)
    requires CanAssign(s, p, n, f)
    ensures s.Named(p, n) && Used(Assign(s, p, n, w, f)) == Used(s) + {f} && f !in Used(s)
  {
    AssignInv(s, p, n, w, f);
  }

  lemma MapNeedsOne(s: State, pid: int, n: int, w: bool)
    requires s.Inv() && s.Live(pid, TABLE) && 0 <= n < s.virtPages && !s.Live(pid, n)
    ensures MapWithTable(s, pid, n, w).1 <==> |Used(s)| + 1 <= |s.mem|
  {
    FreeIffRoom(s);
  }

  /** Mapping a page that is not mapped succeeds exactly when one frame is free, or two if the process
      has no table yet. */
  lemma MapNeeds(s: State, pid: int, n: int, w: bool)
    requires s.Inv() && 0 <= pid < |s.proc| && 0 <= n < s.virtPages && !s.Live(pid, n)
    ensures MapPage(s, pid, n, w).1 <==> |Used(s)| + (if s.Live(pid, TABLE) then 1 else 2) <= |s.mem|
  {
    FreeIffRoom(s);
    if s.Live(pid, TABLE) {
      MapNeedsOne(s, pid, n, w);
    } else if FirstFree(s, 0) < |s.mem| {
      AssignUses(s, pid, TABLE, true, FirstFree(s, 0));
      AssignLive(s, pid, TABLE, true, FirstFree(s, 0));
      MapNeedsOne(InitTable(s, pid), pid, n, w);
    }
  }

  lemma MapKeepsFrames(s: State, p: int, n: int, w: bool)
    requires s.Inv() && 0 <= p < |s.proc| && 0 <= n < s.virtPages
    ensures Used(s) <= Used(MapPage(s, p, n, w).0)
  {
    var u := if s.Live(p, TABLE) then s else InitTable(s, p);
    if u != s { AssignUses(s, p, TABLE, true, FirstFree(s, 0)); }
    if u.Live(p, n) {
      SetWriteInv(u, p, n, w);
      assert Used(SetWrite(u, p, n, w)) == Used(u);
    } else if u.Live(p, TABLE) && FirstFree(u, 0) < |u.mem| {
      AssignUses(u, p, n, w, FirstFree(u, 0));
    }
  }

  lemma FramesNeverShrink(s: State, c: Command)
    requires s.Inv() && InRange(s, c)
    ensures Used(s) <= Used(Step(s, c).0)
  {
    var n, off := c.address / s.pageSize, Offset(s, c.address);
    match c {
      case Map(p, _, w) => MapKeepsFrames(s, p, n, w);
      case Store(p, _, b) => if s.Live(p, n) { PokeInv(s, p, n, off, b); }
      case Load(_, _) =>
    }
  }

  lemma LastKeepsFrames(s: State, cs: seq<Command>)
    requires s.Inv() && AllInRange(s, cs) && cs != []
    ensures AllInRange(s, cs[..|cs| - 1]) && Used(Run(s, cs[..|cs| - 1])) <= Used(Run(s, cs))
  {
    var t, c := Run(s, cs[..|cs| - 1]), cs[|cs| - 1];
    assert InRange(t, c);
    FramesNeverShrink(t, c);
  }

  /** Frames are never given back: over every run, what is in use at one moment stays in use. */
  lemma {:induction false} FramesStayInUse(s: State, cs: seq<Command>, i: nat)
    requires s.Inv() && AllInRange(s, cs) && i <= |cs|
    ensures Used(Run(s, cs[..i])) <= Used(Run(s, cs))
  {
    var n := |cs|;
    if i == n {
      assert cs[..i] == cs;
    } else {
      assert cs[..n - 1][..i] == cs[..i];
      FramesStayInUse(s, cs[..n - 1], i);
      LastKeepsFrames(s, cs);
    }
  }

  /** The frames in use are the first k. */
  ghost predicate Bottom(s: State, k: nat) {
    k <= |s.mem| && forall f | 0 <= f < |s.mem| :: s.Allocated(f) <==> f < k
  }

  lemma BottomFirst(s: State, k: nat)
    requires Bottom(s, k)
    ensures FirstFree(s, 0) == k
  {
    var f := FirstFree(s, 0);
    if k < |s.mem| { assert !s.Allocated(k); }
  }

  lemma AssignBottom(s: State, p: int, n: int, w: bool, k: nat)
    requires Bottom(s, k) && k < |s.mem| && k < 64 && CanAssign(s, p, n, k)
    ensures s.Named(p, n) && Bottom(Assign(s, p, n, w, k), k + 1)
  {
    AssignInv(s, p, n, w, k);
    assert |Assign(s, p, n, w, k).mem| == |s.mem|;
  }

  lemma MapBottomWithTable(s: State, p: int, n: int, w: bool, k: nat) returns (j: nat)
    requires s.Inv() && s.Live(p, TABLE) && 0 <= n < s.virtPages && Bottom(s, k)
    ensures k <= j && Bottom(MapWithTable(s, p, n, w).0, j)
  {
    BottomFirst(s, k);
    if s.Live(p, n) {
      SetWriteInv(s, p, n, w);
      j := k;
    } else if k < |s.mem| {
      AssignBottom(s, p, n, w, k);
      j := k + 1;
    } else {
      j := k;
    }
  }

  lemma MapBottom(s: State, p: int, n: int, w: bool, k: nat) returns (j: nat)
    requires s.Inv() && 0 <= p < |s.proc| && 0 <= n < s.virtPages && Bottom(s, k)
    ensures k <= j && Bottom(MapPage(s, p, n, w).0, j)
  {
    BottomFirst(s, k);
    if s.Live(p, TABLE) {
      j := MapBottomWithTable(s, p, n, w, k);
    } else if k < |s.mem| {
      AssignBottom(s, p, TABLE, true, k);
      AssignLive(s, p, TABLE, true, k);
      j := MapBottomWithTable(InitTable(s, p), p, n, w, k + 1);
    } else {
      j := k;
    }
  }

  lemma StepBottom(s: State, c: Command, k: nat) returns (j: nat)
    requires s.Inv() && InRange(s, c) && Bottom(s, k)
    ensures k <= j && Bottom(Step(s, c).0, j)
  {
    var n, off := c.address / s.pageSize, Offset(s, c.address);
    if c.Map? {
      j := MapBottom(s, c.pid, n, c.write, k);
    } else {
      j := k;
      if c.Store? && s.Live(c.pid, n) { PokeInv(s, c.pid, n, off, c.value); }
    }
  }

  /** The lowest free frame is always the one given out: at every moment of every run the frames in use
      are the first ones, with no gap. */
  lemma {:induction false} FramesFromTheBottom(s: State, cs: seq<Command>) returns (k: nat)
    requires Initial(s) && s.Inv() && AllInRange(s, cs)
    ensures Bottom(Run(s, cs), k)
  {
    if cs == [] {
      InitialInv(s);
      k := 0;
    } else {
      var t := Run(s, cs[..|cs| - 1]);
      assert InRange(t, cs[|cs| - 1]);
      k := FramesFromTheBottom(s, cs[..|cs| - 1]);
      k := StepBottom(t, cs[|cs| - 1], k);
    }
  }

  // ------------------------------------------------------------------ the reference machine

  /** What is mapped by anybody, tables included, and what one address of one process holds. The
      machine knows how many frames there are, but not who has which. */
  datatype Reference = Reference(keys: set<(int, int)>, at: Flat)

  /** Mapping page n of p: the keys afterwards, and whether it succeeds. */
  function RefMap(keys: set<(int, int)>, frames: nat, p: int, n: int): (set<(int, int)>, bool) {
    if (p, n) in keys then (keys, false)
    else if (p, TABLE) in keys then
      if |keys| + 1 <= frames then (keys + {(p, n)}, true) else (keys, false)
    else
      if |keys| + 2 <= frames then (keys + {(p, TABLE), (p, n)}, true)
      else if |keys| + 1 <= frames then (keys + {(p, TABLE)}, false)
      else (keys, false)
  }

  function RefStep(r: Reference, c: Command, frames: nat, pid: int, a: int, pageSize: nat): Reference
    requires 0 < pageSize
  {
    match c
    case Map(p, b, w) =>
      var (keys, ok) := RefMap(r.keys, frames, p, b / pageSize);
      Reference(keys, if p == pid && b / pageSize == a / pageSize then FlatMap(r.at, w, ok) else r.at)
    case Store(p, b, x) => if p == pid && b == a then r.(at := FlatStore(r.at, x)) else r
    case Load(_, _) => r
  }

  function RefRun(cs: seq<Command>, frames: nat, pid: int, a: int, pageSize: nat): Reference
    requires 0 < pageSize
  {
    if cs == [] then Reference({}, Unmapped)
    else RefStep(RefRun(cs[..|cs| - 1], frames, pid, a, pageSize), cs[|cs| - 1], frames, pid, a, pageSize)
  }

  /** The answer to a command on the address that the machine knows. */
  function RefAnswer(r: Reference, c: Command, frames: nat, pageSize: nat): Answer
    requires 0 < pageSize
  {
    match c
    case Map(p, b, _) => Done(RefMap(r.keys, frames, p, b / pageSize).1)
    case Store(_, _, _) => Done(r.at.Mapped? && r.at.write)
    case Load(_, _) => Got(if r.at.Mapped? then Value(r.at.value) else Fault)
  }

  ghost function Keys(s: State): set<(int, int)> {
    Tables(s) + Pages(s)
  }

  lemma KeysInUse(s: State)
    requires s.Inv()
    ensures FirstFree(s, 0) < |s.mem| <==> |Keys(s)| + 1 <= |s.mem|
  {
    FramesInUse(s);
    assert Tables(s) !! Pages(s);
    FreeIffRoom(s);
  }

  lemma SameKeys(s: State, t: State)
    requires s.Inv() && t.Inv() && (forall p, n :: t.Live(p, n) == s.Live(p, n))
    ensures Keys(t) == Keys(s)
  {
    forall k: (int, int) ensures k in Keys(t) <==> k in Keys(s) {
      LiveKeys(s, k.0, k.1);
      LiveKeys(t, k.0, k.1);
    }
  }

  lemma AssignKeys(s: State, p: int, n: int, w: bool, f: FrameId)
    requires CanAssign(s, p, n, f)
    ensures s.Named(p, n) && Keys(Assign(s, p, n, w, f)) == Keys(s) + {(p, n)} && (p, n) !in Keys(s)
  {
    AssignLive(s, p, n, w, f);
    AssignInv(s, p, n, w, f);
    var t := Assign(s, p, n, w, f);
    forall k: (int, int) ensures k in Keys(t) <==> k in Keys(s) + {(p, n)} {
      LiveKeys(s, k.0, k.1);
      LiveKeys(t, k.0, k.1);
    }
    LiveKeys(s, p, n);
  }

  lemma SetWriteKeys(s: State, p: int, n: int, w: bool)
    requires s.Inv() && s.Live(p, n) && 0 <= n
    ensures Keys(SetWrite(s, p, n, w)) == Keys(s)
  {
    SetWriteLive(s, p, n, w);
    SetWriteInv(s, p, n, w);
    SameKeys(s, SetWrite(s, p, n, w));
  }

  lemma MapKeysWithTable(s: State, p: int, n: int, w: bool)
    requires s.Inv() && s.Live(p, TABLE) && 0 <= n < s.virtPages
    ensures var (t, ok) := MapWithTable(s, p, n, w);
      (Keys(t), ok) == RefMap(Keys(s), |s.mem|, p, n)
  {
    LiveKeys(s, p, n);
    if s.Live(p, n) { SetWriteKeys(s, p, n, w); } else { MapNewKeys(s, p, n, w); }
  }

  lemma MapNewKeys(s: State, p: int, n: int, w: bool)
    requires s.Inv() && s.Live(p, TABLE) && 0 <= n < s.virtPages && !s.Live(p, n)
    ensures var (t, ok) := MapWithTable(s, p, n, w);
      (Keys(t), ok) == RefMap(Keys(s), |s.mem|, p, n)
  {
    LiveKeys(s, p, n);
    LiveKeys(s, p, TABLE);
    KeysInUse(s);
    var f := FirstFree(s, 0);
    if f < |s.mem| {
      AssignKeys(s, p, n, w, f);
      assert MapWithTable(s, p, n, w) == (Assign(s, p, n, w, f), true);
    }
  }

  lemma RefMapInit(keys: set<(int, int)>, frames: nat, p: int, n: nat)
    requires (p, n) !in keys && (p, TABLE) !in keys
    ensures RefMap(keys, frames, p, n) ==
            if |keys| + 1 <= frames then RefMap(keys + {(p, TABLE)}, frames, p, n) else (keys, false)
  {
    assert |keys + {(p, TABLE)}| == |keys| + 1;
    assert keys + {(p, TABLE)} + {(p, n)} == keys + {(p, TABLE), (p, n)};
  }

  lemma InitKeys(s: State, p: int, n: nat)
    requires s.Inv() && 0 <= p < |s.proc| && !s.Live(p, TABLE)
    ensures (p, n) !in Keys(s) && (p, TABLE) !in Keys(s)
    ensures var u := InitTable(s, p);
      if |Keys(s)| + 1 <= |s.mem|
      then u != s && u.Live(p, TABLE) && |u.mem| == |s.mem| && Keys(u) == Keys(s) + {(p, TABLE)}
      else u == s
  {
    LiveKeys(s, p, n);
    LiveKeys(s, p, TABLE);
    KeysInUse(s);
    if FirstFree(s, 0) < |s.mem| {
      AssignKeys(s, p, TABLE, true, FirstFree(s, 0));
      AssignLive(s, p, TABLE, true, FirstFree(s, 0));
    }
  }

  /** Map succeeds, and what is mapped changes, as the reference machine predicts by counting. */
  lemma MapKeys(s: State, p: int, n: int, w: bool)
    requires s.Inv() && 0 <= p < |s.proc| && 0 <= n < s.virtPages
    ensures var (t, ok) := MapPage(s, p, n, w);
      (Keys(t), ok) == RefMap(Keys(s), |s.mem|, p, n)
  {
    if s.Live(p, TABLE) {
      MapKeysWithTable(s, p, n, w);
    } else {
      var u := InitTable(s, p);
      InitKeys(s, p, n);
      RefMapInit(Keys(s), |s.mem|, p, n);
      if u != s { MapKeysWithTable(u, p, n, w); }
    }
  }

  lemma StoreKeys(s: State, p: int, n: int, off: int, b: Byte)
    requires s.Inv() && 0 <= p < |s.proc| && 0 <= n < s.virtPages && 0 <= off < s.pageSize
    ensures Keys(SimplePaging.Store(s, p, n, off, b).0) == Keys(s)
  {
    if s.Live(p, n) {
      PokeLive(s, p, n, off, b);
      PokeInv(s, p, n, off, b);
      SameKeys(s, Poke(s, p, n, off, b));
    }
  }

  ghost predicate Matches(s: State, r: Reference, pid: int, a: int)
    requires 0 < s.pageSize
  {
    r.keys == Keys(s) && r.at == See(s, pid, a / s.pageSize, Offset(s, a))
  }

  lemma MapMatches(s: State, p: int, b: int, w: bool, r: Reference, pid: int, a: int)
    requires s.Inv() && InRange(s, Map(p, b, w)) && InRange(s, Load(pid, a)) && Matches(s, r, pid, a)
    ensures var t := MapPage(s, p, b / s.pageSize, w).0;
      SameSizes(s, t) && Matches(t, RefStep(r, Map(p, b, w), |s.mem|, pid, a, s.pageSize), pid, a)
  {
    MapSees(s, p, b / s.pageSize, w, pid, a / s.pageSize, Offset(s, a));
    MapCounts(s, p, b, w);
  }

  lemma MapCounts(s: State, p: int, b: int, w: bool)
    requires s.Inv() && InRange(s, Map(p, b, w))
    ensures var (t, ok) := MapPage(s, p, b / s.pageSize, w);
      (Keys(t), ok) == RefMap(Keys(s), |s.mem|, p, b / s.pageSize)
  {
    MapKeys(s, p, b / s.pageSize, w);
  }

  lemma StoreSeesAddress(s: State, p: int, b: int, x: Byte, pid: int, a: int)
    requires s.Inv() && InRange(s, Store(p, b, x)) && InRange(s, Load(pid, a))
    ensures var t := SimplePaging.Store(s, p, b / s.pageSize, Offset(s, b), x).0;
      var v := See(s, pid, a / s.pageSize, Offset(s, a));
      && See(t, pid, a / s.pageSize, Offset(s, a)) == (if p == pid && b == a then FlatStore(v, x) else v)
      && SameSizes(s, t)
  {
    StoreSees(s, p, b / s.pageSize, Offset(s, b), x, pid, a / s.pageSize, Offset(s, a));
    Grid.SameAddress(s.pageSize, a, b);
  }

  lemma StoreMatches(s: State, p: int, b: int, x: Byte, r: Reference, pid: int, a: int)
    requires s.Inv() && InRange(s, Store(p, b, x)) && InRange(s, Load(pid, a)) && Matches(s, r, pid, a)
    ensures var t := SimplePaging.Store(s, p, b / s.pageSize, Offset(s, b), x).0;
      SameSizes(s, t) && Matches(t, RefStep(r, Store(p, b, x), |s.mem|, pid, a, s.pageSize), pid, a)
  {
    StoreSeesAddress(s, p, b, x, pid, a);
    StoreKeepsKeys(s, p, b, x);
  }

  lemma StoreKeepsKeys(s: State, p: int, b: int, x: Byte)
    requires s.Inv() && InRange(s, Store(p, b, x))
    ensures Keys(SimplePaging.Store(s, p, b / s.pageSize, Offset(s, b), x).0) == Keys(s)
  {
    StoreKeys(s, p, b / s.pageSize, Offset(s, b), x);
  }

  /** One step of the simulator is one step of the reference machine, at every address. */
  lemma StepRefines(s: State, c: Command, r: Reference, pid: int, a: int)
    requires s.Inv() && InRange(s, c) && InRange(s, Load(pid, a)) && Matches(s, r, pid, a)
    ensures SameSizes(s, Step(s, c).0) && Matches(Step(s, c).0, RefStep(r, c, |s.mem|, pid, a, s.pageSize), pid, a)
  {
    match c {
      case Map(p, b, w) => MapMatches(s, p, b, w, r, pid, a);
      case Store(p, b, x) => StoreMatches(s, p, b, x, r, pid, a);
      case Load(_, _) =>
    }
  }

  lemma AnswerRefines(s: State, c: Command, r: Reference)
    requires s.Inv() && InRange(s, c) && Matches(s, r, c.pid, c.address)
    ensures Step(s, c).1 == RefAnswer(r, c, |s.mem|, s.pageSize)
  {
    var n := c.address / s.pageSize;
    if c.Map? { MapKeys(s, c.pid, n, c.write); }
    if c.Load? { LoadSees(s, c.pid, n, Offset(s, c.address)); }
  }

  lemma {:induction false} RunRefines(s: State, cs: seq<Command>, pid: int, a: int)
    requires Initial(s) && s.Inv() && AllInRange(s, cs) && InRange(s, Load(pid, a))
    ensures Matches(Run(s, cs), RefRun(cs, |s.mem|, pid, a, s.pageSize), pid, a)
  {
    if cs == [] {
      InitialInv(s);
    } else {
      var before, last := cs[..|cs| - 1], cs[|cs| - 1];
      RunRefines(s, before, pid, a);
      var t := Run(s, before);
      assert InRange(t, last);
      StepRefines(t, last, RefRun(before, |s.mem|, pid, a, s.pageSize), pid, a);
    }
  }

  /** After every run from the start, the answer to every command is the one that the reference machine
      gives: an address holds its last successful store, or zero, whatever other processes do, and
      map fails exactly when the count of frames says so. */
  lemma RefinesFlatMemory(s: State, cs: seq<Command>, c: Command)
    requires Initial(s) && s.Inv() && AllInRange(s, cs) && InRange(s, c)
    ensures InRange(Run(s, cs), c)
    ensures var r := RefRun(cs, |s.mem|, c.pid, c.address, s.pageSize);
      Step(Run(s, cs), c).1 == RefAnswer(r, c, |s.mem|, s.pageSize)
  {
    RunRefines(s, cs, c.pid, c.address);
    AnswerRefines(Run(s, cs), c, RefRun(cs, |s.mem|, c.pid, c.address, s.pageSize));
  }
}

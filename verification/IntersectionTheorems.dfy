/** What the intersection protocol guarantees in every reachable state and over every run. */
module IntersectionTheorems {
  import opened Intersection
  import opened IntersectionSafety

  // ------------------------------------------------------------------ runs

  /** The steps acts are enabled one after the other from s, and lead to t. */
  ghost predicate Runs(s: State, acts: seq<Action>, t: State)
    requires s.Shape()
    decreases |acts|
  {
    if acts == [] then t == s else Enabled(s, acts[0]) && Runs(Next(s, acts[0]), acts[1..], t)
  }

  lemma {:induction false} ReachableInv(s: State, acts: seq<Action>, t: State)
    requires Inv(s) && Runs(s, acts, t)
    ensures Inv(t)
    decreases |acts|
  {
    if acts != [] {
      StepInv(s, acts[0]);
      ReachableInv(Next(s, acts[0]), acts[1..], t);
    }
  }

  lemma InitialInv(s: State)
    requires Initial(s)
    ensures Inv(s)
  {
  }

  // ------------------------------------------------------------------ claims and wake-ups

  ghost function Owned(s: State, c: int): set<int> {
    set i | 0 <= i < 4 && s.quadrant[i] == c
  }

  ghost function RouteSet(q: Queue, d: Dir): (r: set<int>)
    ensures |r| == Length(d)
  {
    var a := Ahead(q);
    match d
    case Left => assert |{a[0], a[1], a[2]}| == 3; {a[0], a[1], a[2]}
    case Straight => assert |{a[0], a[1]}| == 2; {a[0], a[1]}
    case Right => {a[0]}
  }

  /** A turning car owns exactly the quadrants of its route, as many as num_quadrants says; any
      other car owns none; and two turning cars share no quadrant. */
  lemma ClaimsMatchRoutes(s: State, c: int)
    requires Inv(s) && s.Has(c)
    ensures var Car(turn, pc) := s.cars[c];
      if turn.Turning? then !pc.Idle? && Owned(s, c) == RouteSet(pc.q, turn.dir) && |Owned(s, c)| == NumQuadrants(turn)
      else Owned(s, c) == {}
    ensures forall k | s.Has(k) && k != c :: Owned(s, k) !! Owned(s, c)
  {
    assert CarOk(s, c);
    var Car(turn, pc) := s.cars[c];
    if turn.Turning? {
      assert forall i | 0 <= i < 4 :: s.quadrant[i] == c <==> i in Route(pc.q, turn.dir);
      assert forall i :: i in Route(pc.q, turn.dir) <==> i in RouteSet(pc.q, turn.dir);
    }
  }

  /** Whenever the intersection lock is free, a car asleep at the intersection still wants to turn,
      and another car that is turning has a quadrant of its route. */
  lemma NoLostWakeUp(s: State, c: int)
    requires Inv(s) && s.lock == NOBODY && s.Has(c) && s.cars[c].pc.Asleep?
    ensures s.cars[c].turn.Want?
    ensures exists k, i :: s.Has(k) && k != c && s.cars[k].turn.Turning? && 0 <= i < 4 &&
                           OnRoute(s.cars[c], i) && s.quadrant[i] == k
  {
    assert CarOk(s, c) && Blocked(s, c);
    var i :| 0 <= i < 4 && OnRoute(s.cars[c], i) && s.quadrant[i] != NOBODY && s.quadrant[i] != c;
    var k := s.quadrant[i];
    assert s.quadrant[i] == k <==> s.cars[k].turn.Turning? && OnRoute(s.cars[k], i);
  }

  /** A quadrant lock that a car asks for is never taken. */
  lemma AcquiringNeverBlocks(s: State, c: int)
    requires Inv(s) && s.Has(c) && s.cars[c].pc.Acquiring?
    ensures CanMove(s, c)
  {
    var i := s.cars[c].pc.i;
    if i < 4 && s.quadrant[i] == c { assert !Taken(s.cars[c].pc, i); }
  }

  // ------------------------------------------------------------------ deadlock

  lemma HolderMoves(s: State)
    requires Inv(s) && s.lock != NOBODY
    ensures CanMove(s, s.lock)
  {
    assert CarOk(s, s.lock);
    if s.cars[s.lock].pc.Acquiring? { AcquiringNeverBlocks(s, s.lock); }
  }

  lemma AwakeMoves(s: State, c: int)
    requires Inv(s) && s.lock == NOBODY && s.Has(c)
    requires !s.cars[c].pc.Idle? && !s.cars[c].pc.QueueAsleep? && !s.cars[c].pc.Asleep?
    ensures CanMove(s, c)
  {
    assert CarOk(s, c);
  }

  /** The first car of a queue steps, or a car that is in its way does. */
  lemma HeadOrItsBlockerMoves(s: State, c: int) returns (m: int)
    requires Inv(s) && s.lock == NOBODY && s.Has(c) && !s.cars[c].pc.Idle? && !s.cars[c].pc.QueueAsleep?
    ensures CanMove(s, m)
  {
    if s.cars[c].pc.Asleep? {
      NoLostWakeUp(s, c);
      var k, i :| s.Has(k) && k != c && s.cars[k].turn.Turning? && 0 <= i < 4 &&
                  OnRoute(s.cars[c], i) && s.quadrant[i] == k;
      assert CarOk(s, k);
      AwakeMoves(s, k);
      m := k;
    } else {
      AwakeMoves(s, c);
      m := c;
    }
  }

  /** No deadlock: unless every car is away from the intersection, some car can take a step of its
      own, without a new arrival or a spurious wake-up. */
  lemma NoDeadlock(s: State, c: int) returns (m: int)
    requires Inv(s) && s.Has(c) && !s.cars[c].pc.Idle?
    ensures CanMove(s, m)
  {
    if s.lock != NOBODY {
      HolderMoves(s);
      m := s.lock;
    } else {
      assert CarOk(s, c);
      var head := s.queue[s.cars[c].pc.q][0];
      assert IsHead(s, head, s.cars[c].pc.q);
      HeadIsHome(s, head, s.cars[c].pc.q);
      assert CarOk(s, head);
      m := HeadOrItsBlockerMoves(s, head);
    }
  }

  /** The protocol comes to rest only when every car is away. */
  lemma AtRestIffAway(s: State)
    requires Inv(s)
    ensures (forall c :: !CanMove(s, c)) <==> (forall c | s.Has(c) :: s.cars[c].pc.Idle?)
  {
    forall c | s.Has(c) && !s.cars[c].pc.Idle? ensures exists m :: CanMove(s, m) {
      var m := NoDeadlock(s, c);
    }
  }

  // ------------------------------------------------------------------ lock order

  datatype Lock = IntersectionLock | QueueLock(i: int) | QuadrantLock(i: int)
  {
    /** The intersection lock comes before queue and quadrant locks, and those go by number. */
    function Level(): int {
      match this case IntersectionLock => 0 case QueueLock(i) => 1 + i case QuadrantLock(i) => 1 + i
    }
  }

  /** Queue locks are only held within a step. */
  predicate HoldsLock(s: State, c: int, l: Lock) {
    match l
    case IntersectionLock => s.lock == c
    case QuadrantLock(i) => 0 <= i < 4 && s.qlock[i] == c
    case QueueLock(_) => false
  }

  /** Car c's next step asks for lock l. */
  predicate AsksFor(s: State, c: int, l: Lock)
    requires s.Has(c)
  {
    match s.cars[c].pc
    case Approaching(q) => l == QueueLock(q)
    case Departing(q) => l == QueueLock(q)
    case AtLine(_) => l == IntersectionLock
    case Woken(_) => l == IntersectionLock
    case Crossing(_) => l == IntersectionLock
    case Acquiring(_, i) => i < 4 && s.quadrant[i] == c && l == QuadrantLock(i)
    case Admitting(_, i) => i < 4 && l == QueueLock(i)
    case _ => false
  }

  /** A car asks for a lock above all that it holds, except that one in the intersection asks for the
      intersection lock while it holds its quadrants' locks. */
  lemma LockOrder(s: State, c: int, l: Lock)
    requires Inv(s) && s.Has(c) && AsksFor(s, c, l)
    ensures (forall h | HoldsLock(s, c, h) :: h.Level() < l.Level()) <==> !s.cars[c].pc.Crossing?
  {
    assert CarOk(s, c);
    var Car(turn, pc) := s.cars[c];
    if pc.Crossing? {
      var i := Route(pc.q, turn.dir)[0];
      assert OnRoute(s.cars[c], i);
      assert s.quadrant[i] == c && Taken(pc, i);
      assert HoldsLock(s, c, QuadrantLock(i));
    } else {
      forall i | 0 <= i < 4 && s.qlock[i] == c ensures pc.Acquiring? && i < pc.i { }
    }
  }

  /** One car, number 0, which came from the north; `own` and `held` are its claim on and its lock
      of quadrant NW. */
  predicate Solo(s: State, car: Car, own: int, held: int, lock: int) {
    && |s.cars| == 1 && s.cars[0] == car && s.lock == lock
    && s.queue[N] == [0] && s.queue[S] == [] && s.queue[E] == [] && s.queue[W] == []
    && s.quadrant[0] == own && s.quadrant[1] == NOBODY && s.quadrant[2] == NOBODY && s.quadrant[3] == NOBODY
    && s.qlock[0] == held && s.qlock[1] == NOBODY && s.qlock[2] == NOBODY && s.qlock[3] == NOBODY
  }

  lemma SoloEnters(s: State)
    requires Solo(s, Car(Want(Right), Trying(N)), NOBODY, NOBODY, 0)
    ensures Solo(Move(s, 0), Car(Turning(Right), Trying(N)), 0, NOBODY, 0)
  {
    assert Route(N, Right) == [NW];
    ClaimSpec(s.quadrant, 0, [NW]);
    assert Clear(s.quadrant, [NW]);
    assert Claim(s.quadrant, 0, [NW]).0[[NW][0]] == 0;
  }

  lemma SoloReachesTheLine(s: State)
    requires Solo(s, Car(Want(Right), Approaching(N)), NOBODY, NOBODY, NOBODY)
    ensures CanMove(s, 0) && Solo(Move(s, 0), Car(Want(Right), AtLine(N)), NOBODY, NOBODY, NOBODY)
    ensures CanMove(Move(s, 0), 0) && Solo(Move(Move(s, 0), 0), Car(Want(Right), Trying(N)), NOBODY, NOBODY, 0)
  {
  }

  lemma {:induction false} SoloAcquires(s: State, i: nat) returns (acts: seq<Action>, t: State)
    requires i <= 4 && Solo(s, Car(Turning(Right), Acquiring(N, i)), 0, if i == 0 then NOBODY else 0, 0)
    ensures Runs(s, acts, t) && Solo(t, Car(Turning(Right), Crossing(N)), 0, 0, NOBODY)
    decreases 4 - i
  {
    if i == 4 {
      acts, t := [], Move(s, 0);
    } else {
      acts, t := SoloAcquires(Move(s, 0), i + 1);
    }
    Prepend(s, Go(0), acts, t);
    acts := [Go(0)] + acts;
  }

  lemma Prepend(s: State, a: Action, acts: seq<Action>, t: State)
    requires s.Shape() && Enabled(s, a) && Runs(Next(s, a), acts, t)
    ensures Runs(s, [a] + acts, t)
  {
    assert ([a] + acts)[1..] == acts;
  }

  lemma SoloCrosses(s: State) returns (acts: seq<Action>, t: State)
    requires Solo(s, Car(Want(Right), Trying(N)), NOBODY, NOBODY, 0)
    ensures Runs(s, acts, t) && Solo(t, Car(Turning(Right), Crossing(N)), 0, 0, NOBODY)
  {
    SoloEnters(s);
    var u := Move(s, 0);
    acts, t := SoloAcquires(Move(u, 0), 0);
    Prepend(u, Go(0), acts, t);
    Prepend(s, Go(0), [Go(0)] + acts, t);
    acts := [Go(0)] + ([Go(0)] + acts);
  }

  lemma SoloArrives(s: State) returns (acts: seq<Action>, t: State)
    requires Solo(s, Car(Want(Right), Approaching(N)), NOBODY, NOBODY, NOBODY)
    ensures Runs(s, acts, t) && Solo(t, Car(Turning(Right), Crossing(N)), 0, 0, NOBODY)
  {
    SoloReachesTheLine(s);
    acts, t := SoloCrosses(Move(Move(s, 0), 0));
    Prepend(Move(s, 0), Go(0), acts, t);
    Prepend(s, Go(0), [Go(0)] + acts, t);
    acts := [Go(0)] + ([Go(0)] + acts);
  }

  /** The exception does occur: one car alone gets there. */
  lemma OrderIsBroken() returns (s: State, acts: seq<Action>, t: State)
    ensures Initial(s) && Runs(s, acts, t)
    ensures t.Has(0) && AsksFor(t, 0, IntersectionLock) && HoldsLock(t, 0, QuadrantLock(NW))
  {
    var none: Quadrants := [NOBODY, NOBODY, NOBODY, NOBODY];
    var empty: Queues := [[], [], [], []];
    s := State([Car(NoTurn, Idle)], none, none, empty, NOBODY, empty, empty, empty);
    acts, t := SoloArrives(Next(s, Arrive(0, N, Right)));
    Prepend(s, Arrive(0, N, Right), acts, t);
    acts := [Arrive(0, N, Right)] + acts;
  }

  // ------------------------------------------------------------------ progress

  /** How many steps a car may still take before it is away, if it is not woken for nothing. */
  function RankOf(car: Car, head: bool): nat {
    match car.pc
    case Idle => 0
    case Departing(_) => 1
    case Admitting(_, i) => 6 - i
    case Leaving(_) => 7
    case Crossing(_) => 8
    case Acquiring(_, i) => 13 - i
    case Trying(_) => if car.turn.Want? then 18 else 14
    case AtLine(_) => if car.turn.Want? then 19 else 15
    case Woken(_) => if car.turn.Want? then 19 else 15
    case Asleep(_) => 17
    case Approaching(_) => if car.turn.Turning? then 16 else if head then 20 else 22
    case QueueAsleep(_) => 21
  }

  function Rank(s: State, c: int): nat
    requires s.Has(c)
  {
    var car := s.cars[c];
    RankOf(car, !car.pc.Idle? && IsHead(s, c, car.pc.q))
  }

  function Measure(s: State, n: nat): nat
    requires n <= |s.cars|
  {
    if n == 0 then 0 else Measure(s, n - 1) + Rank(s, n - 1)
  }

  ghost predicate RanksFall(s: State, t: State, c: int, d: int) {
    && |t.cars| == |s.cars|
    && (forall k | s.Has(k) && k != c :: Rank(t, k) <= Rank(s, k))
    && (s.Has(c) ==> Rank(t, c) <= Rank(s, c) + d)
  }

  lemma {:induction false} MeasureFalls(s: State, t: State, c: int, d: int, n: nat)
    requires RanksFall(s, t, c, d) && n <= |s.cars| && 0 <= c
    ensures Measure(t, n) <= Measure(s, n) + if c < n then d else 0
  {
    if n > 0 { MeasureFalls(s, t, c, d, n - 1); }
  }

  /** Only car c changes. */
  lemma OneFalls(s: State, t: State, c: int, d: int)
    requires |t.cars| == |s.cars| && t.queue == s.queue && s.Has(c) && Rank(t, c) <= Rank(s, c) + d
    requires forall k | s.Has(k) && k != c :: t.cars[k] == s.cars[k]
    ensures RanksFall(s, t, c, d)
  {
    forall k | s.Has(k) && k != c ensures Rank(t, k) == Rank(s, k) { assert t.cars[k] == s.cars[k]; }
  }

  lemma EnterFalls(s: State, c: int, q: Queue)
    requires Inv(s) && IsHead(s, c, q)
    ensures s.Has(c) && RanksFall(s, Enter(s, c, q), c, 0)
    ensures var t := Enter(s, c, q); t == s || (t.cars[c].turn.Turning? && Rank(t, c) < Rank(s, c))
  {
    HeadIsHome(s, c, q);
    EnterAllOrNothing(s, c, q);
    EnterInv(s, c, q);
    var t := Enter(s, c, q);
    if t != s {
      assert CarOk(s, c) && CarOk(t, c);
      var d := s.cars[c].turn.dir;
      assert t.cars[c] == Signal(s, c).cars[c].(turn := Turning(d));
    }
    OneFalls(s, t, c, 0);
  }

  /** Car c goes on to p, nearer to being away. */
  lemma OnwardFalls(s: State, c: int, p: Pc, lock: int, qlock: Quadrants)
    requires s.Has(c) && !s.cars[c].pc.Idle? && !p.Idle? && p.q == s.cars[c].pc.q
    requires forall head :: RankOf(s.cars[c].(pc := p), head) < RankOf(s.cars[c], head)
    ensures RanksFall(s, Onward(s, c, p, lock, qlock), c, -1)
  {
    OneFalls(s, Onward(s, c, p, lock, qlock), c, -1);
  }

  lemma TryFalls(s: State, c: int, q: Queue)
    requires Inv(s) && s.Has(c) && s.cars[c].pc == Trying(q)
    ensures RanksFall(s, Try(s, c, q), c, -1)
  {
    assert CarOk(s, c);
    if !s.cars[c].turn.Want? {
      OnwardFalls(s, c, Acquiring(q, 0), s.lock, s.qlock);
    } else {
      EnterFalls(s, c, q);
      var t := Enter(s, c, q);
      if t == s {
        OnwardFalls(s, c, Asleep(q), NOBODY, s.qlock);
        assert Try(s, c, q) == Onward(s, c, Asleep(q), NOBODY, s.qlock);
      } else {
        assert Try(s, c, q) == t;
      }
    }
  }

  lemma AdmitFalls(s: State, c: int, q: Queue, i: Queue)
    requires Inv(s) && s.Has(c) && s.cars[c].pc == Admitting(q, i)
    ensures RanksFall(s, Move(s, c), c, -1)
  {
    assert CarOk(s, c);
    var t := Visit(s, i);
    if s.queue[i] != [] {
      var head := s.queue[i][0];
      EnterFalls(s, head, i);
      EnterInv(s, head, i);
      if head == c { EnterAllOrNothing(s, c, i); }
    }
    assert t.cars[c] == s.cars[c] && t.queue == s.queue;
    OneFalls(t, Move(s, c), c, -1);
    assert Rank(t, c) == Rank(s, c);
  }

  lemma ApproachFalls(s: State, c: int, q: Queue)
    requires Inv(s) && s.Has(c) && s.cars[c].pc == Approaching(q)
    ensures RanksFall(s, Move(s, c), c, -1)
  {
    assert CarOk(s, c);
    OneFalls(s, Move(s, c), c, -1);
  }

  lemma AcquireFalls(s: State, c: int, q: Queue, i: Index)
    requires Inv(s) && CanMove(s, c) && s.cars[c].pc == Acquiring(q, i)
    ensures RanksFall(s, Move(s, c), c, -1)
  {
    if i == 4 {
      OnwardFalls(s, c, Crossing(q), NOBODY, s.qlock);
    } else {
      OnwardFalls(s, c, Acquiring(q, i + 1), s.lock, if s.quadrant[i] == c then s.qlock[i := c] else s.qlock);
    }
  }

  lemma LeaveFalls(s: State, c: int, q: Queue)
    requires s.Shape() && s.Has(c) && s.cars[c].pc == Leaving(q)
    ensures RanksFall(s, Move(s, c), c, -1)
  {
    OneFalls(s, Leave(s, c, q), c, -1);
  }

  /** Every step that a car takes brings it nearer to being away, and nobody else further. */
  lemma GoFalls(s: State, c: int)
    requires Inv(s) && CanMove(s, c)
    ensures RanksFall(s, Move(s, c), c, -1)
  {
    match s.cars[c].pc {
      case Approaching(q) => ApproachFalls(s, c, q);
      case AtLine(q) => OnwardFalls(s, c, Trying(q), c, s.qlock);
      case Woken(q) => OnwardFalls(s, c, Trying(q), c, s.qlock);
      case Trying(q) => TryFalls(s, c, q);
      case Acquiring(q, i) => AcquireFalls(s, c, q, i);
      case Crossing(q) => OnwardFalls(s, c, Leaving(q), c, s.qlock);
      case Leaving(q) => LeaveFalls(s, c, q);
      case Admitting(q, i) =>
        if i == 4 { OnwardFalls(s, c, Departing(q), NOBODY, s.qlock); } else { AdmitFalls(s, c, q, i); }
      case Departing(q) => DepartFalls(s, c, q);
    }
  }

  /** What dequeue_car does to the other cars: it wakes the next one in the queue. */
  lemma DepartOthers(s: State, c: int, q: Queue, k: int)
    requires Inv(s) && CanMove(s, c) && s.cars[c].pc == Departing(q) && s.Has(k) && k != c
    ensures var t := Depart(s, c, q);
      && |t.cars| == |s.cars| && t.queue == s.queue[q := s.queue[q][1..]]
      && (t.cars[k] == s.cars[k] ||
          (s.cars[k].pc == QueueAsleep(q) && IsHead(t, k, q) && t.cars[k] == s.cars[k].(pc := Approaching(q))))
      && t.cars[c].pc == Idle
  {
    assert CarOk(s, c);
    if |s.queue[q]| > 1 {
      var next := s.queue[q][1];
      assert s.queue[q][1..][0] == next != c && CarOk(s, next);
    }
  }

  lemma DepartOtherFalls(s: State, c: int, q: Queue, k: int)
    requires Inv(s) && CanMove(s, c) && s.cars[c].pc == Departing(q) && s.Has(k) && k != c
    ensures |Depart(s, c, q).cars| == |s.cars| && Rank(Depart(s, c, q), k) <= Rank(s, k)
  {
    DepartOthers(s, c, q, k);
    assert CarOk(s, k) && CarOk(s, c);
    assert !IsHead(s, k, q);
  }

  lemma DepartFalls(s: State, c: int, q: Queue)
    requires Inv(s) && CanMove(s, c) && s.cars[c].pc == Departing(q)
    ensures RanksFall(s, Depart(s, c, q), c, -1)
  {
    var t := Depart(s, c, q);
    forall k | s.Has(k) && k != c ensures Rank(t, k) <= Rank(s, k) { DepartOtherFalls(s, c, q, k); }
    assert CarOk(s, c);
    assert |t.cars| == |s.cars| && t.cars[c].pc == Idle by { if |s.queue[q]| > 1 { assert s.queue[q][1..][0] != c; } }
  }

  function Steps(acts: seq<Action>): nat {
    if acts == [] then 0 else (if acts[0].Go? then 1 else 0) + Steps(acts[1..])
  }

  function Others(acts: seq<Action>): nat {
    if acts == [] then 0 else (if acts[0].Go? then 0 else 1) + Others(acts[1..])
  }

  lemma ArriveFalls(s: State, c: int, q: Queue, d: Dir)
    requires Inv(s) && Enabled(s, Arrive(c, q, d))
    ensures RanksFall(s, Next(s, Arrive(c, q, d)), c, 22)
  {
    var t := Next(s, Arrive(c, q, d));
    forall k | s.Has(k) && k != c ensures Rank(t, k) <= Rank(s, k) {
      assert CarOk(s, k) && t.cars[k] == s.cars[k];
    }
  }

  lemma OtherFalls(s: State, a: Action)
    requires Inv(s) && Enabled(s, a) && !a.Go?
    ensures RanksFall(s, Next(s, a), a.c, 22)
  {
    if a.Arrive? { ArriveFalls(s, a.c, a.q, a.dir); } else { OneFalls(s, Next(s, a), a.c, 22); }
  }

  /** Over any run, under any schedule, cars take at most 22 steps for each arrival or spurious
      wake-up, beyond a bound set by the first state. */
  lemma {:induction false} BoundedSteps(s: State, acts: seq<Action>, t: State)
    requires Inv(s) && Runs(s, acts, t)
    ensures |t.cars| == |s.cars|
    ensures Steps(acts) + Measure(t, |t.cars|) <= Measure(s, |s.cars|) + 22 * Others(acts)
    decreases |acts|
  {
    if acts != [] {
      var a := acts[0];
      var u := Next(s, a);
      StepInv(s, a);
      if a.Go? {
        GoFalls(s, a.c);
        MeasureFalls(s, u, a.c, -1, |s.cars|);
      } else {
        OtherFalls(s, a);
        MeasureFalls(s, u, a.c, 22, |s.cars|);
      }
      BoundedSteps(u, acts[1..], t);
    }
  }

  lemma {:induction false} OnlySteps(acts: seq<Action>)
    requires forall i | 0 <= i < |acts| :: acts[i].Go?
    ensures Steps(acts) == |acts| && Others(acts) == 0
  {
    if acts != [] { OnlySteps(acts[1..]); }
  }

  /** Without arrivals and spurious wake-ups every schedule comes to an end, within a bound set by the
      first state, and where it can go no further every car is away. */
  lemma EveryScheduleEnds(s: State, acts: seq<Action>, t: State)
    requires Inv(s) && Runs(s, acts, t) && (forall i | 0 <= i < |acts| :: acts[i].Go?)
    ensures |acts| <= Measure(s, |s.cars|)
    ensures (forall c :: !CanMove(t, c)) <==> (forall c | t.Has(c) :: t.cars[c].pc.Idle?)
  {
    OnlySteps(acts);
    BoundedSteps(s, acts, t);
    ReachableInv(s, acts, t);
    AtRestIffAway(t);
  }

  lemma SomebodySteps(s: State, c: int) returns (m: int)
    requires Inv(s) && s.Has(c) && !s.cars[c].pc.Idle?
    ensures Enabled(s, Go(m))
    ensures var t := Next(s, Go(m)); Inv(t) && Measure(t, |t.cars|) < Measure(s, |s.cars|)
  {
    m := NoDeadlock(s, c);
    GoFalls(s, m);
    MeasureFalls(s, Move(s, m), m, -1, |s.cars|);
    StepInv(s, Go(m));
  }

  /** And there is such a schedule from every state: all cars can get away. */
  lemma {:induction false} AllGetAway(s: State) returns (acts: seq<Action>, t: State)
    requires Inv(s)
    ensures Runs(s, acts, t) && (forall i | 0 <= i < |acts| :: acts[i].Go?)
    ensures forall c | t.Has(c) :: t.cars[c].pc.Idle?
    decreases Measure(s, |s.cars|)
  {
    if c :| s.Has(c) && !s.cars[c].pc.Idle? {
      var m := SomebodySteps(s, c);
      var rest;
      rest, t := AllGetAway(Next(s, Go(m)));
      acts := [Go(m)] + rest;
      Prepend(s, Go(m), rest, t);
    } else {
      acts, t := [], s;
    }
  }

  // ------------------------------------------------------------------ order

  /** First come, first served per direction: cars enter from a queue in the order in which they
      joined it. */
  lemma EntersInArrivalOrder(s: State, q: Queue)
    requires Inv(s)
    ensures s.entered[q] <= s.arrived[q]
  {
    assert HistoryOk(s, q);
    if s.queue[q] != [] { assert s.arrived[q] == s.gone[q] + [s.queue[q][0]] + s.queue[q][1..]; }
  }

  /** From the check that it heads its queue until it has left it, a car is first in its queue; and
      nothing but its own departure moves it from there. */
  lemma StaysFirst(s: State, a: Action, c: int)
    requires Inv(s) && Enabled(s, a) && s.Has(c) && !s.cars[c].pc.Idle?
    ensures var q := s.cars[c].pc.q;
      && (PastQueue(s.cars[c].pc) ==> IsHead(s, c, q))
      && (IsHead(s, c, q) ==> IsHead(Next(s, a), c, q) || (a == Go(c) && s.cars[c].pc.Departing?))
  {
    assert CarOk(s, c);
    if a.Go? { MoveQueues(s, a.c); }
  }

  /** A step of a car leaves the queues alone, or takes that car off the front of its own. */
  lemma MoveQueues(s: State, c: int)
    requires Inv(s) && CanMove(s, c)
    ensures var p, t := s.cars[c].pc, Move(s, c);
      if p.Departing? then IsHead(s, c, p.q) && t.queue == s.queue[p.q := s.queue[p.q][1..]] else t.queue == s.queue
  {
    assert CarOk(s, c);
    var p := s.cars[c].pc;
    if p.Admitting? && p.i < 4 && s.queue[p.i] != [] { EnterInv(s, s.queue[p.i][0], p.i); }
    if p.Trying? && s.cars[c].turn.Want? { EnterInv(s, c, p.q); }
  }

  /** dequeue_car takes its caller off the queue, and nobody else. */
  lemma DequeuesItself(s: State, c: int)
    requires Inv(s) && s.Has(c) && s.cars[c].pc.Departing?
    ensures CanMove(s, c)
    ensures var q := s.cars[c].pc.q; s.queue[q] == [c] + Move(s, c).queue[q]
  {
    assert CarOk(s, c);
  }
}

/** The invariant of the intersection protocol, kept by every step of every car. */
module IntersectionSafety {
  import opened Intersection

  predicate IsHead(s: State, c: int, q: Queue) {
    s.queue[q] != [] && s.queue[q][0] == c
  }

  /** The program points at which a car holds the intersection lock. */
  predicate Holding(p: Pc) {
    p.Trying? || p.Acquiring? || p.Leaving? || p.Admitting?
  }

  predicate PastQueue(p: Pc) {
    !p.Idle? && !p.Approaching? && !p.QueueAsleep?
  }

  predicate TurnFits(p: Pc, t: Turn) {
    match p
    case Idle => t.NoTurn?
    case Approaching(_) => !t.NoTurn?
    case AtLine(_) => !t.NoTurn?
    case Trying(_) => !t.NoTurn?
    case Woken(_) => !t.NoTurn?
    case QueueAsleep(_) => t.Want?
    case Asleep(_) => t.Want?
    case Acquiring(_, _) => t.Turning?
    case Crossing(_) => t.Turning?
    case Leaving(_) => t.Turning?
    case Admitting(_, _) => t.NoTurn?
    case Departing(_) => t.NoTurn?
  }

  ghost predicate LockOk(s: State) {
    && (s.lock == NOBODY || s.Has(s.lock))
    && (forall c | s.Has(c) :: Holding(s.cars[c].pc) <==> s.lock == c)
  }

  predicate CarOk(s: State, c: int)
    requires s.Has(c)
  {
    var Car(turn, p) := s.cars[c];
    && TurnFits(p, turn)
    && (!p.Idle? ==> c in s.queue[p.q])
    && (PastQueue(p) || turn.Turning? ==> IsHead(s, c, p.q))
    && (p.QueueAsleep? ==> !IsHead(s, c, p.q))
  }

  ghost predicate CarsOk(s: State) {
    forall c | s.Has(c) :: CarOk(s, c)
  }

  /** Each car is in at most one queue and at most once. */
  ghost predicate QueuesOk(s: State) {
    && s.Shape()
    && (forall q, k | 0 <= q < 4 && 0 <= k < |s.queue[q]| ::
          var p := s.cars[s.queue[q][k]].pc; !p.Idle? && p.q == q)
    && (forall q, j, k | 0 <= q < 4 && 0 <= j < k < |s.queue[q]| :: s.queue[q][j] != s.queue[q][k])
  }

  predicate OnRoute(car: Car, i: int) {
    !car.pc.Idle? && !car.turn.NoTurn? && i in Route(car.pc.q, car.turn.dir)
  }

  /** Claims match routes: quadrant i is car c's exactly when c is turning and i is on its route. */
  ghost predicate ClaimsOk(s: State) {
    && (forall i | 0 <= i < 4 :: s.quadrant[i] == NOBODY || s.Has(s.quadrant[i]))
    && (forall c, i | s.Has(c) && 0 <= i < 4 ::
          s.quadrant[i] == c <==> s.cars[c].turn.Turning? && OnRoute(s.cars[c], i))
  }

  /** A car at p has taken the locks of those of its quadrants that precede its loop index. */
  predicate Taken(p: Pc, i: int) {
    p.Crossing? || p.Leaving? || (p.Acquiring? && i < p.i)
  }

  /** A held quadrant lock belongs to the car that claims the quadrant. */
  ghost predicate QlocksOk(s: State) {
    forall i | 0 <= i < 4 ::
      && (s.qlock[i] != NOBODY ==> s.qlock[i] == s.quadrant[i])
      && (s.Has(s.quadrant[i]) ==> (s.qlock[i] != NOBODY <==> Taken(s.cars[s.quadrant[i]].pc, i)))
  }

  /** A quadrant on c's route is claimed by another car. */
  ghost predicate Blocked(s: State, c: int)
    requires s.Has(c)
  {
    exists i :: 0 <= i < 4 && OnRoute(s.cars[c], i) && s.quadrant[i] != NOBODY && s.quadrant[i] != c
  }

  /** The holder of the lock is still going to visit queue q. */
  predicate Expected(s: State, q: int) {
    s.Has(s.lock) && s.cars[s.lock].pc.Admitting? && s.cars[s.lock].pc.i <= q
  }

  /** No lost wake-up: a car asleep at the intersection is blocked, or about to be visited. */
  ghost predicate WakeOk(s: State) {
    forall c | s.Has(c) && s.cars[c].pc.Asleep? :: Blocked(s, c) || Expected(s, s.cars[c].pc.q)
  }

  predicate HistoryOk(s: State, q: Queue)
    requires s.Shape()
  {
    && s.arrived[q] == s.gone[q] + s.queue[q]
    && s.entered[q] == s.gone[q] + if s.queue[q] != [] && !s.cars[s.queue[q][0]].turn.Want? then [s.queue[q][0]] else []
  }

  /** Where the cars are. */
  ghost predicate Places(s: State) {
    LockOk(s) && QueuesOk(s) && CarsOk(s) && (forall q | 0 <= q < 4 :: HistoryOk(s, q))
  }

  /** Who owns what. */
  ghost predicate Claims(s: State) {
    ClaimsOk(s) && QlocksOk(s)
  }

  ghost predicate Inv(s: State) {
    Places(s) && Claims(s) && WakeOk(s)
  }

  ghost predicate Initial(s: State) {
    && s.lock == NOBODY
    && (forall c | s.Has(c) :: s.cars[c] == Car(NoTurn, Idle))
    && (forall i | 0 <= i < 4 :: s.quadrant[i] == NOBODY && s.qlock[i] == NOBODY)
    && (forall q | 0 <= q < 4 :: s.queue[q] == [] && s.arrived[q] == [] && s.entered[q] == [] && s.gone[q] == [])
  }

  // ------------------------------------------------------------------ a car moves on

  /** Car c goes on to p without changing queue, turn or claims. */
  function Onward(s: State, c: int, p: Pc, lock: int, qlock: Quadrants): State
    requires s.Has(c)
  {
    s.At(c, p).(lock := lock, qlock := qlock)
  }

  ghost predicate PlaceFits(s: State, c: int, p: Pc, lock: int)
    requires s.Has(c)
  {
    var Car(turn, p0) := s.cars[c];
    && !p0.Idle? && !p.Idle? && p.q == p0.q && TurnFits(p, turn)
    && (PastQueue(p) ==> IsHead(s, c, p.q))
    && (p.QueueAsleep? ==> !IsHead(s, c, p.q))
    && (if Holding(p) then lock == c && (s.lock == c || s.lock == NOBODY)
        else lock == if s.lock == c then NOBODY else s.lock)
  }

  /** Quadrant locks change only for c's own quadrants, and as p says. */
  ghost predicate LocksFit(s: State, c: int, p: Pc, qlock: Quadrants) {
    forall i | 0 <= i < 4 ::
      if s.quadrant[i] == c then qlock[i] == if Taken(p, i) then c else NOBODY else qlock[i] == s.qlock[i]
  }

  /** Nobody that is asleep after the step is forgotten. */
  ghost predicate SleepersFit(s: State, c: int, p: Pc, lock: int)
    requires s.Has(c)
  {
    && (p.Asleep? ==> Blocked(s, c))
    && (s.cars[c].pc.Admitting? && s.lock == c ==>
          forall k | s.Has(k) && k != c && s.cars[k].pc.Asleep? ::
            Blocked(s, k) || (p.Admitting? && lock == c && p.i <= s.cars[k].pc.q))
  }

  lemma OnwardPlaces(s: State, c: int, p: Pc, lock: int, qlock: Quadrants)
    requires Places(s) && s.Has(c) && PlaceFits(s, c, p, lock)
    ensures Places(Onward(s, c, p, lock, qlock))
  {
    var t := Onward(s, c, p, lock, qlock);
    assert CarOk(s, c);
    forall k | s.Has(k) ensures CarOk(t, k) { assert CarOk(s, k); }
    forall q | 0 <= q < 4 ensures HistoryOk(t, q) { assert HistoryOk(s, q); }
  }

  lemma OnwardClaims(s: State, c: int, p: Pc, lock: int, qlock: Quadrants)
    requires Claims(s) && s.Has(c) && LocksFit(s, c, p, qlock)
    requires !s.cars[c].pc.Idle? && !p.Idle? && p.q == s.cars[c].pc.q
    ensures Claims(Onward(s, c, p, lock, qlock))
  {
    var t := Onward(s, c, p, lock, qlock);
    assert forall k, i | s.Has(k) :: OnRoute(t.cars[k], i) == OnRoute(s.cars[k], i);
  }

  lemma OnwardWake(s: State, c: int, p: Pc, lock: int, qlock: Quadrants)
    requires LockOk(s) && WakeOk(s) && s.Has(c) && PlaceFits(s, c, p, lock) && SleepersFit(s, c, p, lock)
    ensures WakeOk(Onward(s, c, p, lock, qlock))
  {
    var t := Onward(s, c, p, lock, qlock);
    forall k | t.Has(k) && t.cars[k].pc.Asleep?
      ensures Blocked(t, k) || Expected(t, t.cars[k].pc.q)
    {
      if k == c {
        var i :| 0 <= i < 4 && OnRoute(s.cars[c], i) && s.quadrant[i] != NOBODY && s.quadrant[i] != c;
        assert OnRoute(t.cars[c], i);
      } else if Blocked(s, k) {
        StillBlocked(s, t, k);
      }
    }
  }

  lemma OnwardInv(s: State, c: int, p: Pc, lock: int, qlock: Quadrants)
    requires Inv(s) && s.Has(c)
    requires PlaceFits(s, c, p, lock) && LocksFit(s, c, p, qlock) && SleepersFit(s, c, p, lock)
    ensures Inv(Onward(s, c, p, lock, qlock))
  {
    OnwardPlaces(s, c, p, lock, qlock);
    OnwardClaims(s, c, p, lock, qlock);
    OnwardWake(s, c, p, lock, qlock);
  }

  lemma StillBlocked(s: State, t: State, c: int)
    requires s.Has(c) && t.Has(c) && Blocked(s, c)
    requires t.cars[c] == s.cars[c]
    requires forall i | 0 <= i < 4 && s.quadrant[i] != NOBODY :: t.quadrant[i] == s.quadrant[i]
    ensures Blocked(t, c)
  {
    var i :| 0 <= i < 4 && OnRoute(s.cars[c], i) && s.quadrant[i] != NOBODY && s.quadrant[i] != c;
    assert OnRoute(t.cars[c], i);
  }

  lemma SignalInv(s: State, c: int)
    requires Inv(s) && s.Has(c)
    requires s.cars[c].pc.QueueAsleep? || s.cars[c].pc.Asleep?
    ensures Inv(Signal(s, c))
  {
    var p := s.cars[c].pc;
    assert CarOk(s, c);
    OnwardInv(s, c, if p.Asleep? then Woken(p.q) else Approaching(p.q), s.lock, s.qlock);
  }

  // ------------------------------------------------------------------ arriving

  lemma ArriveCars(s: State, c: int, q: Queue, d: Dir)
    requires Inv(s) && Enabled(s, Arrive(c, q, d))
    ensures CarsOk(Next(s, Arrive(c, q, d)))
  {
    var t := Next(s, Arrive(c, q, d));
    assert t.queue[q][|s.queue[q]|] == c;
    forall k | s.Has(k) ensures CarOk(t, k) { assert CarOk(s, k); }
  }

  lemma ArrivePlaces(s: State, c: int, q: Queue, d: Dir)
    requires Inv(s) && Enabled(s, Arrive(c, q, d))
    ensures Places(Next(s, Arrive(c, q, d)))
  {
    ArriveCars(s, c, q, d);
    ArriveQueues(s, c, q, d);
  }

  lemma ArriveQueues(s: State, c: int, q: Queue, d: Dir)
    requires Inv(s) && Enabled(s, Arrive(c, q, d))
    ensures var t := Next(s, Arrive(c, q, d)); QueuesOk(t) && LockOk(t) && forall p | 0 <= p < 4 :: HistoryOk(t, p)
  {
    var t := Next(s, Arrive(c, q, d));
    assert forall p, k | 0 <= p < 4 && 0 <= k < |s.queue[p]| :: s.queue[p][k] != c;
    forall p | 0 <= p < 4 ensures HistoryOk(t, p) { assert HistoryOk(s, p); }
  }

  lemma ArriveInv(s: State, c: int, q: Queue, d: Dir)
    requires Inv(s) && Enabled(s, Arrive(c, q, d))
    ensures Inv(Next(s, Arrive(c, q, d)))
  {
    ArrivePlaces(s, c, q, d);
    ArriveClaims(s, c, q, d);
    ArriveWake(s, c, q, d);
  }

  lemma ArriveClaims(s: State, c: int, q: Queue, d: Dir)
    requires Inv(s) && Enabled(s, Arrive(c, q, d))
    ensures Claims(Next(s, Arrive(c, q, d)))
  {
    assert CarOk(s, c);
  }

  lemma ArriveWake(s: State, c: int, q: Queue, d: Dir)
    requires Inv(s) && Enabled(s, Arrive(c, q, d))
    ensures WakeOk(Next(s, Arrive(c, q, d)))
  {
    var t := Next(s, Arrive(c, q, d));
    assert CarOk(s, c);
    forall k | s.Has(k) && t.cars[k].pc.Asleep? ensures Blocked(t, k) || Expected(t, t.cars[k].pc.q) {
      if Blocked(s, k) { StillBlocked(s, t, k); }
    }
  }

  // ------------------------------------------------------------------ entering

  /** Car c, which heads queue q and is not asleep, gets the quadrants of its route. */
  function Grant(s: State, c: int, q: Queue, d: Dir): State
    requires s.Has(c)
  {
    s.WithTurn(c, Turning(d)).(quadrant := Attempt(s.quadrant, c, Route(q, d)).0,
                               entered := s.entered[q := s.entered[q] + [c]])
  }

  ghost predicate CanGrant(s: State, c: int, q: Queue, d: Dir) {
    && Inv(s) && s.Has(c) && IsHead(s, c, q)
    && s.cars[c].turn == Want(d)
    && !s.cars[c].pc.QueueAsleep? && !s.cars[c].pc.Asleep?
    && Clear(s.quadrant, Route(q, d))
  }

  lemma WantsNothingYet(s: State, c: int)
    requires Inv(s) && s.Has(c) && !s.cars[c].turn.Turning?
    ensures c !in s.quadrant
  {
    assert forall i | 0 <= i < 4 :: s.quadrant[i] != c;
  }

  lemma HeadIsHome(s: State, c: int, q: Queue)
    requires QueuesOk(s) && IsHead(s, c, q)
    ensures s.Has(c) && !s.cars[c].pc.Idle? && s.cars[c].pc.q == q
  {
  }

  lemma GrantPlaces(s: State, c: int, q: Queue, d: Dir)
    requires CanGrant(s, c, q, d)
    ensures Places(Grant(s, c, q, d))
  {
    var t := Grant(s, c, q, d);
    HeadIsHome(s, c, q);
    assert CarOk(s, c);
    forall k | s.Has(k) ensures CarOk(t, k) { assert CarOk(s, k); }
    forall p | 0 <= p < 4 ensures HistoryOk(t, p) {
      assert HistoryOk(s, p);
      if p != q && IsHead(s, c, p) { HeadIsHome(s, c, p); }
    }
  }

  lemma GrantClaims(s: State, c: int, q: Queue, d: Dir)
    requires CanGrant(s, c, q, d)
    ensures Claims(Grant(s, c, q, d))
  {
    GrantClaimsOk(s, c, q, d);
    WantsNothingYet(s, c);
    AttemptSpec(s.quadrant, c, Route(q, d));
    assert CarOk(s, c);
  }

  lemma GrantClaimsOk(s: State, c: int, q: Queue, d: Dir)
    requires CanGrant(s, c, q, d)
    ensures ClaimsOk(Grant(s, c, q, d))
  {
    var t := Grant(s, c, q, d);
    HeadIsHome(s, c, q);
    WantsNothingYet(s, c);
    AttemptSpec(s.quadrant, c, Route(q, d));
    assert CarOk(s, c);
    assert forall i :: OnRoute(t.cars[c], i) <==> i in Route(q, d);
    forall k, i | s.Has(k) && 0 <= i < 4
      ensures t.quadrant[i] == k <==> t.cars[k].turn.Turning? && OnRoute(t.cars[k], i)
    {
      assert s.quadrant[i] == k <==> s.cars[k].turn.Turning? && OnRoute(s.cars[k], i);
    }
  }

  lemma GrantInv(s: State, c: int, q: Queue, d: Dir)
    requires CanGrant(s, c, q, d)
    ensures Inv(Grant(s, c, q, d))
  {
    GrantPlaces(s, c, q, d);
    GrantClaims(s, c, q, d);
    WantsNothingYet(s, c);
    AttemptSpec(s.quadrant, c, Route(q, d));
    var t := Grant(s, c, q, d);
    forall k | s.Has(k) && t.cars[k].pc.Asleep? ensures Blocked(t, k) || Expected(t, t.cars[k].pc.q) {
      if Blocked(s, k) { StillBlocked(s, t, k); }
    }
  }

  /** A car that heads its queue claims all of its route or nothing. It enters exactly when it wants
      to turn and no quadrant of its route is taken; otherwise nothing changes at all. */
  lemma EnterAllOrNothing(s: State, c: int, q: Queue)
    requires Inv(s) && IsHead(s, c, q)
    ensures s.Has(c)
    ensures var turn := s.cars[c].turn;
      if turn.Want? && Clear(s.quadrant, Route(q, turn.dir))
      then Enter(s, c, q) == Grant(Signal(s, c), c, q, turn.dir)
      else Enter(s, c, q) == s && (turn.Want? ==> Blocked(s, c))
  {
    HeadIsHome(s, c, q);
    assert CarOk(s, c);
    if s.cars[c].turn.Want? {
      WantsNothingYet(s, c);
      AttemptSpec(s.quadrant, c, Route(q, s.cars[c].turn.dir));
      if !Clear(s.quadrant, Route(q, s.cars[c].turn.dir)) { ObstacleBlocks(s, c, q); }
    }
  }

  lemma ObstacleBlocks(s: State, c: int, q: Queue)
    requires Inv(s) && IsHead(s, c, q) && s.cars[c].turn.Want?
    requires !Clear(s.quadrant, Route(q, s.cars[c].turn.dir))
    ensures Blocked(s, c)
  {
    HeadIsHome(s, c, q);
    WantsNothingYet(s, c);
    var route := Route(q, s.cars[c].turn.dir);
    var i :| 0 <= i < |route| && s.quadrant[route[i]] != NOBODY;
    assert OnRoute(s.cars[c], route[i]);
  }

  lemma GrantAwake(s: State, c: int, q: Queue, d: Dir)
    requires Inv(s) && IsHead(s, c, q) && s.Has(c) && s.cars[c].turn == Want(d) && Clear(s.quadrant, Route(q, d))
    ensures var t := Grant(Signal(s, c), c, q, d);
      && Inv(t) && t.cars[c].turn == Turning(d)
      && t.lock == s.lock && t.queue == s.queue && |t.cars| == |s.cars|
      && (forall k | s.Has(k) && k != c :: t.cars[k] == s.cars[k])
  {
    assert CarOk(s, c);
    HeadIsHome(s, c, q);
    if s.cars[c].pc.Asleep? { SignalInv(s, c); }
    GrantInv(Signal(s, c), c, q, d);
  }

  lemma EnterInv(s: State, c: int, q: Queue)
    requires Inv(s) && IsHead(s, c, q)
    ensures s.Has(c) && Inv(Enter(s, c, q))
    ensures var t := Enter(s, c, q);
      && (t.cars[c].turn.Want? ==> Blocked(t, c))
      && t.lock == s.lock && t.queue == s.queue && |t.cars| == |s.cars|
      && (forall k | s.Has(k) && k != c :: t.cars[k] == s.cars[k])
  {
    EnterAllOrNothing(s, c, q);
    var turn := s.cars[c].turn;
    if turn.Want? && Clear(s.quadrant, Route(q, turn.dir)) { GrantAwake(s, c, q, turn.dir); }
  }

  lemma SleepInv(s: State, c: int, q: Queue)
    requires Inv(s) && s.Has(c) && s.cars[c].pc == Trying(q) && s.cars[c].turn.Want? && Blocked(s, c)
    ensures Inv(s.At(c, Asleep(q)).(lock := NOBODY))
  {
    assert CarOk(s, c);
    OnwardInv(s, c, Asleep(q), NOBODY, s.qlock);
  }

  lemma TryInv(s: State, c: int, q: Queue)
    requires Inv(s) && s.Has(c) && s.cars[c].pc == Trying(q)
    ensures Inv(Try(s, c, q))
  {
    assert CarOk(s, c);
    if s.cars[c].turn.Want? {
      EnterInv(s, c, q);
      EnterAllOrNothing(s, c, q);
      var t := Enter(s, c, q);
      if !t.cars[c].turn.Turning? { SleepInv(t, c, q); }
    } else {
      OnwardInv(s, c, Acquiring(q, 0), s.lock, s.qlock);
    }
  }

  lemma OwnLocks(s: State, c: int)
    requires Claims(s) && s.Has(c)
    ensures LocksFit(s, c, s.cars[c].pc, s.qlock)
  {
  }

  lemma AcquireInv(s: State, c: int, q: Queue, i: Index)
    requires Inv(s) && CanMove(s, c) && s.cars[c].pc == Acquiring(q, i)
    ensures Inv(Move(s, c))
  {
    if i == 4 {
      AcquiredInv(s, c, q);
      assert Move(s, c) == Onward(s, c, Crossing(q), NOBODY, s.qlock);
    } else {
      AcquireOneInv(s, c, q, i);
      var qlock: Quadrants := if s.quadrant[i] == c then s.qlock[i := c] else s.qlock;
      assert Move(s, c) == Onward(s, c, Acquiring(q, i + 1), s.lock, qlock);
    }
  }

  lemma AcquiredInv(s: State, c: int, q: Queue)
    requires Inv(s) && s.Has(c) && s.cars[c].pc == Acquiring(q, 4)
    ensures Inv(Onward(s, c, Crossing(q), NOBODY, s.qlock))
  {
    assert CarOk(s, c);
    OwnLocks(s, c);
    OnwardInv(s, c, Crossing(q), NOBODY, s.qlock);
  }

  lemma AcquireOneInv(s: State, c: int, q: Queue, i: Queue)
    requires Inv(s) && s.Has(c) && s.cars[c].pc == Acquiring(q, i)
    ensures var qlock: Quadrants := if s.quadrant[i] == c then s.qlock[i := c] else s.qlock;
      Inv(Onward(s, c, Acquiring(q, i + 1), s.lock, qlock))
  {
    assert CarOk(s, c);
    OwnLocks(s, c);
    var qlock: Quadrants := if s.quadrant[i] == c then s.qlock[i := c] else s.qlock;
    assert LocksFit(s, c, Acquiring(q, i + 1), qlock) by {
      forall k | 0 <= k < 4 && s.quadrant[k] == c
        ensures qlock[k] == if Taken(Acquiring(q, i + 1), k) then c else NOBODY
      {
        assert s.qlock[k] == if k < i then c else NOBODY;
      }
    }
    OnwardInv(s, c, Acquiring(q, i + 1), s.lock, qlock);
  }

  // ------------------------------------------------------------------ leaving

  lemma LeavePlaces(s: State, c: int)
    requires Inv(s) && s.Has(c) && s.cars[c].pc.Leaving?
    ensures Places(Move(s, c))
  {
    var t := Move(s, c);
    assert CarOk(s, c);
    forall k | s.Has(k) ensures CarOk(t, k) { assert CarOk(s, k); }
    forall p | 0 <= p < 4 ensures HistoryOk(t, p) { assert HistoryOk(s, p); }
  }

  lemma LeaveClaims(s: State, c: int)
    requires Inv(s) && s.Has(c) && s.cars[c].pc.Leaving?
    ensures Claims(Move(s, c))
  {
    var t := Move(s, c);
    assert forall k, i | s.Has(k) && k != c :: OnRoute(t.cars[k], i) == OnRoute(s.cars[k], i);
    assert forall i | 0 <= i < 4 :: s.quadrant[i] != c ==> t.quadrant[i] == s.quadrant[i] && t.qlock[i] == s.qlock[i];
  }

  lemma LeaveInv(s: State, c: int)
    requires Inv(s) && s.Has(c) && s.cars[c].pc.Leaving?
    ensures Inv(Move(s, c))
  {
    LeavePlaces(s, c);
    LeaveClaims(s, c);
    var t := Move(s, c);
    assert forall k | s.Has(k) && t.cars[k].pc.Asleep? :: Expected(t, t.cars[k].pc.q);
  }

  /** Car c is in the intersection, or something is in its way. */
  ghost predicate Served(s: State, c: int) {
    s.Has(c) && (s.cars[c].turn.Turning? || Blocked(s, c))
  }

  /** A visit to queue i lets its first car in, whatever that car is doing, exactly when it wants to
      turn and its route is clear; otherwise it is blocked, or wants nothing. So afterwards no car of
      that queue is asleep without being blocked. */
  lemma VisitInv(s: State, i: Queue)
    requires Inv(s)
    ensures s.queue[i] != [] ==>
      var h, t := s.queue[i][0], Visit(s, i);
      && s.Has(h) && t.Has(h)
      && (s.cars[h].turn.Want? ==>
            var d := s.cars[h].turn.dir;
            && (Clear(s.quadrant, Route(i, d)) ==> t.cars[h].turn == Turning(d))
            && (!Clear(s.quadrant, Route(i, d)) ==> t.cars[h].turn == Want(d) && Blocked(t, h)))
    ensures var t := Visit(s, i);
      && Inv(t) && t.lock == s.lock && |t.cars| == |s.cars|
      && (forall k | t.Has(k) && t.cars[k].pc.Asleep? && t.cars[k].pc.q == i :: Blocked(t, k))
      && (forall k | s.Has(k) && !IsHead(s, k, i) :: t.cars[k] == s.cars[k])
  {
    if s.queue[i] != [] {
      EnterInv(s, s.queue[i][0], i);
      EnterAllOrNothing(s, s.queue[i][0], i);
    }
    var t := Visit(s, i);
    forall k | t.Has(k) && t.cars[k].pc.Asleep? && t.cars[k].pc.q == i ensures Blocked(t, k) {
      assert CarOk(t, k);
    }
  }

  /** A visit leaves the visitor as it is, even if it heads the queue itself. */
  lemma VisitSparesVisitor(s: State, c: int, i: Queue)
    requires Inv(s) && s.Has(c) && s.cars[c].pc.Admitting?
    ensures s.Has(c) && c < |Visit(s, i).cars| && Visit(s, i).cars[c] == s.cars[c]
  {
    assert CarOk(s, c);
    if s.queue[i] != [] {
      EnterInv(s, s.queue[i][0], i);
      EnterAllOrNothing(s, s.queue[i][0], i);
    }
  }

  lemma AdmitInv(s: State, c: int, q: Queue, i: Index)
    requires Inv(s) && s.Has(c) && s.cars[c].pc == Admitting(q, i)
    ensures Inv(Move(s, c))
  {
    assert CarOk(s, c);
    if i == 4 {
      OwnLocks(s, c);
      OnwardInv(s, c, Departing(q), NOBODY, s.qlock);
    } else {
      VisitInv(s, i);
      VisitSparesVisitor(s, c, i);
      AdvanceInv(Visit(s, i), c, q, i);
    }
  }

  lemma AdvanceInv(s: State, c: int, q: Queue, i: Queue)
    requires Inv(s) && s.Has(c) && s.cars[c].pc == Admitting(q, i)
    requires forall k | s.Has(k) && s.cars[k].pc.Asleep? && s.cars[k].pc.q == i :: Blocked(s, k)
    ensures Inv(s.At(c, Admitting(q, i + 1)))
  {
    assert CarOk(s, c);
    OwnLocks(s, c);
    OnwardInv(s, c, Admitting(q, i + 1), c, s.qlock);
  }

  // ------------------------------------------------------------------ departing

  /** Car c, first of queue q, leaves it; the next car is awake. */
  function Dequeued(s: State, c: int, q: Queue): State
    requires s.Has(c) && s.queue[q] != []
  {
    s.At(c, Idle).(queue := s.queue[q := s.queue[q][1..]], gone := s.gone[q := s.gone[q] + [s.queue[q][0]]])
  }

  ghost predicate CanDequeue(s: State, c: int, q: Queue) {
    && Inv(s) && s.Has(c) && s.cars[c].pc == Departing(q) && IsHead(s, c, q)
    && (|s.queue[q]| > 1 ==> !s.cars[s.queue[q][1]].pc.QueueAsleep?)
  }

  lemma DequeuedCars(s: State, c: int, q: Queue)
    requires CanDequeue(s, c, q)
    ensures CarsOk(Dequeued(s, c, q))
  {
    var t := Dequeued(s, c, q);
    assert CarOk(s, c);
    forall k | s.Has(k) ensures CarOk(t, k) {
      assert CarOk(s, k);
      if k != c && !s.cars[k].pc.Idle? && s.cars[k].pc.q == q {
        var j :| 0 <= j < |s.queue[q]| && s.queue[q][j] == k;
        assert t.queue[q][j - 1] == k;
      }
    }
  }

  lemma DequeuedQueues(s: State, c: int, q: Queue)
    requires CanDequeue(s, c, q)
    ensures var t := Dequeued(s, c, q); QueuesOk(t) && LockOk(t) && (forall p | 0 <= p < 4 :: HistoryOk(t, p))
  {
    var t := Dequeued(s, c, q);
    assert CarOk(s, c);
    assert forall k | 0 <= k < |t.queue[q]| :: t.queue[q][k] == s.queue[q][k + 1] != c;
    if |s.queue[q]| > 1 { assert CarOk(s, s.queue[q][1]); }
    forall p | 0 <= p < 4 ensures HistoryOk(t, p) {
      assert HistoryOk(s, p);
      if p != q && IsHead(s, c, p) { HeadIsHome(s, c, p); }
    }
  }

  lemma DequeuedInv(s: State, c: int, q: Queue)
    requires CanDequeue(s, c, q)
    ensures Inv(Dequeued(s, c, q))
  {
    DequeuedCars(s, c, q);
    DequeuedQueues(s, c, q);
    assert CarOk(s, c);
    var t := Dequeued(s, c, q);
    forall k | s.Has(k) && t.cars[k].pc.Asleep? ensures Blocked(t, k) || Expected(t, t.cars[k].pc.q) {
      if Blocked(s, k) { StillBlocked(s, t, k); }
    }
  }

  lemma DepartInv(s: State, c: int)
    requires Inv(s) && CanMove(s, c) && s.cars[c].pc.Departing?
    ensures Inv(Move(s, c))
  {
    var q := s.cars[c].pc.q;
    assert CarOk(s, c);
    if |s.queue[q]| > 1 {
      var next := s.queue[q][1];
      assert CarOk(s, next) && next != c && s.queue[q][1..][0] == next;
      if s.cars[next].pc.QueueAsleep? { SignalInv(s, next); }
      DequeuedInv(Signal(s, next), c, q);
      assert Move(s, c) == Dequeued(Signal(s, next), c, q);
    } else {
      DequeuedInv(s, c, q);
      assert Move(s, c) == Dequeued(s, c, q);
    }
  }

  // ------------------------------------------------------------------ every step

  lemma GoInv(s: State, c: int)
    requires Inv(s) && CanMove(s, c)
    ensures Inv(Move(s, c))
  {
    assert CarOk(s, c);
    OwnLocks(s, c);
    match s.cars[c].pc {
      case Approaching(q) => OnwardInv(s, c, if IsHead(s, c, q) then AtLine(q) else QueueAsleep(q), s.lock, s.qlock);
      case AtLine(q) => OnwardInv(s, c, Trying(q), c, s.qlock);
      case Woken(q) => OnwardInv(s, c, Trying(q), c, s.qlock);
      case Trying(q) => TryInv(s, c, q);
      case Acquiring(q, i) => AcquireInv(s, c, q, i);
      case Crossing(q) => OnwardInv(s, c, Leaving(q), c, s.qlock);
      case Leaving(_) => LeaveInv(s, c);
      case Admitting(q, i) => AdmitInv(s, c, q, i);
      case Departing(_) => DepartInv(s, c);
    }
  }

  lemma StepInv(s: State, a: Action)
    requires Inv(s) && Enabled(s, a)
    ensures Inv(Next(s, a))
  {
    match a {
      case Arrive(c, q, d) => ArriveInv(s, c, q, d);
      case Go(c) => GoInv(s, c);
      case Spurious(c) => SignalInv(s, c);
    }
  }
}

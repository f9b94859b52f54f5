/** What leave_intersection does for the others, and what a car keeps from its arrival to its exit. */
module IntersectionLeaving {
  import opened Intersection
  import opened IntersectionSafety

  // ------------------------------------------------------------------ one step

  /** The leaving car goes from queue to queue, and serves the first car of each. */
  lemma AdmitServes(s: State, c: int, q: Queue, i: Queue)
    requires Inv(s) && s.Has(c) && s.cars[c].pc == Admitting(q, i)
    ensures Move(s, c).lock == c && Move(s, c).cars[c].pc == Admitting(q, i + 1)
    ensures s.queue[i] != [] ==>
      var h := s.queue[i][0]; s.Has(h) && (s.cars[h].turn.Want? ==> Served(Move(s, c), h))
  {
    assert CarOk(s, c);
    VisitInv(s, i);
    VisitSparesVisitor(s, c, i);
    if s.queue[i] != [] {
      var h := s.queue[i][0];
      if s.cars[h].turn.Want? {
        assert h != c;
        OnlyPc(Visit(s, i), c, Admitting(q, i + 1), h);
      }
    }
  }

  lemma OnlyPc(s: State, c: int, p: Pc, h: int)
    requires s.Has(c) && s.Has(h) && h != c && Served(s, h)
    ensures Served(s.At(c, p), h)
  {
    var t := s.At(c, p);
    assert t.cars[h] == s.cars[h];
    if Blocked(s, h) {
      var i :| 0 <= i < 4 && OnRoute(s.cars[h], i) && s.quadrant[i] != NOBODY && s.quadrant[i] != h;
      assert OnRoute(t.cars[h], i) && t.quadrant[i] == s.quadrant[i];
    }
  }

  /** Claims only grow in a step, and car h stays on its way. */
  ghost predicate Stays(s: State, t: State, h: int) {
    && |t.cars| == |s.cars| && s.Has(h)
    && (forall i | 0 <= i < 4 && s.quadrant[i] != NOBODY :: t.quadrant[i] == s.quadrant[i])
    && (t.cars[h].turn == s.cars[h].turn || (s.cars[h].turn.Want? && t.cars[h].turn == Turning(s.cars[h].turn.dir)))
    && (s.cars[h].pc.Idle? || t.cars[h].pc.Idle? || t.cars[h].pc.q == s.cars[h].pc.q)
    && (t.cars[h].pc.Idle? ==> s.cars[h].turn.NoTurn?)
  }

  lemma StaysServed(s: State, t: State, h: int)
    requires Stays(s, t, h) && Served(s, h) && !s.cars[h].pc.Idle?
    ensures Served(t, h)
  {
    if !s.cars[h].turn.Turning? {
      var i :| 0 <= i < 4 && OnRoute(s.cars[h], i) && s.quadrant[i] != NOBODY && s.quadrant[i] != h;
      if !t.cars[h].turn.Turning? { assert OnRoute(t.cars[h], i) && t.quadrant[i] == s.quadrant[i]; }
    }
  }

  /** Somebody enters, on their own or on somebody's behalf: nobody loses anything. */
  lemma EnterStays(s: State, c: int, q: Queue, h: int)
    requires Inv(s) && IsHead(s, c, q) && s.Has(h)
    ensures s.Has(c) && Stays(s, Enter(s, c, q), h)
  {
    EnterAllOrNothing(s, c, q);
    EnterInv(s, c, q);
    HeadIsHome(s, c, q);
    if Enter(s, c, q) != s { assert CarOk(s, c); }
  }

  lemma OnwardStays(s: State, c: int, p: Pc, lock: int, qlock: Quadrants, h: int)
    requires s.Has(c) && s.Has(h) && !p.Idle? && !s.cars[c].pc.Idle? && p.q == s.cars[c].pc.q
    requires s.cars[h].pc.Idle? ==> s.cars[h].turn.NoTurn?
    ensures Stays(s, Onward(s, c, p, lock, qlock), h)
  {
  }

  lemma TryStays(s: State, c: int, q: Queue, h: int)
    requires Inv(s) && s.Has(c) && s.cars[c].pc == Trying(q) && s.Has(h)
    ensures Stays(s, Try(s, c, q), h)
  {
    assert CarOk(s, c) && CarOk(s, h);
    if !s.cars[c].turn.Want? {
      OnwardStays(s, c, Acquiring(q, 0), s.lock, s.qlock, h);
    } else {
      EnterStays(s, c, q, h);
      EnterAllOrNothing(s, c, q);
      if Enter(s, c, q) == s { OnwardStays(s, c, Asleep(q), NOBODY, s.qlock, h); }
    }
  }

  lemma AdmitStays(s: State, c: int, q: Queue, i: Queue, h: int)
    requires Inv(s) && s.Has(c) && s.cars[c].pc == Admitting(q, i) && s.Has(h)
    ensures Stays(s, Move(s, c), h)
  {
    assert CarOk(s, c) && CarOk(s, h);
    VisitInv(s, i);
    VisitSparesVisitor(s, c, i);
    if s.queue[i] != [] { EnterStays(s, s.queue[i][0], i, h); }
  }

  lemma DepartStays(s: State, c: int, q: Queue, h: int)
    requires Inv(s) && CanMove(s, c) && s.cars[c].pc == Departing(q) && s.Has(h) && !s.cars[h].pc.Idle?
    ensures Stays(s, Depart(s, c, q), h)
  {
    assert CarOk(s, c) && CarOk(s, h);
    var rest := s.queue[q][1..];
    if rest != [] { assert rest[0] == s.queue[q][1] != c; }
  }

  lemma GoStays(s: State, c: int, h: int)
    requires Inv(s) && CanMove(s, c) && !s.cars[c].pc.Leaving? && s.Has(h) && !s.cars[h].pc.Idle?
    ensures Stays(s, Move(s, c), h)
  {
    match s.cars[c].pc {
      case Approaching(q) =>
        OnwardStays(s, c, if IsHead(s, c, q) then AtLine(q) else QueueAsleep(q), s.lock, s.qlock, h);
      case AtLine(q) => OnwardStays(s, c, Trying(q), c, s.qlock, h);
      case Woken(q) => OnwardStays(s, c, Trying(q), c, s.qlock, h);
      case Trying(q) => TryStays(s, c, q, h);
      case Acquiring(q, i) =>
        if i == 4 {
          OnwardStays(s, c, Crossing(q), NOBODY, s.qlock, h);
        } else {
          OnwardStays(s, c, Acquiring(q, i + 1), s.lock, if s.quadrant[i] == c then s.qlock[i := c] else s.qlock, h);
        }
      case Crossing(q) => OnwardStays(s, c, Leaving(q), c, s.qlock, h);
      case Admitting(q, i) =>
        if i == 4 { OnwardStays(s, c, Departing(q), NOBODY, s.qlock, h); } else { AdmitStays(s, c, q, i, h); }
      case Departing(q) => DepartStays(s, c, q, h);
    }
  }

  /** From its arrival until it gives up its quadrants, a car keeps its queue and the turn that it
      chose; it goes from wanting the turn to making it, and nobody's claim is taken away. */
  lemma KeepsItsTurn(s: State, a: Action, h: int)
    requires Inv(s) && Enabled(s, a) && s.Has(h) && !s.cars[h].pc.Idle?
    requires !(a.Go? && s.cars[a.c].pc.Leaving?)
    ensures Stays(s, Next(s, a), h)
  {
    if a.Go? { GoStays(s, a.c, h); }
  }

  /** A car arrives behind the others of its queue, wanting the turn that it chose. */
  lemma ArrivesAs(s: State, c: int, q: Queue, d: Dir)
    requires Inv(s) && Enabled(s, Arrive(c, q, d))
    ensures var t := Next(s, Arrive(c, q, d));
      && t.cars[c] == Car(Want(d), Approaching(q)) && t.queue[q] == s.queue[q] + [c]
      && (forall k | s.Has(k) && k != c :: t.cars[k] == s.cars[k])
      && (forall p | 0 <= p < 4 && p != q :: t.queue[p] == s.queue[p])
  {
  }

  // ------------------------------------------------------------------ the whole of leave_intersection

  /** While c visits the queues, it holds the lock and only its own steps take it further. */
  lemma VisitorSteps(s: State, a: Action, c: int, q: Queue, i: Index)
    requires Inv(s) && Enabled(s, a) && s.Has(c) && s.cars[c].pc == Admitting(q, i)
    ensures s.lock == c && !(a.Go? && s.cars[a.c].pc.Leaving?)
    ensures Next(s, a).cars[c].pc ==
            if a != Go(c) then Admitting(q, i) else if i < 4 then Admitting(q, i + 1) else Departing(q)
  {
    assert CarOk(s, c);
    if a == Go(c) {
      if i < 4 { AdmitServes(s, c, q, i); }
    } else if a.Go? {
      OthersGo(s, a.c, c);
    }
  }

  /** Nobody else moves a car that holds the lock. */
  lemma OthersGo(s: State, k: int, c: int)
    requires Inv(s) && CanMove(s, k) && k != c && s.Has(c) && s.cars[c].pc.Admitting?
    ensures !s.cars[k].pc.Leaving? && Move(s, k).cars[c] == s.cars[c]
  {
    assert CarOk(s, k) && Holding(s.cars[c].pc) && !Holding(s.cars[k].pc);
    if s.cars[k].pc.Departing? {
      var rest := s.queue[s.cars[k].pc.q][1..];
      if rest != [] { assert rest[0] == s.queue[s.cars[k].pc.q][1] != k; }
    }
  }

  /** A run during which c is visiting the queues. */
  ghost predicate Visiting(states: seq<State>, acts: seq<Action>, c: int, q: Queue) {
    && |states| == |acts| + 1
    && (forall i | 0 <= i < |states| :: At(states[i], c, q))
    && (forall i | 0 <= i < |acts| :: StepAt(states, acts, i))
  }

  predicate At(s: State, c: int, q: Queue) {
    s.Has(c) && s.cars[c].pc.Admitting? && s.cars[c].pc.q == q
  }

  predicate StepAt(states: seq<State>, acts: seq<Action>, i: nat) {
    && i < |acts| && i + 1 < |states|
    && states[i].Shape() && Enabled(states[i], acts[i]) && states[i + 1] == Next(states[i], acts[i])
  }

  lemma {:induction false} VisitingInv(states: seq<State>, acts: seq<Action>, c: int, q: Queue, i: nat)
    requires Visiting(states, acts, c, q) && Inv(states[0]) && i < |states|
    ensures Inv(states[i])
  {
    if i > 0 {
      VisitingInv(states, acts, c, q, i - 1);
      assert StepAt(states, acts, i - 1);
      StepInv(states[i - 1], acts[i - 1]);
    }
  }

  lemma ServedNext(s: State, a: Action, c: int, q: Queue, h: int)
    requires Inv(s) && Enabled(s, a) && At(s, c, q) && Served(s, h)
    ensures Served(Next(s, a), h)
  {
    assert CarOk(s, h);
    VisitorSteps(s, a, c, q, s.cars[c].pc.i);
    KeepsItsTurn(s, a, h);
    StaysServed(s, Next(s, a), h);
  }

  /** Who is served stays so while c is visiting. */
  lemma {:induction false} ServedAlong(states: seq<State>, acts: seq<Action>, c: int, q: Queue, h: int,
                                       i: nat, j: nat)
    requires Visiting(states, acts, c, q) && Inv(states[0]) && i <= j < |states| && Served(states[i], h)
    ensures Served(states[j], h)
    decreases j
  {
    if i < j {
      ServedAlong(states, acts, c, q, h, i, j - 1);
      VisitingInv(states, acts, c, q, j - 1);
      assert StepAt(states, acts, j - 1) && At(states[j - 1], c, q);
      ServedNext(states[j - 1], acts[j - 1], c, q, h);
    }
  }

  /** The visit to queue j, before moment n of the run. */
  lemma {:induction false} FindVisit(states: seq<State>, acts: seq<Action>, c: int, q: Queue, j: Queue, n: nat)
    returns (i: nat)
    requires Visiting(states, acts, c, q) && Inv(states[0]) && n < |states|
    requires At(states[0], c, q) && At(states[n], c, q)
    requires states[0].cars[c].pc.i == 0 && j < states[n].cars[c].pc.i
    ensures i < n && acts[i] == Go(c) && states[i].cars[c].pc == Admitting(q, j)
    decreases n
  {
    VisitingInv(states, acts, c, q, n - 1);
    var s := states[n - 1];
    assert StepAt(states, acts, n - 1) && At(s, c, q);
    VisitorSteps(s, acts[n - 1], c, q, s.cars[c].pc.i);
    if s.cars[c].pc.i == j { i := n - 1; } else { i := FindVisit(states, acts, c, q, j, n - 1); }
  }

  /** Over the whole of leave_intersection, however the others' steps fall in between: each queue is
      visited, and whoever was first in it then and wanted to turn is in the intersection or blocked
      when the leaving car is done. */
  lemma LeaverServesAll(states: seq<State>, acts: seq<Action>, c: int, q: Queue, j: Queue) returns (i: nat)
    requires Visiting(states, acts, c, q) && Inv(states[0]) && At(states[0], c, q) && At(states[|acts|], c, q)
    requires states[0].cars[c].pc.i == 0 && states[|acts|].cars[c].pc.i == 4
    ensures i < |acts| && acts[i] == Go(c) && states[i].cars[c].pc == Admitting(q, j)
    ensures states[i].queue[j] != [] ==>
      var h := states[i].queue[j][0];
      states[i].Has(h) && (states[i].cars[h].turn.Want? ==> Served(states[|acts|], h))
  {
    i := FindVisit(states, acts, c, q, j, |acts|);
    VisitingInv(states, acts, c, q, i);
    var s := states[i];
    AdmitServes(s, c, q, j);
    assert StepAt(states, acts, i);
    if s.queue[j] != [] && s.cars[s.queue[j][0]].turn.Want? {
      ServedAlong(states, acts, c, q, s.queue[j][0], i + 1, |acts|);
    }
  }
}

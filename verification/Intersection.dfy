/** The intersection protocol: any number of car threads, each a program counter over the atomic
    steps of car_main. A section that takes and drops a queue lock without asking for another lock
    is one step; the intersection lock and the quadrant locks are held across steps. */
module Intersection {

  // ------------------------------------------------------------------ routes

  datatype Dir = Left | Straight | Right
  datatype Turn = NoTurn | Want(dir: Dir) | Turning(dir: Dir)

  const NW := 0
  const NE := 1
  const SW := 2
  const SE := 3

  const N := 0
  const S := 1
  const E := 2
  const W := 3

  const NOBODY := -1

  type Queue = q: int | 0 <= q < 4
  type Index = i: int | 0 <= i <= 4
  type Quadrants = s: seq<int> | |s| == 4 witness [NOBODY, NOBODY, NOBODY, NOBODY]
  type Queues = s: seq<seq<int>> | |s| == 4 witness [[], [], [], []]

  /** The next quadrant counter-clockwise. */
  function Ccw(quadrant: int): int {
    if quadrant == NW then SW else if quadrant == SW then SE else if quadrant == SE then NE else NW
  }

  /** The three quadrants in front of a car from queue q, in the order that it meets them: traffic
      keeps to the right and goes round the centre counter-clockwise. */
  function Ahead(q: Queue): (r: seq<int>)
    ensures |r| == 3 && r[1] == Ccw(r[0]) && r[2] == Ccw(r[1])
    ensures (forall i | 0 <= i < 3 :: 0 <= r[i] < 4)
    ensures r[0] != r[1] && r[0] != r[2] && r[1] != r[2]
  {
    if q == N then [NW, SW, SE]
    else if q == S then [SE, NE, NW]
    else if q == E then [NE, NW, SW]
    else [SW, SE, NE]
  }

  function NumQuadrants(turn: Turn): int {
    match turn
    case NoTurn => -1
    case Want(d) => Length(d)
    case Turning(d) => Length(d)
  }

  function Length(d: Dir): (n: int)
    ensures 1 <= n <= 3
  {
    match d case Left => 3 case Straight => 2 case Right => 1
  }

  function Route(q: Queue, d: Dir): (r: seq<int>)
    ensures |r| == Length(d)
    ensures forall i | 0 <= i < |r| :: 0 <= r[i] < 4
    ensures forall i, j | 0 <= i < j < |r| :: r[i] != r[j]
  {
    Ahead(q)[..Length(d)]
  }

  /** Sides and quadrants numbered counter-clockwise; a car from side k meets quadrant k first. */
  function Side(q: Queue): int {
    if q == N then 0 else if q == W then 1 else if q == S then 2 else 3
  }

  function Position(quadrant: int): int {
    if quadrant == NW then 0 else if quadrant == SW then 1 else if quadrant == SE then 2 else 3
  }

  /** Steps counter-clockwise from a to b. */
  function Gap(a: int, b: int): int {
    if a <= b then b - a else b - a + 4
  }

  /** A route is the arc that starts at the car's own side and is as long as the turn. */
  lemma RouteIsArc(q: Queue, d: Dir, i: int)
    ensures i in Route(q, d) <==> 0 <= i < 4 && Gap(Side(q), Position(i)) < Length(d)
  {
    var r, a := Route(q, d), Ahead(q);
    assert r[0] == a[0];
    if d == Straight { assert r == [a[0], a[1]]; }
    if d == Left { assert r == [a[0], a[1], a[2]]; }
    if d == Right { assert r == [a[0]]; }
  }

  /** The side across, and the side that is next counter-clockwise, where a right turn leads. */
  function Opposite(q: Queue): Queue {
    if q == N then S else if q == S then N else if q == E then W else E
  }

  function RightOf(q: Queue): Queue {
    if q == N then W else if q == W then S else if q == S then E else N
  }

  function Exit(q: Queue, d: Dir): Queue {
    match d case Right => RightOf(q) case Straight => Opposite(q) case Left => Opposite(RightOf(q))
  }

  predicate Borders(quadrant: int, side: Queue) {
    || (side == N && quadrant in {NW, NE}) || (side == S && quadrant in {SW, SE})
    || (side == W && quadrant in {NW, SW}) || (side == E && quadrant in {NE, SE})
  }

  /** A route leads from the car's side to the side that its turn is for, and no shorter part of it
      does. */
  lemma RouteLeads(q: Queue, d: Dir)
    ensures var r := Route(q, d);
      && Borders(r[0], q) && Borders(r[|r| - 1], Exit(q, d))
      && (forall i | 0 <= i < |r| - 1 :: !Borders(r[i], Exit(q, d)))
  {
    var r, a := Route(q, d), Ahead(q);
    if d == Straight { assert r == [a[0], a[1]]; }
    if d == Left { assert r == [a[0], a[1], a[2]]; }
    if d == Right { assert r == [a[0]]; }
  }

  /** Two cars from different sides can cross at once exactly when each turns off before it reaches
      the other's side. */
  lemma CompatibleIff(p: Queue, d: Dir, q: Queue, e: Dir)
    requires p != q
    ensures (forall i :: !(i in Route(p, d) && i in Route(q, e))) <==>
            Length(d) <= Gap(Side(p), Side(q)) && Length(e) <= Gap(Side(q), Side(p))
  {
    forall i ensures i in Route(p, d) <==> 0 <= i < 4 && Gap(Side(p), Position(i)) < Length(d) { RouteIsArc(p, d, i); }
    forall i ensures i in Route(q, e) <==> 0 <= i < 4 && Gap(Side(q), Position(i)) < Length(e) { RouteIsArc(q, e, i); }
    var i, j := Ahead(p)[0], Ahead(q)[0];
    assert Position(i) == Side(p) && Position(j) == Side(q);
    assert i in Route(p, d) && j in Route(q, e);
  }

  // ------------------------------------------------------------------ claims

  /** attempt_quadrant on each of the route's quadrants in turn, until one fails. */
  function Claim(quadrant: seq<int>, c: int, route: seq<int>): (r: (seq<int>, bool))
    requires forall i | 0 <= i < |route| :: 0 <= route[i] < |quadrant|
    ensures |r.0| == |quadrant|
    decreases |route|
  {
    if route == [] then (quadrant, true)
    else if quadrant[route[0]] == NOBODY then Claim(quadrant[route[0] := c], c, route[1..])
    else (quadrant, false)
  }

  /** Give up every claim of car c. */
  function Release(quadrant: seq<int>, c: int): (r: seq<int>)
    ensures |r| == |quadrant|
    ensures forall i | 0 <= i < |quadrant| :: r[i] == if quadrant[i] == c then NOBODY else quadrant[i]
  {
    seq(|quadrant|, i requires 0 <= i < |quadrant| => if quadrant[i] == c then NOBODY else quadrant[i])
  }

  predicate Clear(quadrant: seq<int>, route: seq<int>)
    requires forall i | 0 <= i < |route| :: 0 <= route[i] < |quadrant|
  {
    forall i | 0 <= i < |route| :: quadrant[route[i]] == NOBODY
  }

  lemma {:induction false} ClaimSpec(quadrant: seq<int>, c: int, route: seq<int>)
    requires forall i | 0 <= i < |route| :: 0 <= route[i] < |quadrant|
    requires forall i, j | 0 <= i < j < |route| :: route[i] != route[j]
    ensures var (claimed, ok) := Claim(quadrant, c, route);
      && ok == Clear(quadrant, route)
      && |claimed| == |quadrant|
      && (forall i | 0 <= i < |quadrant| ::
            claimed[i] == quadrant[i] || (i in route && quadrant[i] == NOBODY && claimed[i] == c))
      && (ok ==> forall i | 0 <= i < |route| :: claimed[route[i]] == c)
    decreases |route|
  {
    if route != [] && quadrant[route[0]] == NOBODY {
      var next := quadrant[route[0] := c];
      ClaimSpec(next, c, route[1..]);
      assert forall i | 0 <= i < |route[1..]| :: route[1..][i] == route[i + 1] && route[i + 1] != route[0];
      var (claimed, ok) := Claim(next, c, route[1..]);
      assert claimed[route[0]] == c;
      forall i | 0 <= i < |route| && ok ensures claimed[route[i]] == c {
        if i > 0 { assert route[1..][i - 1] == route[i]; }
      }
    }
  }

  /** All or nothing: enter_intersection for a car that wants to turn and claims nothing yet. */
  function Attempt(quadrant: seq<int>, c: int, route: seq<int>): (r: (seq<int>, bool))
    requires forall i | 0 <= i < |route| :: 0 <= route[i] < |quadrant|
    ensures |r.0| == |quadrant|
  {
    var (claimed, ok) := Claim(quadrant, c, route);
    if ok then (claimed, true) else (Release(claimed, c), false)
  }

  lemma AttemptSpec(quadrant: seq<int>, c: int, route: seq<int>)
    requires forall i | 0 <= i < |route| :: 0 <= route[i] < |quadrant|
    requires forall i, j | 0 <= i < j < |route| :: route[i] != route[j]
    requires c != NOBODY && c !in quadrant
    ensures var (after, ok) := Attempt(quadrant, c, route);
      && ok == Clear(quadrant, route)
      && |after| == |quadrant|
      && (!ok ==> after == quadrant)
      && (ok ==> forall i | 0 <= i < |quadrant| :: after[i] == if i in route then c else quadrant[i])
  {
    ClaimSpec(quadrant, c, route);
  }

  // ------------------------------------------------------------------ state and steps

  /** Where a car thread is in car_main, with the queue that it came from. */
  datatype Pc =
    | Idle
    | Approaching(q: Queue)         // about to check whether it heads its queue
    | QueueAsleep(q: Queue)         // waiting to head its queue
    | AtLine(q: Queue)              // heads its queue; wants the intersection lock
    | Trying(q: Queue)              // holds the lock, at the test of the entry loop
    | Asleep(q: Queue)              // waiting to be let into the intersection
    | Woken(q: Queue)               // signalled; wants the lock back
    | Acquiring(q: Queue, i: Index) // holds the lock, taking quadrant locks from i on
    | Crossing(q: Queue)            // in the intersection; next it wants the lock
    | Leaving(q: Queue)             // holds the lock, about to give up its quadrants
    | Admitting(q: Queue, i: Index) // holds the lock, visiting the queues from i on
    | Departing(q: Queue)           // about to leave its queue

  datatype Car = Car(turn: Turn, pc: Pc)

  /** `lock` and `qlock` say who holds the intersection lock and the quadrant locks. `arrived`,
      `entered` and `gone` are history: per queue, the cars that joined it, entered the
      intersection from it, and left it, in order. */
  datatype State = State(cars: seq<Car>, quadrant: Quadrants, qlock: Quadrants, queue: Queues, lock: int,
                         arrived: Queues, entered: Queues, gone: Queues)
  {
    predicate Has(c: int) { 0 <= c < |cars| }

    predicate Shape() {
      forall q, k | 0 <= q < 4 && 0 <= k < |queue[q]| :: Has(queue[q][k])
    }

    function At(c: int, pc: Pc): State
      requires Has(c)
    {
      this.(cars := cars[c := cars[c].(pc := pc)])
    }

    function WithTurn(c: int, turn: Turn): State
      requires Has(c)
    {
      this.(cars := cars[c := cars[c].(turn := turn)])
    }
  }

  /** pthread_cond_signal on car c's condition variable. */
  function Signal(s: State, c: int): State
    requires s.Has(c)
  {
    match s.cars[c].pc
    case Asleep(q) => s.At(c, Woken(q))
    case QueueAsleep(q) => s.At(c, Approaching(q))
    case _ => s
  }

  /** enter_intersection, by or on behalf of car c from queue q. */
  function Enter(s: State, c: int, q: Queue): State
    requires s.Has(c)
  {
    match s.cars[c].turn
    case NoTurn => s
    case Turning(_) => Signal(s, c)
    case Want(d) =>
      var (after, ok) := Attempt(s.quadrant, c, Route(q, d));
      if !ok then s.(quadrant := after)
      else Signal(s.WithTurn(c, Turning(d)).(quadrant := after, entered := s.entered[q := s.entered[q] + [c]]), c)
  }

  /** Car c can take its next step. Sleepers cannot, nor can a car whose next lock is taken. */
  predicate CanMove(s: State, c: int) {
    s.Has(c) &&
    match s.cars[c].pc
    case Idle => false
    case QueueAsleep(_) => false
    case Asleep(_) => false
    case AtLine(_) => s.lock == NOBODY
    case Woken(_) => s.lock == NOBODY
    case Crossing(_) => s.lock == NOBODY
    case Acquiring(_, i) => i < 4 && s.quadrant[i] == c ==> s.qlock[i] == NOBODY
    case Departing(q) => s.queue[q] != []
    case _ => true
  }

  function Move(s: State, c: int): State
    requires s.Shape() && CanMove(s, c)
  {
    match s.cars[c].pc
    case Approaching(q) => s.At(c, if s.queue[q] != [] && s.queue[q][0] == c then AtLine(q) else QueueAsleep(q))
    case AtLine(q) => s.At(c, Trying(q)).(lock := c)
    case Woken(q) => s.At(c, Trying(q)).(lock := c)
    case Trying(q) => Try(s, c, q)
    case Acquiring(q, i) =>
      if i == 4 then s.At(c, Crossing(q)).(lock := NOBODY)
      else s.At(c, Acquiring(q, i + 1)).(qlock := if s.quadrant[i] == c then s.qlock[i := c] else s.qlock)
    case Crossing(q) => s.At(c, Leaving(q)).(lock := c)
    case Leaving(q) => Leave(s, c, q)
    case Admitting(q, i) =>
      if i == 4 then s.At(c, Departing(q)).(lock := NOBODY)
      else Visit(s, i).At(c, Admitting(q, i + 1))
    case Departing(q) => Depart(s, c, q)
  }

  /** One turn of the entry loop. */
  function Try(s: State, c: int, q: Queue): State
    requires s.Has(c)
  {
    if !s.cars[c].turn.Want? then s.At(c, Acquiring(q, 0))
    else
      var t := Enter(s, c, q);
      if t.cars[c].turn.Turning? then t else t.At(c, Asleep(q)).(lock := NOBODY)
  }

  /** The first half of leave_intersection: give up the quadrants and their locks. */
  function Leave(s: State, c: int, q: Queue): State
    requires s.Has(c)
  {
    s.At(c, Admitting(q, 0)).WithTurn(c, NoTurn).(
      qlock := seq(4, i requires 0 <= i < 4 => if s.quadrant[i] == c then NOBODY else s.qlock[i]),
      quadrant := Release(s.quadrant, c))
  }

  /** The second half of leave_intersection, for queue i: try to let its first car in. */
  function Visit(s: State, i: Queue): (t: State)
    requires s.Shape()
    ensures |t.cars| == |s.cars|
  {
    if s.queue[i] == [] then s else Enter(s, s.queue[i][0], i)
  }

  /** dequeue_car: take the first car off the queue and wake the next. */
  function Depart(s: State, c: int, q: Queue): State
    requires s.Shape() && s.Has(c) && s.queue[q] != []
  {
    var rest := s.queue[q][1..];
    var t := s.At(c, Idle).(queue := s.queue[q := rest], gone := s.gone[q := s.gone[q] + [s.queue[q][0]]]);
    if rest == [] then t else Signal(t, rest[0])
  }

  datatype Action =
    | Arrive(c: int, q: Queue, dir: Dir) // pick a queue and a turn, and join the queue
    | Go(c: int)
    | Spurious(c: int)                   // a wait returns without a signal

  predicate Enabled(s: State, a: Action) {
    match a
    case Arrive(c, q, _) => s.Has(c) && s.cars[c].pc.Idle?
    case Go(c) => CanMove(s, c)
    case Spurious(c) => s.Has(c) && (s.cars[c].pc.Asleep? || s.cars[c].pc.QueueAsleep?)
  }

  function Next(s: State, a: Action): (t: State)
    requires s.Shape() && Enabled(s, a)
    ensures t.Shape() && |t.cars| == |s.cars|
  {
    match a
    case Arrive(c, q, d) =>
      s.At(c, Approaching(q)).WithTurn(c, Want(d)).(
        queue := s.queue[q := s.queue[q] + [c]],
        arrived := s.arrived[q := s.arrived[q] + [c]])
    case Go(c) => Move(s, c)
    case Spurious(c) => Signal(s, c)
  }
}

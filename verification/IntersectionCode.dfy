/** The bodies of the intersection's atomic steps as the program has them: the quadrant array and
    the linked queues, updated in place, proved against the functions of the protocol. */
module IntersectionCode {
  import opened Intersection

  class CarThread {
    const cid: int
    var turn: Turn
    var next: CarThread?

    constructor (cid: int)
      ensures this.cid == cid && turn == NoTurn && next == null
    {
      this.cid, turn, next := cid, NoTurn, null;
    }
  }

  /** The quadrant array: which car has claimed each quadrant. */
  class Junction {
    const quadrant: array<int>

    constructor ()
      ensures fresh(quadrant) && quadrant[..] == [NOBODY, NOBODY, NOBODY, NOBODY]
    {
      quadrant := new int[4](_ => NOBODY);
    }

    method AttemptQuadrant(car: CarThread, quad: int) returns (ok: bool)
      requires 0 <= quad < quadrant.Length
      modifies quadrant
      ensures ok == (old(quadrant[quad]) == NOBODY)
      ensures quadrant[..] == if ok then old(quadrant[..])[quad := car.cid] else old(quadrant[..])
    {
      if quadrant[quad] == NOBODY {
        quadrant[quad] := car.cid;
        return true;
      } else {
        return false;
      }
    }

    /** The chain of attempts for a route of up to three quadrants. */
    method AttemptAll(car: CarThread, a: int, b: int, c: int, n: int) returns (ok: bool)
      requires quadrant.Length == 4 && 1 <= n <= 3 && 0 <= a < 4 && 0 <= b < 4 && 0 <= c < 4
      modifies quadrant
      ensures (quadrant[..], ok) == Claim(old(quadrant[..]), car.cid, [a, b, c][..n])
    {
      ghost var start := quadrant[..];
      Unroll(start, car.cid, a, b, c, n);
      ok := AttemptQuadrant(car, a);
      if ok && n >= 2 { ok := AttemptQuadrant(car, b); }
      if ok && n >= 3 { ok := AttemptQuadrant(car, c); }
    }

    /** Free the quadrants that the car claims. */
    method ReleaseAll(car: CarThread)
      requires quadrant.Length == 4
      modifies quadrant
      ensures quadrant[..] == Release(old(quadrant[..]), car.cid)
    {
      for i := 0 to 4
        invariant forall k | 0 <= k < i :: quadrant[k] == Release(old(quadrant[..]), car.cid)[k]
        invariant forall k | i <= k < 4 :: quadrant[k] == old(quadrant[k])
      {
        if quadrant[i] == car.cid { quadrant[i] := NOBODY; }
      }
    }

    method EnterIntersection(car: CarThread, qid: Queue) returns (entered: bool)
      requires quadrant.Length == 4
      modifies quadrant, car`turn
      ensures match old(car.turn)
        case NoTurn => !entered && car.turn == NoTurn && quadrant[..] == old(quadrant[..])
        case Turning(d) => entered && car.turn == Turning(d) && quadrant[..] == old(quadrant[..])
        case Want(d) =>
          && (quadrant[..], entered) == Attempt(old(quadrant[..]), car.cid, Route(qid, d))
          && car.turn == if entered then Turning(d) else Want(d)
    {
      if car.turn == NoTurn { return false; }
      if car.turn.Want? {
        var d := car.turn.dir;
        var n := match d case Left => 3 case Straight => 2 case Right => 1;
        var ok;
        if qid == N {
          ok := AttemptAll(car, NW, SW, SE, n);
        } else if qid == S {
          ok := AttemptAll(car, SE, NE, NW, n);
        } else if qid == E {
          ok := AttemptAll(car, NE, NW, SW, n);
        } else {
          ok := AttemptAll(car, SW, SE, NE, n);
        }
        if ok { car.turn := Turning(d); }
      }
      if car.turn.Want? {
        ReleaseAll(car);
        return false;
      }
      return true;
    }
  }

  lemma Unroll(q: seq<int>, cid: int, a: int, b: int, c: int, n: int)
    requires |q| == 4 && 1 <= n <= 3 && 0 <= a < 4 && 0 <= b < 4 && 0 <= c < 4
    ensures var r := Claim(q, cid, [a, b, c][..n]);
      var q1 := q[a := cid]; var q2 := q1[b := cid]; var q3 := q2[c := cid];
      if q[a] != NOBODY then r == (q, false)
      else if n == 1 then r == (q1, true)
      else if q1[b] != NOBODY then r == (q1, false)
      else if n == 2 then r == (q2, true)
      else if q2[c] != NOBODY then r == (q2, false)
      else r == (q3, true)
  {
    var route := [a, b, c][..n];
    ClaimFirst(q, cid, a, route[1..]);
    assert route == [a] + route[1..];
    if n >= 2 {
      ClaimFirst(q[a := cid], cid, b, route[2..]);
      assert route[1..] == [b] + route[2..];
    }
    if n >= 3 {
      ClaimFirst(q[a := cid][b := cid], cid, c, []);
      assert route == [a, b, c] && route[2..] == [c] + [];
    }
  }

  lemma ClaimFirst(q: seq<int>, cid: int, x: int, rest: seq<int>)
    requires 0 <= x < |q| && (forall i | 0 <= i < |rest| :: 0 <= rest[i] < |q|)
    ensures Claim(q, cid, [x] + rest) == if q[x] == NOBODY then Claim(q[x := cid], cid, rest) else (q, false)
  {
    assert ([x] + rest)[1..] == rest;
  }

  // ------------------------------------------------------------------ queues

  /** The car after position i of a list, or null. */
  function After(cars: seq<CarThread>, i: int): CarThread? {
    if 0 <= i + 1 < |cars| then cars[i + 1] else null
  }

  /** No car is in two places. */
  ghost predicate Apart(lists: seq<seq<CarThread>>) {
    forall q, i, p, j | 0 <= q < |lists| && 0 <= i < |lists[q]| && 0 <= p < |lists| && 0 <= j < |lists[p]| &&
                        lists[q][i] == lists[p][j] :: q == p && i == j
  }

  lemma AppendApart(lists: seq<seq<CarThread>>, qid: int, car: CarThread)
    requires Apart(lists) && 0 <= qid < |lists|
    requires forall q, i | 0 <= q < |lists| && 0 <= i < |lists[q]| :: lists[q][i] != car
    ensures Apart(lists[qid := lists[qid] + [car]])
  {
  }

  /** Appending changes what follows the last car, and nothing else. */
  lemma AfterAppend(lists: seq<seq<CarThread>>, qid: int, car: CarThread, q: int, i: int)
    requires Apart(lists) && 0 <= qid < |lists| && lists[qid] != [] && 0 <= q < |lists|
    requires 0 <= i < |lists[qid := lists[qid] + [car]][q]|
    ensures var list, last := lists[qid := lists[qid] + [car]][q], lists[qid][|lists[qid]| - 1];
      if i == |lists[q]| then q == qid && list[i] == car && After(list, i) == null
      else list[i] == lists[q][i] && After(list, i) == if lists[q][i] == last then car else After(lists[q], i)
  {
  }

  class CarQueues {
    const queue: array<CarThread?>
    /** The cars of each queue, in order. */
    ghost var lists: seq<seq<CarThread>>

    ghost function Cars(): set<CarThread>
      reads this
    {
      set q, i | 0 <= q < |lists| && 0 <= i < |lists[q]| :: lists[q][i]
    }

    /** Following next from the head of a queue visits exactly the cars of its list and ends, and no
        car is in two places; so no queue is cyclic. */
    ghost predicate Valid()
      reads this, queue, Cars()
    {
      && queue.Length == 4 && |lists| == 4
      && (forall q | 0 <= q < 4 :: queue[q] == After(lists[q], -1))
      && (forall q, i | 0 <= q < 4 && 0 <= i < |lists[q]| :: lists[q][i].next == After(lists[q], i))
      && Apart(lists)
    }

    constructor ()
      ensures Valid() && fresh(queue) && lists == [[], [], [], []]
    {
      queue := new CarThread?[4](_ => null);
      lists := [[], [], [], []];
    }

    /** Crawl the queue to its end. */
    method LastCar(qid: Queue) returns (cur: CarThread)
      requires Valid() && lists[qid] != []
      ensures cur == lists[qid][|lists[qid]| - 1]
    {
      cur := queue[qid];
      ghost var k := 0;
      while cur.next != null
        invariant 0 <= k < |lists[qid]| && cur == lists[qid][k]
        decreases |lists[qid]| - k
      {
        assert lists[qid][k].next == After(lists[qid], k);
        cur := cur.next;
        k := k + 1;
      }
      assert lists[qid][k].next == After(lists[qid], k);
    }

    method LinkAfter(cur: CarThread, car: CarThread, qid: Queue)
      requires Valid() && lists[qid] != [] && cur == lists[qid][|lists[qid]| - 1]
      requires car !in Cars() && car.next == null
      modifies cur`next, this`lists
      ensures Valid() && lists == old(lists)[qid := old(lists)[qid] + [car]]
    {
      ghost var before := lists;
      ghost var after := lists[qid := lists[qid] + [car]];
      assert forall q, i | 0 <= q < 4 && 0 <= i < |before[q]| :: before[q][i] in Cars();
      AppendApart(before, qid, car);
      cur.next := car;
      lists := after;
      forall q, i | 0 <= q < 4 && 0 <= i < |after[q]| ensures after[q][i].next == After(after[q], i) {
        AfterAppend(before, qid, car, q, i);
        if i < |before[q]| { assert old(before[q][i].next) == After(before[q], i); }
      }
    }

    method StartQueue(car: CarThread, qid: Queue)
      requires Valid() && lists[qid] == [] && car !in Cars() && car.next == null
      modifies queue, this`lists
      ensures Valid() && lists == old(lists)[qid := old(lists)[qid] + [car]]
    {
      assert forall q, i | 0 <= q < 4 && 0 <= i < |lists[q]| :: lists[q][i] in Cars();
      AppendApart(lists, qid, car);
      queue[qid] := car;
      lists := lists[qid := lists[qid] + [car]];
    }

    method QueueCar(car: CarThread, qid: Queue)
      requires Valid() && car !in Cars() && car.next == null
      modifies this, queue, Cars()`next
      ensures Valid() && lists == old(lists)[qid := old(lists)[qid] + [car]]
    {
      if queue[qid] == null {
        StartQueue(car, qid);
      } else {
        var cur := LastCar(qid);
        assert cur in Cars();
        LinkAfter(cur, car, qid);
      }
    }

    method DequeueCar(qid: Queue)
      requires Valid() && lists[qid] != []
      modifies this, queue, Cars()`next
      ensures Valid() && lists == old(lists)[qid := old(lists)[qid][1..]]
      ensures old(lists)[qid][0].next == null && old(lists)[qid][0] !in Cars()
    {
      ghost var list := lists[qid];
      var tmp := queue[qid];
      assert tmp == lists[qid][0] && tmp in Cars();
      assert tmp.next == After(list, 0);
      queue[qid] := tmp.next;
      tmp.next := null;
      lists := lists[qid := list[1..]];
      assert forall i | 0 <= i < |list| - 1 ::
          lists[qid][i] == list[i + 1] && After(lists[qid], i) == After(list, i + 1);
    }
  }
}

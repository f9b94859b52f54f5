/** The department as the program has it: an array of chairs updated in place under its semaphore. */
module DepartmentCode {
  import opened D = Department

  // ------------------------------------------------------------------ records

  const FREE_WAIT := 30

  /** How long a chair has been free and occupied, up to the time last. */
  datatype Stats = Stats(free: int, occupied: int, last: int)

  datatype Visit = Visit(waitTime: int, visitTime: int, goldOwed: int)

  /** A visit costs its length, or nothing after a long wait. */
  function NewVisit(wait: int, time: int): Visit {
    Visit(wait, time, if wait <= FREE_WAIT then time else 0)
  }

  /** update_chair: somebody sits down now for the given time. */
  function Updated(s: Stats, now: int, time: int): Stats {
    Stats(s.free + (now - s.last), s.occupied + time, now + time)
  }

  /** The chair after visits that began at the times given and lasted as long as given. */
  function AfterVisits(s: Stats, visits: seq<(int, int)>): Stats
    decreases |visits|
  {
    if visits == [] then s
    else Updated(AfterVisits(s, visits[..|visits| - 1]), visits[|visits| - 1].0, visits[|visits| - 1].1)
  }

  function TotalTime(visits: seq<(int, int)>): int
    decreases |visits|
  {
    if visits == [] then 0 else TotalTime(visits[..|visits| - 1]) + visits[|visits| - 1].1
  }

  /** No time is lost: what a chair was free and occupied adds up to the time from when it was put there
      to the end of its last visit, and it was occupied for as long as its visits lasted. */
  lemma {:induction false} TimeAddsUp(start: int, visits: seq<(int, int)>)
    ensures var s := AfterVisits(Stats(0, 0, start), visits);
      && s.free + s.occupied == s.last - start && s.occupied == TotalTime(visits)
      && s.last == if visits == [] then start else visits[|visits| - 1].0 + visits[|visits| - 1].1
    decreases |visits|
  {
    if visits != [] { TimeAddsUp(start, visits[..|visits| - 1]); }
  }

  function VisitsOf(visits: map<int, seq<Visit>>, hum: int): seq<Visit> {
    if hum in visits then visits[hum] else []
  }

  // ------------------------------------------------------------------ the department

  class CostumeDepartment {
    var alignment: Alignment
    const chairs: array<Chair>
    const stats: array<Stats>
    /** Everybody's visits, the most recent first. */
    var visits: map<int, seq<Visit>>

    function State(): D.State
      reads this, chairs
    {
      D.State(alignment, chairs[..])
    }

    /** init_department: the first n of four places get a chair. */
    constructor (team: Team, n: int, now: int)
      ensures fresh(stats) && stats.Length == 4 && (forall i | 0 <= i < 4 :: stats[i] == Stats(0, 0, now))
      ensures visits == map[]
      ensures fresh(chairs) && State().alignment == Settled(team) && D.AllEmpty(State())
      ensures chairs.Length == 4 && (forall i | 0 <= i < 4 :: chairs[i] == if i < n then Chair(NOBODY) else Missing)
    {
      alignment, visits := Settled(team), map[];
      var places := new Chair[4](_ => Missing);
      var i := 0;
      while i < n && i < 4
        invariant 0 <= i <= 4
        invariant forall k | 0 <= k < 4 :: places[k] == if k < i then Chair(NOBODY) else Missing
        invariant i <= n || i == 0
      {
        places[i] := Chair(NOBODY);
        i := i + 1;
      }
      chairs := places;
      stats := new Stats[4](_ => Stats(0, 0, now));
    }

    method ChairFree() returns (r: bool)
      ensures r <==> FirstFree(chairs[..], 0) < chairs.Length
      ensures r <==> exists i :: Free(State(), i)
    {
      for i := 0 to chairs.Length
        invariant forall k | 0 <= k < i :: chairs[k] != Chair(NOBODY)
      {
        if chairs[i].Chair? && chairs[i].hum == NOBODY {
          assert Free(State(), i);
          return true;
        }
      }
      return false;
    }

    method AllEmpty() returns (r: bool)
      ensures r <==> D.AllEmpty(State())
    {
      for i := 0 to chairs.Length
        invariant forall k | 0 <= k < i :: !Occupied(State(), k)
      {
        if chairs[i].Chair? && chairs[i].hum != NOBODY {
          assert Occupied(State(), i);
          return false;
        }
      }
      return true;
    }

    /** The test at the door, for somebody of the team who is outside. */
    method DoorTest(team: Team) returns (r: bool)
      ensures r <==> alignment == Settled(team) && exists i :: Free(State(), i)
    {
      if alignment != Settled(team) { return false; }
      r := ChairFree();
    }

    method Swap(swap: bool)
      modifies this`alignment
      ensures alignment == Decide(old(alignment), swap)
    {
      if alignment.Settled? && swap {
        match alignment.team {
          case Pirate => alignment := Draining(Ninja);
          case Ninja => alignment := Draining(Pirate);
        }
      }
    }

    /** A visitor who has waited so long sits down now for so long. The program aborts where this
        returns true. */
    method EnterDepartment(hum: int, swap: bool, team: int -> Team, now: int, wait: int, time: int)
      returns (fight: bool)
      requires Inv(State(), team) && MayEnter(State(), hum, team(hum)) && stats.Length == chairs.Length
      modifies this`alignment, this`visits, chairs, stats
      ensures State() == Enter(old(State()), hum, swap) && Inv(State(), team) && !fight
      ensures var i := FirstFree(old(chairs[..]), 0);
        && i < stats.Length && stats[i].last == now + time
        && stats[..] == old(stats[..])[i := Updated(old(stats[..])[i], now, time)]
      ensures hum in visits && visits[hum] != [] && visits[hum][1..] == VisitsOf(old(visits), hum)
      ensures visits[hum][0] == Visit(wait, time, if wait <= 30 then time else 0)
      ensures forall k | k != hum :: VisitsOf(visits, k) == VisitsOf(old(visits), k)
    {
      visits := visits[hum := [NewVisit(wait, time)] + VisitsOf(visits, hum)];
      NoFight(State(), hum, team);
      StepInv(State(), Enters(hum, swap), team);
      ghost var before := chairs[..];
      var i := 0;
      while i < chairs.Length
        invariant 0 <= i <= FirstFree(before, 0) && chairs[..] == before && stats[..] == old(stats[..])
        decreases chairs.Length - i
      {
        if chairs[i].Chair? && chairs[i].hum == NOBODY {
          chairs[i] := Chair(hum);
          stats[i] := Updated(stats[i], now, time);
          break;
        }
        i := i + 1;
      }
      assert chairs[..] == Seat(old(State()), hum).chairs;
      fight := false;
      for j := 0 to chairs.Length
        invariant !fight
      {
        assert Occupied(State(), j) ==> team(chairs[j].hum) != Other(team(hum));
        if chairs[j].Chair? && chairs[j].hum != NOBODY && team(chairs[j].hum) == Other(team(hum)) { fight := true; }
      }
      Swap(swap);
    }

    method LeaveDepartment(hum: int, swap: bool)
      modifies this`alignment, chairs
      ensures State() == Leave(old(State()), hum, swap)
    {
      for i := 0 to chairs.Length
        invariant forall k | 0 <= k < i :: chairs[k] == Vacate(old(chairs[..]), hum)[k]
        invariant forall k | i <= k < chairs.Length :: chairs[k] == old(chairs[k])
        invariant alignment == old(alignment)
      {
        if chairs[i].Chair? && chairs[i].hum == hum { chairs[i] := Chair(NOBODY); }
      }
      assert chairs[..] == Vacate(old(chairs[..]), hum);
      Swap(swap);
      if alignment.Draining? {
        var empty := AllEmpty();
        if empty { alignment := Settled(alignment.team); }
      }
    }
  }
}

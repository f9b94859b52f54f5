/** The costume department: pirates and ninjas may not be in it at the same time. The department is
    settled on one team, or it is draining in order to change to the other. */
module Department {

  datatype Team = Pirate | Ninja

  function Other(t: Team): Team {
    if t == Pirate then Ninja else Pirate
  }

  /** PIRATE and NINJA are Settled, TO_PIRATE and TO_NINJA are Draining towards the team named. */
  datatype Alignment = Settled(team: Team) | Draining(team: Team)

  /** The team that may be inside. */
  function Inside(a: Alignment): Team {
    match a case Settled(t) => t case Draining(t) => Other(t)
  }

  const NOBODY := -1

  /** A place for a costume team is missing, or it has a chair with somebody or NOBODY in it. */
  datatype Chair = Missing | Chair(hum: int)

  datatype State = State(alignment: Alignment, chairs: seq<Chair>)

  predicate Occupied(s: State, i: int) {
    0 <= i < |s.chairs| && s.chairs[i].Chair? && s.chairs[i].hum != NOBODY
  }

  predicate Free(s: State, i: int) {
    0 <= i < |s.chairs| && s.chairs[i] == Chair(NOBODY)
  }

  predicate AllEmpty(s: State) {
    forall i | 0 <= i < |s.chairs| :: !Occupied(s, i)
  }

  predicate IsIn(s: State, h: int) {
    h != NOBODY && Chair(h) in s.chairs
  }

  ghost function Occupants(s: State): set<int> {
    set i | 0 <= i < |s.chairs| && Occupied(s, i)
  }

  /** The first free chair from i on, or the number of places. */
  function FirstFree(chairs: seq<Chair>, i: nat): (r: nat)
    requires i <= |chairs|
    ensures i <= r <= |chairs|
    ensures r < |chairs| ==> chairs[r] == Chair(NOBODY)
    ensures forall k | i <= k < r :: chairs[k] != Chair(NOBODY)
    decreases |chairs| - i
  {
    if i == |chairs| || chairs[i] == Chair(NOBODY) then i else FirstFree(chairs, i + 1)
  }

  // ------------------------------------------------------------------ steps

  /** The test at the door. */
  predicate MayEnter(s: State, h: int, team: Team) {
    h != NOBODY && !IsIn(s, h) && s.alignment == Settled(team) && FirstFree(s.chairs, 0) < |s.chairs|
  }

  function Seat(s: State, h: int): State
    requires FirstFree(s.chairs, 0) < |s.chairs|
  {
    s.(chairs := s.chairs[FirstFree(s.chairs, 0) := Chair(h)])
  }

  /** Start to change hands if the department is settled and the swap test says so. */
  function Decide(a: Alignment, swap: bool): Alignment {
    if a.Settled? && swap then Draining(Other(a.team)) else a
  }

  /** enter_department. The swap test depends on queues and clocks and may come out either way. */
  function Enter(s: State, h: int, swap: bool): State
    requires FirstFree(s.chairs, 0) < |s.chairs|
  {
    var t := Seat(s, h);
    t.(alignment := Decide(t.alignment, swap))
  }

  function Vacate(chairs: seq<Chair>, h: int): (r: seq<Chair>)
    ensures |r| == |chairs|
    ensures forall i | 0 <= i < |chairs| :: r[i] == if chairs[i] == Chair(h) then Chair(NOBODY) else chairs[i]
  {
    seq(|chairs|, i requires 0 <= i < |chairs| => if chairs[i] == Chair(h) then Chair(NOBODY) else chairs[i])
  }

  /** The change of hands is complete when a draining department is empty. */
  function Complete(s: State): State {
    if s.alignment.Draining? && AllEmpty(s) then s.(alignment := Settled(s.alignment.team)) else s
  }

  function Leave(s: State, h: int, swap: bool): State {
    Complete(State(Decide(s.alignment, swap), Vacate(s.chairs, h)))
  }

  datatype Event = Enters(h: int, swap: bool) | Leaves(h: int, swap: bool)

  predicate Enabled(s: State, e: Event, team: int -> Team) {
    match e
    case Enters(h, _) => MayEnter(s, h, team(h))
    case Leaves(h, _) => IsIn(s, h)
  }

  function Next(s: State, e: Event): State
    requires e.Enters? ==> FirstFree(s.chairs, 0) < |s.chairs|
  {
    match e
    case Enters(h, swap) => Enter(s, h, swap)
    case Leaves(h, swap) => Leave(s, h, swap)
  }

  // ------------------------------------------------------------------ safety

  /** Everybody inside is of the team that the alignment says, nobody is in two chairs, and a
      department that is draining is not empty. */
  predicate Inv(s: State, team: int -> Team) {
    && (forall i | 0 <= i < |s.chairs| && Occupied(s, i) :: team(s.chairs[i].hum) == Inside(s.alignment))
    && (forall i, j | 0 <= i < |s.chairs| && 0 <= j < |s.chairs| && Occupied(s, i) && s.chairs[i] == s.chairs[j] ::
          i == j)
    && (s.alignment.Draining? ==> !AllEmpty(s))
  }

  /** The check after seating somebody, which aborts the program, never fires. */
  lemma NoFight(s: State, h: int, team: int -> Team)
    requires Inv(s, team) && MayEnter(s, h, team(h))
    ensures var t := Seat(s, h);
      forall i | 0 <= i < |t.chairs| && Occupied(t, i) :: team(t.chairs[i].hum) != Other(team(h))
  {
  }

  lemma StepInv(s: State, e: Event, team: int -> Team)
    requires Inv(s, team) && Enabled(s, e, team)
    ensures Inv(Next(s, e), team)
    ensures |Next(s, e).chairs| == |s.chairs|
  {
    match e {
      case Enters(h, swap) => assert Occupied(Enter(s, h, swap), FirstFree(s.chairs, 0));
      case Leaves(h, swap) =>
        var t := State(Decide(s.alignment, swap), Vacate(s.chairs, h));
        assert forall i | 0 <= i < |s.chairs| && Occupied(t, i) :: Occupied(s, i) && t.chairs[i] == s.chairs[i];
        assert forall i | 0 <= i < |s.chairs| :: Occupied(Leave(s, h, swap), i) == Occupied(t, i);
    }
  }

  /** The door opens to whoever is outside and of the team that the department is settled on, exactly
      while there is an empty chair. */
  lemma DoorOpensIff(s: State, h: int, team: Team)
    requires h != NOBODY && !IsIn(s, h)
    ensures MayEnter(s, h, team) <==> s.alignment == Settled(team) && exists i :: Free(s, i)
  {
    var f := FirstFree(s.chairs, 0);
    if f < |s.chairs| { assert Free(s, f); }
  }

  /** An entry adds the visitor and nobody else, a departure takes away the leaver and nobody else. */
  lemma WhoIsIn(s: State, e: Event, team: int -> Team, k: int)
    requires Inv(s, team) && Enabled(s, e, team) && k != NOBODY
    ensures IsIn(Next(s, e), k) <==> if e.Enters? then IsIn(s, k) || k == e.h else IsIn(s, k) && k != e.h
  {
    var t := Next(s, e);
    if e.Enters? {
      var f := FirstFree(s.chairs, 0);
      assert t.chairs[f] == Chair(e.h);
      if IsIn(s, k) {
        var i :| 0 <= i < |s.chairs| && s.chairs[i] == Chair(k);
        assert t.chairs[i] == Chair(k);
      }
    } else {
      if IsIn(s, k) && k != e.h {
        var i :| 0 <= i < |s.chairs| && s.chairs[i] == Chair(k);
        assert t.chairs[i] == Chair(k);
      }
    }
  }

  /** A visitor sits down in the first empty chair, and nobody else moves. */
  lemma SitsInFirstFree(s: State, h: int, swap: bool, team: Team)
    requires MayEnter(s, h, team)
    ensures exists i :: Free(s, i) && (forall j | 0 <= j < i :: !Free(s, j)) &&
                        Enter(s, h, swap).chairs == s.chairs[i := Chair(h)]
  {
    var f := FirstFree(s.chairs, 0);
    assert Free(s, f);
  }

  /** If the swap test holds when somebody enters a settled department, the door is shut to both teams;
      if not, the alignment stays. */
  lemma EntryDecides(s: State, h: int, team: int -> Team)
    requires Inv(s, team) && MayEnter(s, h, team(h))
    ensures Enter(s, h, true).alignment == Draining(Other(team(h)))
    ensures forall k, T :: !MayEnter(Enter(s, h, true), k, T)
    ensures Enter(s, h, false).alignment == s.alignment
  {
  }

  /** If the swap test holds when somebody leaves a settled department, it is the rivals' at once if
      nobody is left, and otherwise the door is shut to both teams. Without the test a settled
      department stays as it is. */
  lemma DepartureDecides(s: State, h: int, team: int -> Team)
    requires Inv(s, team) && s.alignment.Settled? && IsIn(s, h)
    ensures var t := Leave(s, h, true);
      if AllEmpty(t) then t.alignment == Settled(Other(s.alignment.team))
      else t.alignment == Draining(Other(s.alignment.team)) && forall k, T :: !MayEnter(t, k, T)
    ensures Leave(s, h, false).alignment == s.alignment
  {
    var t := State(Decide(s.alignment, true), Vacate(s.chairs, h));
    assert forall i | 0 <= i < |t.chairs| :: Occupied(Leave(s, h, true), i) == Occupied(t, i);
  }

  /** The team inside changes only in a step that leaves every chair empty. */
  lemma OwnerChangesWhenEmpty(s: State, e: Event, team: int -> Team)
    requires Inv(s, team) && Enabled(s, e, team) && Inside(Next(s, e).alignment) != Inside(s.alignment)
    ensures AllEmpty(Next(s, e))
  {
    var t := State(Decide(s.alignment, e.swap), Vacate(s.chairs, e.h));
    assert e.Leaves? && AllEmpty(t);
    assert forall i | 0 <= i < |t.chairs| :: Occupied(Next(s, e), i) == Occupied(t, i);
  }

  // ------------------------------------------------------------------ runs

  /** The states of a run: one before each event, and the last. */
  ghost predicate Run(states: seq<State>, events: seq<Event>, team: int -> Team) {
    && |states| == |events| + 1
    && (forall i | 0 <= i < |events| ::
          Enabled(states[i], events[i], team) && states[i + 1] == Next(states[i], events[i]))
  }

  lemma {:induction false} RunInv(states: seq<State>, events: seq<Event>, team: int -> Team, i: nat)
    requires Run(states, events, team) && Inv(states[0], team) && i < |states|
    ensures Inv(states[i], team)
  {
    if i > 0 {
      RunInv(states, events, team, i - 1);
      StepInv(states[i - 1], events[i - 1], team);
    }
  }

  lemma {:induction false} EmptyWhenOwnerDiffers(states: seq<State>, events: seq<Event>, team: int -> Team,
                                                 i: nat, j: nat)
    requires Run(states, events, team) && Inv(states[0], team) && i <= j < |states|
    requires Inside(states[i].alignment) != Inside(states[j].alignment)
    ensures exists k :: i < k <= j && AllEmpty(states[k])
    decreases j
  {
    RunInv(states, events, team, j - 1);
    assert states[j - 1 + 1] == Next(states[j - 1], events[j - 1]);
    if Inside(states[j - 1].alignment) != Inside(states[j].alignment) {
      OwnerChangesWhenEmpty(states[j - 1], events[j - 1], team);
    } else {
      EmptyWhenOwnerDiffers(states, events, team, i, j - 1);
    }
  }

  /** Between an entry by one team and a later entry by the other, every chair is empty at some
      moment. */
  lemma EmptyBetweenTeams(states: seq<State>, events: seq<Event>, team: int -> Team, i: nat, j: nat)
    requires Run(states, events, team) && Inv(states[0], team) && i < j < |events|
    requires events[i].Enters? && events[j].Enters? && team(events[i].h) != team(events[j].h)
    ensures exists k :: i < k <= j && AllEmpty(states[k])
  {
    assert states[i + 1] == Next(states[i], events[i]);
    EmptyWhenOwnerDiffers(states, events, team, i + 1, j);
  }

  // ------------------------------------------------------------------ draining

  lemma LeaverFrees(s: State, h: int, swap: bool, team: int -> Team)
    requires Inv(s, team) && IsIn(s, h)
    ensures |Occupants(Leave(s, h, swap))| == |Occupants(s)| - 1
  {
    var i :| 0 <= i < |s.chairs| && s.chairs[i] == Chair(h);
    var t := Leave(s, h, swap);
    assert Occupants(t) == Occupants(s) - {i};
  }

  lemma EmptyIffNobody(s: State)
    ensures AllEmpty(s) <==> |Occupants(s)| == 0
  {
    if i :| 0 <= i < |s.chairs| && Occupied(s, i) { assert i in Occupants(s); }
    if i :| i in Occupants(s) { assert Occupied(s, i); }
  }

  lemma DrainStep(s: State, e: Event, team: int -> Team)
    requires Inv(s, team) && s.alignment.Draining? && Enabled(s, e, team)
    ensures e.Leaves? && |Occupants(Next(s, e))| == |Occupants(s)| - 1
    ensures Next(s, e).alignment == if |Occupants(s)| > 1 then s.alignment else Settled(s.alignment.team)
  {
    LeaverFrees(s, e.h, e.swap, team);
    var t := State(s.alignment, Vacate(s.chairs, e.h));
    EmptyIffNobody(t);
    assert Occupants(t) == Occupants(Next(s, e)) by {
      assert forall i :: Occupied(t, i) == Occupied(Next(s, e), i);
    }
  }

  /** While the department drains nobody enters, so every event is a departure. It stays draining for
      exactly as many departures as there were people, and the last one completes the change. */
  lemma {:induction false} DrainsCompletely(states: seq<State>, events: seq<Event>, team: int -> Team, n: nat)
    requires Run(states, events, team) && Inv(states[0], team)
    requires states[0].alignment.Draining? && n <= |events| && n <= |Occupants(states[0])|
    ensures forall k | 0 <= k < n :: events[k].Leaves?
    ensures |Occupants(states[n])| == |Occupants(states[0])| - n
    ensures var target := states[0].alignment.team;
      states[n].alignment == if n < |Occupants(states[0])| then Draining(target) else Settled(target)
  {
    EmptyIffNobody(states[0]);
    if n > 0 {
      DrainsCompletely(states, events, team, n - 1);
      RunInv(states, events, team, n - 1);
      assert states[n - 1 + 1] == Next(states[n - 1], events[n - 1]);
      DrainStep(states[n - 1], events[n - 1], team);
    }
  }

  lemma {:induction false} SuffixRuns(states: seq<State>, events: seq<Event>, team: int -> Team, i: nat)
    requires Run(states, events, team) && i <= |events|
    ensures Run(states[i..], events[i..], team)
  {
    forall k | 0 <= k < |events[i..]|
      ensures Enabled(states[i..][k], events[i..][k], team)
      ensures states[i..][k + 1] == Next(states[i..][k], events[i..][k])
    {
      assert states[i + k + 1] == Next(states[i + k], events[i + k]);
    }
  }

  /** Once the swap test has held for a visitor or a leaver of a settled department, every later event
      is a departure until nobody is left, one for each person inside; and with the last of them, not
      before, the department is settled on the rival team. */
  lemma TestHandsOver(states: seq<State>, events: seq<Event>, team: int -> Team, i: nat, n: nat)
    requires Run(states, events, team) && Inv(states[0], team) && i < |events|
    requires states[i].alignment.Settled? && events[i].swap
    requires n <= |Occupants(states[i + 1])| && i + 1 + n <= |events|
    ensures forall k | i < k < i + 1 + n :: events[k].Leaves?
    ensures |Occupants(states[i + 1 + n])| == |Occupants(states[i + 1])| - n
    ensures var rivals := Other(states[i].alignment.team);
      states[i + 1 + n].alignment == if n < |Occupants(states[i + 1])| then Draining(rivals) else Settled(rivals)
  {
    var s, e := states[i], events[i];
    RunInv(states, events, team, i);
    assert states[i + 1] == Next(s, e);
    EmptyIffNobody(states[i + 1]);
    if e.Enters? {
      EntryDecides(s, e.h, team);
      assert Occupied(states[i + 1], FirstFree(s.chairs, 0));
    } else {
      DepartureDecides(s, e.h, team);
    }
    if states[i + 1].alignment.Draining? {
      RunInv(states, events, team, i + 1);
      SuffixRuns(states, events, team, i + 1);
      DrainsCompletely(states[i + 1..], events[i + 1..], team, n);
      forall k | i < k < i + 1 + n ensures events[k].Leaves? { assert events[i + 1..][k - i - 1] == events[k]; }
    }
  }
}
